# Deal ranking by expected value — a Dafny model

The application reads a table of sales deals and derives three columns for
every row in `load_data`:

- the amount with its `$` signs and `,` thousands separators removed;
- a quarter label such as `"Q3-2024"` built from the close date;
- the expected value, which is the amount times the deal probability.

It then offers a choice of `"Full Year"` followed by every quarter
label that occurs, sorted as text. It keeps the rows of the chosen quarter,
or all rows for `"Full Year"`, and ranks them by expected value, largest
first.

The model has five modules:

- `Wrappers` (`wrappers.dfy`): the `Option` type the parsers return.
- `Seqs` (`seqs.dfy`): order-preserving selection (`Filter`) and the
  subsequence relation. The module proves that the selection is a
  subsequence, keeps exactly the selected elements with their
  multiplicities, and is the only subsequence that does so. Amount
  cleaning and the quarter filter are both instances of it.
- `Strings` (`strings.dfy`): Python's `<` on `str` (used by `sorted`),
  proved irreflexive, transitive and total. Also Python's `str(int)`
  (used by `astype(str)`). It is proved to be inverse, in both directions,
  to a parser that accepts exactly Python's spelling of an int, so it is
  injective and writes no leading zeros.
- `Deals` (`deals.dfy`): the `Deal` row record and the three derived
  columns. `LoadData` updates an `array<Deal>` in place, one column after the
  other, as `load_data` does with the data frame.
- `Ranking` (`ranking.dfy`): the quarter options, the select box list, the
  quarter filter, the ranking sort and the page they produce, all as pure
  functions over `seq<Deal>` with lemmas.

Modelling decisions:

- Amounts, probabilities and expected values are `real`, not floating point.
- `Deal.amount` is the number `astype(float)` reads from the cleaned amount
  text. It is an input field of the row, because float parsing is not modelled.
- `Deal.month` (a subset type `1..12`) and `Deal.year` are the parsed close
  date. pandas' date parser is not part of this model.
- Months 1–3 are quarter 1, 4–6 quarter 2, and so on. The year is rendered
  as Python renders an `int`: a leading `-` for negative years and no
  leading zeros.
- `app.py` contains no simulation of revenue outcomes: no random sampling,
  no trial loop, no percentiles.

## Model

| member | source | states |
|---|---|---|
| `Deals.CleanAmount` | app.py:7 | the cleaned amount text contains no `$` and no `,` |
| `Deals.CleanAmountKeepsRest` | app.py:7 | the cleaned text is a subsequence of the original, and every other character occurs in it exactly as often as in the original |
| `Deals.CleanAmountUnique` | app.py:7 | any deletion of characters that leaves no `$` or `,` and keeps as many characters is the cleaned text |
| `Deals.CleanAmountOfClean` | app.py:7 | text without `$` or `,` is left unchanged, so cleaning is idempotent |
| `Deals.CleanAmountExample` | app.py:7 | `"$1,250.50"` cleans to `"1250.50"` |
| `Deals.CleanAmounts` | app.py:7 | the "Amount" pass replaces every row's amount text by its cleaned form and changes nothing else |
| `Deals.Quarter` | app.py:9 | the quarter number lies in 1..4, and the month lies in that quarter's three months |
| `Deals.QuarterLabel` | app.py:9 | the label starts with `Q`, then a quarter digit 1..4, then `-` |
| `Deals.QuarterLabelRoundTrip` | app.py:9 | parsing a label gives back its quarter number and year |
| `Deals.ParsedLabelIsLabel` | app.py:9 | a text that reads back as a quarter and year is exactly that quarter's label, which pins the label text together with the round trip |
| `Deals.QuarterLabelInjective` | app.py:9 | two close dates get the same label if and only if they fall in the same quarter of the same year |
| `Deals.QuarterLabelExample` | app.py:9 | July 2024 is labelled `"Q3-2024"` |
| `Strings.IntToString` | app.py:9 | the year's text is a minus sign exactly for negative years, followed by decimal digits with no leading zero |
| `Strings.IntToStringRoundTrip` | app.py:9 | the decimal rendering of the year parses back to the year |
| `Strings.ParseIntCanonical` | app.py:9 | every text the parser accepts is the rendering of the number it reads, so the rendering of a year is the only text that reads as that year |
| `Strings.IntToStringInjective` | app.py:9 | two years are rendered the same if and only if they are equal |
| `Deals.LabelQuarters` | app.py:9 | the "Quarter" pass labels every row with the quarter and year of its close date and changes nothing else |
| `Deals.ComputeExpectedValues` | app.py:10 | the "Expected Value" pass sets every row's expected value to its amount times its probability and changes nothing else |
| `Deals.Load` | app.py:7-10 | a loaded row has clean amount text, the label of its own close date and an expected value equal to amount × probability, and its other fields are unchanged |
| `Deals.LoadIdempotent` | app.py:5-11 | loading an already loaded row changes nothing |
| `Deals.LoadData` | app.py:5-11 | after the three passes every row of the table is the loaded form of the row it was |
| `Strings.Less` | app.py:16 | the string order used by `sorted`: a proper prefix sorts first, and otherwise the first differing code point decides |
| `Strings.LessIrreflexive` | app.py:16 | no string sorts before itself |
| `Strings.LessTransitive` | app.py:16 | string order is transitive |
| `Strings.LessTotal` | app.py:16 | any two different strings are ordered one way or the other |
| `Ranking.QuarterOptions` | app.py:16 | the options are strictly ascending in string order, so no label repeats, and a string is an option if and only if some row carries it as its label |
| `Ranking.AscendingUnique` | app.py:16 | two strictly ascending lists with the same members are equal, so the options are fully determined by the set of labels |
| `Ranking.OptionsAreTextual` | app.py:16 | with rows from Q2 2024 and Q1 2025 the options are `["Q1-2025", "Q2-2024"]`, which is string order and not date order |
| `Ranking.SelectOptions` | app.py:17 | the select box lists `"Full Year"` first; the entries after it are strictly ascending, and a string is among them if and only if it is a row's label |
| `Ranking.SelectOptionsDistinct` | app.py:17 | for a loaded table no entry of the select box is listed twice |
| `Ranking.SelectQuarter` | app.py:19-22 | `"Full Year"` returns the input rows unchanged and in order; any other choice returns only rows labelled with it |
| `Ranking.SelectQuarterExact` | app.py:21-22 | a quarter keeps its rows in their original relative order, each row of that quarter as often as in the table, and no row of another quarter |
| `Ranking.SelectQuarterUnique` | app.py:21-22 | the filter result is the only order-preserving choice of rows of that quarter with that many rows |
| `Ranking.OptionSelectsSomething` | app.py:16-22 | every quarter offered by the select box selects at least one row |
| `Ranking.Rank` | app.py:24 | the ranked rows are a permutation of the input rows, and expected values never increase from one row to the next |
| `Ranking.RankingsAgree` | app.py:24 | two such rankings of the same rows have the same expected value at every position, so they differ only among ties |
| `Ranking.RankMatchesAnyRanking` | app.py:24 | any ordering an unstable descending sort may produce has the same length as the model's ranking and the same expected values at every position |
| `Ranking.Page` | app.py:19-24 | the displayed table is ranked by expected value and is a permutation of the rows selected for the choice |
| `Ranking.PageContents` | app.py:19-24 | the displayed table is ranked, and holds each row of the chosen quarter (every row for `"Full Year"`) exactly as often as the table does, with its fields unchanged; it holds no other row |
| `Seqs.Filter` | app.py:22 | the boolean mask keeps only elements that pass the test, and never more elements than it was given |
| `Seqs.FilterUnique` | app.py:22 | order-preserving selection is the only subsequence that keeps every selected element and nothing else |

## Left out

- Streamlit: the page title, the select box widget, the subheader, the table
  display and `st.cache_data` (app.py:4, 13, 15, 17, 26-30) are presentation.
  The model takes the chosen option as a parameter and lists the options
  the box offers.
- Reading `TestData.csv` (app.py:6) is file I/O. The table is the given
  array of rows.
- Parsing "Close Date" with `pd.to_datetime` (app.py:8) is a library call.
  Month and year are given fields, and missing or unparsable dates are not
  modelled.
- Converting the cleaned amount text with `astype(float)` (app.py:7) is float
  parsing. It is not modelled, and neither is the error it raises on text
  that is not a number. The amount is a given `real` beside the text.
- Floating-point rounding in amount × probability (app.py:10) is not modelled.
  Arithmetic is exact on `real`.
- Missing values (NaN) in any column, and how `unique` and `sort_values`
  treat them, are not modelled.
- Columns other than name, company, amount, probability and close date are
  not represented. The display selection of columns (app.py:27-30) only
  affects presentation.
- `df.copy()` (app.py:20) makes a new frame. The model works on values, so
  the copy and the original are the same sequence.
- Ranking.Rank: fixes one order among rows with equal expected values (the
  earlier row first). pandas' default sort does not promise an order among
  ties, so the contract, and `RankMatchesAnyRanking`, promise only the
  order of the expected values.
- Random sampling, trial loops and percentile summaries do not occur in
  `app.py`, so none is modelled.
