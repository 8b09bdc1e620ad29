/** The deal table and the three columns `load_data` derives for every row:
    the cleaned amount, the quarter label of the close date and the
    expected value. */
module Deals {
  import opened Wrappers
  import opened Seqs
  import opened Strings

  /** A calendar month, as a parsed close date carries it. */
  type Month = m: int | 1 <= m <= 12 witness 1

  /** One row of the deal table. `amountText` is the "Amount" cell as text;
      `amount` is the number that cell denotes once cleaned; `month` and
      `year` come from the parsed "Close Date"; `quarter` and
      `expectedValue` are the derived "Quarter" and "Expected Value"
      columns. */
  datatype Deal = Deal(
    name: string,
    company: string,
    amountText: string,
    amount: real,
    prob: real,
    month: Month,
    year: int,
    quarter: string,
    expectedValue: real)

  // ---------------------------------------------------------------------
  // Amount cleaning

  /** The characters the amount cleaning keeps: all but `$` and `,`. */
  predicate IsAmountChar(c: char)
  {
    c != '$' && c != ','
  }

  /** The amount text with every currency sign and thousands separator
      removed. */
  function CleanAmount(text: string): (r: string)
    ensures forall i :: 0 <= i < |r| ==> r[i] != '$' && r[i] != ','
  {
    Filter(IsAmountChar, text)
  }

  /** Every other character of the original survives, as often as it
      occurred and in its original order. */
  lemma CleanAmountKeepsRest(text: string)
    ensures IsSubseq(CleanAmount(text), text)
    ensures forall c :: IsAmountChar(c) ==> multiset(CleanAmount(text))[c] == multiset(text)[c]
  {
    FilterIsSubseq(IsAmountChar, text);
    FilterMultiset(IsAmountChar, text);
  }

  /** Cleaning is the only way to delete characters from the text so that no
      `$` or `,` is left and nothing else is lost. */
  lemma CleanAmountUnique(text: string, t: string)
    requires IsSubseq(t, text)
    requires forall i :: 0 <= i < |t| ==> t[i] != '$' && t[i] != ','
    requires |t| == |CleanAmount(text)|
    ensures t == CleanAmount(text)
  {
    FilterUnique(IsAmountChar, text, t);
  }

  /** Text that is already clean is left as it is; in particular cleaning
      twice is cleaning once. */
  lemma CleanAmountOfClean(text: string)
    requires forall i :: 0 <= i < |text| ==> text[i] != '$' && text[i] != ','
    ensures CleanAmount(text) == text
  {
    FilterKeepsAll(IsAmountChar, text);
  }

  lemma CleanAmountExample()
    ensures CleanAmount("$1,250.50") == "1250.50"
  {
    assert Filter(IsAmountChar, "0") == "0";
    assert "50"[1..] == "0";
    assert Filter(IsAmountChar, "50") == "50";
    assert ".50"[1..] == "50";
    assert Filter(IsAmountChar, ".50") == ".50";
    assert "0.50"[1..] == ".50";
    assert Filter(IsAmountChar, "0.50") == "0.50";
    assert "50.50"[1..] == "0.50";
    assert Filter(IsAmountChar, "50.50") == "50.50";
    assert "250.50"[1..] == "50.50";
    assert Filter(IsAmountChar, "250.50") == "250.50";
    assert ",250.50"[1..] == "250.50";
    assert Filter(IsAmountChar, ",250.50") == "250.50";
    assert "1,250.50"[1..] == ",250.50";
    assert Filter(IsAmountChar, "1,250.50") == "1250.50";
    assert "$1,250.50"[1..] == "1,250.50";
    assert Filter(IsAmountChar, "$1,250.50") == "1250.50";
  }

  // ---------------------------------------------------------------------
  // Quarter label

  /** pandas' `dt.quarter`: months 1-3 are quarter 1, 4-6 quarter 2, and so
      on. */
  function Quarter(m: Month): (q: int)
    ensures 1 <= q <= 4
    ensures 3 * q - 2 <= m <= 3 * q
  {
    (m - 1) / 3 + 1
  }

  /** The "Quarter" column: `"Q"`, the quarter number, `"-"`, then the year
      as Python renders an int. */
  function QuarterLabel(m: Month, year: int): (tag: string)
    ensures |tag| >= 4 && tag[0] == 'Q' && tag[2] == '-'
    ensures '1' <= tag[1] <= '4'
  {
    "Q" + [DigitChar(Quarter(m))] + "-" + IntToString(year)
  }

  /** Reads a quarter label back into its quarter number and year. */
  function ParseQuarterLabel(tag: string): (r: Option<(int, int)>)
  {
    if |tag| >= 4 && tag[0] == 'Q' && '1' <= tag[1] <= '4' && tag[2] == '-' then
      match ParseInt(tag[3..])
      case Some(y) => Some((DigitValue(tag[1]), y))
      case None => None
    else None
  }

  lemma QuarterLabelRoundTrip(m: Month, year: int)
    ensures ParseQuarterLabel(QuarterLabel(m, year)) == Some((Quarter(m), year))
  {
    var tag := QuarterLabel(m, year);
    assert tag[3..] == IntToString(year);
    IntToStringRoundTrip(year);
  }

  /** The only text that reads back as a given quarter and year is that
      quarter's label: no other spelling of the year, such as one with a
      leading zero, is accepted. */
  lemma ParsedLabelIsLabel(tag: string, m: Month, year: int)
    requires ParseQuarterLabel(tag) == Some((Quarter(m), year))
    ensures tag == QuarterLabel(m, year)
  {
    ParseIntCanonical(tag[3..]);
    assert DigitChar(DigitValue(tag[1])) == tag[1];
    assert tag == [tag[0]] + [tag[1]] + [tag[2]] + tag[3..];
  }

  /** Two close dates get the same label exactly when they fall in the same
      quarter of the same year. */
  lemma QuarterLabelInjective(m1: Month, y1: int, m2: Month, y2: int)
    ensures QuarterLabel(m1, y1) == QuarterLabel(m2, y2) <==> Quarter(m1) == Quarter(m2) && y1 == y2
  {
    QuarterLabelRoundTrip(m1, y1);
    QuarterLabelRoundTrip(m2, y2);
  }

  lemma QuarterLabelExample()
    ensures QuarterLabel(7, 2024) == "Q3-2024"
  {
    assert NatToDigits(2) == "2";
    assert NatToDigits(20) == "20";
    assert NatToDigits(202) == "202";
    assert NatToDigits(2024) == "2024";
  }

  // ---------------------------------------------------------------------
  // Loading

  /** A row whose derived columns agree with its own fields. */
  predicate IsLoaded(d: Deal)
  {
    && (forall i :: 0 <= i < |d.amountText| ==> d.amountText[i] != '$' && d.amountText[i] != ',')
    && d.quarter == QuarterLabel(d.month, d.year)
    && d.expectedValue == d.amount * d.prob
  }

  /** What `load_data` makes of one row. */
  function Load(d: Deal): (e: Deal)
    ensures IsLoaded(e)
    ensures e.amountText == CleanAmount(d.amountText)
    ensures e.name == d.name && e.company == d.company && e.amount == d.amount
    ensures e.prob == d.prob && e.month == d.month && e.year == d.year
  {
    d.(amountText := CleanAmount(d.amountText),
       quarter := QuarterLabel(d.month, d.year),
       expectedValue := d.amount * d.prob)
  }

  /** Loading a loaded row changes nothing. */
  lemma LoadIdempotent(d: Deal)
    ensures Load(Load(d)) == Load(d)
  {
    CleanAmountOfClean(Load(d).amountText);
  }

  /** The "Amount" column: strips `$` and `,` from every row's amount text. */
  method CleanAmounts(rows: array<Deal>)
    modifies rows
    ensures forall i :: 0 <= i < rows.Length ==>
      rows[i] == old(rows[i]).(amountText := CleanAmount(old(rows[i]).amountText))
  {
    for i := 0 to rows.Length
      invariant forall k :: 0 <= k < i ==>
        rows[k] == old(rows[k]).(amountText := CleanAmount(old(rows[k]).amountText))
      invariant forall k :: i <= k < rows.Length ==> rows[k] == old(rows[k])
    {
      rows[i] := rows[i].(amountText := CleanAmount(rows[i].amountText));
    }
  }

  /** The "Quarter" column: labels every row with the quarter of its close
      date. */
  method LabelQuarters(rows: array<Deal>)
    modifies rows
    ensures forall i :: 0 <= i < rows.Length ==>
      rows[i] == old(rows[i]).(quarter := QuarterLabel(old(rows[i]).month, old(rows[i]).year))
  {
    for i := 0 to rows.Length
      invariant forall k :: 0 <= k < i ==>
        rows[k] == old(rows[k]).(quarter := QuarterLabel(old(rows[k]).month, old(rows[k]).year))
      invariant forall k :: i <= k < rows.Length ==> rows[k] == old(rows[k])
    {
      rows[i] := rows[i].(quarter := QuarterLabel(rows[i].month, rows[i].year));
    }
  }

  /** The "Expected Value" column: amount times deal probability, row by
      row. */
  method ComputeExpectedValues(rows: array<Deal>)
    modifies rows
    ensures forall i :: 0 <= i < rows.Length ==>
      rows[i] == old(rows[i]).(expectedValue := old(rows[i]).amount * old(rows[i]).prob)
  {
    for i := 0 to rows.Length
      invariant forall k :: 0 <= k < i ==>
        rows[k] == old(rows[k]).(expectedValue := old(rows[k]).amount * old(rows[k]).prob)
      invariant forall k :: i <= k < rows.Length ==> rows[k] == old(rows[k])
    {
      rows[i] := rows[i].(expectedValue := rows[i].amount * rows[i].prob);
    }
  }

  /** `load_data` after the file has been read and the dates parsed: the
      three derived columns, one after the other, on the same table. */
  method LoadData(rows: array<Deal>)
    modifies rows
    ensures forall i :: 0 <= i < rows.Length ==> rows[i] == Load(old(rows[i]))
    ensures forall i :: 0 <= i < rows.Length ==> IsLoaded(rows[i])
  {
    CleanAmounts(rows);
    LabelQuarters(rows);
    ComputeExpectedValues(rows);
  }
}
