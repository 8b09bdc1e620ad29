/** What the page does with the loaded table: the list of quarters to choose
    from, the rows of the chosen quarter, and those rows ranked by expected
    value. */
module Ranking {
  import opened Seqs
  import opened Strings
  import opened Deals

  /** The choice that keeps every row. */
  const FullYear: string := "Full Year"

  // ---------------------------------------------------------------------
  // Quarter options

  /** Some row of the table carries the quarter label x. */
  predicate HasLabel(rows: seq<Deal>, x: string)
  {
    exists d :: d in rows && d.quarter == x
  }

  /** Strictly increasing in Python's string order, hence without repeats. */
  predicate StrictlyAscending(s: seq<string>)
  {
    forall i, j :: 0 <= i < j < |s| ==> Less(s[i], s[j])
  }

  lemma AscendingDistinct(s: seq<string>)
    requires StrictlyAscending(s)
    ensures forall i, j :: 0 <= i < j < |s| ==> s[i] != s[j]
  {
    forall i, j | 0 <= i < j < |s| ensures s[i] != s[j] {
      LessIrreflexive(s[i]);
    }
  }

  lemma BelowHead(x: string, s: seq<string>)
    requires StrictlyAscending(s) && s != [] && Less(x, s[0])
    ensures forall j :: 0 <= j < |s| ==> Less(x, s[j])
  {
    forall j | 0 < j < |s| ensures Less(x, s[j]) {
      LessTransitive(x, s[0], s[j]);
    }
  }

  lemma AboveHead(x: string, s: seq<string>, rest: seq<string>)
    requires StrictlyAscending(s) && s != [] && Less(s[0], x)
    requires StrictlyAscending(rest)
    requires forall y :: y in rest <==> y == x || y in s[1..]
    ensures StrictlyAscending([s[0]] + rest)
  {
    var r := [s[0]] + rest;
    forall i, j | 0 <= i < j < |r| ensures Less(r[i], r[j]) {
      assert r[j] == rest[j - 1] && rest[j - 1] in rest;
      if i > 0 {
        assert r[i] == rest[i - 1];
      } else if rest[j - 1] != x {
        var m :| 0 <= m < |s[1..]| && s[1..][m] == rest[j - 1];
        assert s[m + 1] == rest[j - 1];
      }
    }
  }

  /** Adds x to a strictly ascending list unless it is already there. */
  function InsertLabel(x: string, s: seq<string>): (r: seq<string>)
    requires StrictlyAscending(s)
    ensures StrictlyAscending(r)
    ensures forall y :: y in r <==> y == x || y in s
  {
    if s == [] then [x]
    else if x == s[0] then s
    else if Less(x, s[0]) then
      BelowHead(x, s);
      [x] + s
    else
      LessTotal(x, s[0]);
      var rest := InsertLabel(x, s[1..]);
      AboveHead(x, s, rest);
      assert forall y :: y in s <==> y == s[0] || y in s[1..];
      [s[0]] + rest
  }

  /** `sorted(df["Quarter"].unique().tolist())`: every label that occurs,
      once each, in string order. */
  function QuarterOptions(rows: seq<Deal>): (r: seq<string>)
    ensures StrictlyAscending(r)
    ensures forall x :: x in r <==> HasLabel(rows, x)
  {
    if rows == [] then []
    else
      var r := InsertLabel(rows[0].quarter, QuarterOptions(rows[1..]));
      assert forall d :: d in rows <==> d == rows[0] || d in rows[1..];
      r
  }

  /** Two strictly ascending lists with the same members are the same list,
      so the options do not depend on the order the rows come in or on how
      the labels are collected and sorted. */
  lemma {:induction false} AscendingUnique(a: seq<string>, b: seq<string>)
    requires StrictlyAscending(a) && StrictlyAscending(b)
    requires forall x :: x in a <==> x in b
    ensures a == b
  {
    if a != [] {
      assert a[0] in a;
    }
    if b != [] {
      assert b[0] in b;
    }
    if a != [] && b != [] {
      var j :| 0 <= j < |b| && b[j] == a[0];
      var i :| 0 <= i < |a| && a[i] == b[0];
      if i > 0 && j > 0 {
        LessAsymmetric(a[0], b[0]);
      }
      AscendingDistinct(a);
      AscendingDistinct(b);
      forall x ensures x in a[1..] <==> x in b[1..] {
        assert x in a[1..] <==> x in a && x != a[0];
        assert x in b[1..] <==> x in b && x != b[0];
      }
      AscendingUnique(a[1..], b[1..]);
      assert a == [a[0]] + a[1..] && b == [b[0]] + b[1..];
    }
  }

  /** The select box: "Full Year" first, then the quarter options. */
  function SelectOptions(rows: seq<Deal>): (r: seq<string>)
    ensures |r| >= 1 && r[0] == FullYear
    ensures StrictlyAscending(r[1..])
    ensures forall x :: x in r[1..] <==> HasLabel(rows, x)
    ensures forall x :: x in r <==> x == FullYear || HasLabel(rows, x)
  {
    [FullYear] + QuarterOptions(rows)
  }

  /** In a loaded table no quarter label reads "Full Year", so every option
      of the select box occurs once. */
  lemma SelectOptionsDistinct(rows: seq<Deal>)
    requires forall d :: d in rows ==> IsLoaded(d)
    ensures forall i, j :: 0 <= i < j < |SelectOptions(rows)| ==>
      SelectOptions(rows)[i] != SelectOptions(rows)[j]
  {
    var r := SelectOptions(rows);
    assert !HasLabel(rows, FullYear);
    assert r[1..] == QuarterOptions(rows);
    AscendingDistinct(r[1..]);
    forall i, j | 0 <= i < j < |r| ensures r[i] != r[j] {
      if i == 0 {
        assert r[j] in QuarterOptions(rows);
      } else {
        assert r[i] == r[1..][i - 1] && r[j] == r[1..][j - 1];
      }
    }
  }

  /** The options are ordered as text, not by date: the first quarter of
      2025 is listed before the second quarter of 2024. */
  lemma OptionsAreTextual(d1: Deal, d2: Deal)
    requires d1.month == 5 && d1.year == 2024 && IsLoaded(d1)
    requires d2.month == 2 && d2.year == 2025 && IsLoaded(d2)
    ensures QuarterOptions([d1, d2]) == ["Q1-2025", "Q2-2024"]
  {
    assert NatToDigits(2024) == "2024" by {
      assert NatToDigits(20) == "20";
      assert NatToDigits(202) == "202";
    }
    assert NatToDigits(2025) == "2025" by {
      assert NatToDigits(20) == "20";
      assert NatToDigits(202) == "202";
    }
    assert d1.quarter == "Q2-2024";
    assert d2.quarter == "Q1-2025";
    var expected := ["Q1-2025", "Q2-2024"];
    assert Less(expected[0], expected[1]);
    forall x ensures x in expected <==> HasLabel([d1, d2], x) {
      if x in expected {
        assert x == d1.quarter || x == d2.quarter;
      }
    }
    AscendingUnique(QuarterOptions([d1, d2]), expected);
  }

  // ---------------------------------------------------------------------
  // Quarter filter

  /** The row test `df["Quarter"] == quarter`. */
  function InQuarter(q: string): Deal -> bool
  {
    (d: Deal) => d.quarter == q
  }

  /** The rows shown for a choice of the select box: all of them for
      "Full Year", otherwise those labelled with the chosen quarter. */
  function SelectQuarter(rows: seq<Deal>, choice: string): (r: seq<Deal>)
    ensures choice == FullYear ==> r == rows
    ensures choice != FullYear ==> forall i :: 0 <= i < |r| ==> r[i].quarter == choice
  {
    if choice == FullYear then rows
    else
      var r := Filter(InQuarter(choice), rows);
      assert forall i :: 0 <= i < |r| ==> InQuarter(choice)(r[i]);
      r
  }

  /** A quarter keeps exactly the rows labelled with it, each as often as it
      occurs, in their original relative order. */
  lemma SelectQuarterExact(rows: seq<Deal>, choice: string)
    requires choice != FullYear
    ensures IsSubseq(SelectQuarter(rows, choice), rows)
    ensures forall d ::
              multiset(SelectQuarter(rows, choice))[d] == if d.quarter == choice then multiset(rows)[d] else 0
  {
    FilterIsSubseq(InQuarter(choice), rows);
    FilterMultiset(InQuarter(choice), rows);
  }

  /** No other order-preserving choice of rows of that quarter has as many
      rows: the filter result is the only one. */
  lemma SelectQuarterUnique(rows: seq<Deal>, choice: string, t: seq<Deal>)
    requires choice != FullYear
    requires IsSubseq(t, rows)
    requires forall i :: 0 <= i < |t| ==> t[i].quarter == choice
    requires |t| == |SelectQuarter(rows, choice)|
    ensures t == SelectQuarter(rows, choice)
  {
    assert forall i :: 0 <= i < |t| ==> InQuarter(choice)(t[i]);
    FilterUnique(InQuarter(choice), rows, t);
  }

  /** Every quarter offered by the select box shows at least one row. */
  lemma OptionSelectsSomething(rows: seq<Deal>, q: string)
    requires q in QuarterOptions(rows)
    ensures SelectQuarter(rows, q) != []
  {
    var d :| d in rows && d.quarter == q;
    if q != FullYear {
      SelectQuarterExact(rows, q);
      assert multiset(SelectQuarter(rows, q))[d] > 0;
    }
  }

  // ---------------------------------------------------------------------
  // Ranking

  /** Expected values never increase from one row to the next. */
  predicate RankedDesc(s: seq<Deal>)
  {
    forall i, j :: 0 <= i < j < |s| ==> s[i].expectedValue >= s[j].expectedValue
  }

  lemma BelowHeadValue(d: Deal, s: seq<Deal>, rest: seq<Deal>)
    requires RankedDesc(s) && s != [] && d.expectedValue < s[0].expectedValue
    requires RankedDesc(rest)
    requires multiset(rest) == multiset(s[1..]) + multiset{d}
    ensures RankedDesc([s[0]] + rest)
  {
    var r := [s[0]] + rest;
    forall i, j | 0 <= i < j < |r| ensures r[i].expectedValue >= r[j].expectedValue {
      assert r[j] == rest[j - 1] && rest[j - 1] in multiset(rest);
      if i > 0 {
        assert r[i] == rest[i - 1];
      } else if rest[j - 1] != d {
        assert rest[j - 1] in s[1..];
        var m :| 0 <= m < |s[1..]| && s[1..][m] == rest[j - 1];
        assert s[m + 1] == rest[j - 1];
      }
    }
  }

  /** Places d before the first row whose expected value does not exceed
      its own. */
  function InsertByValue(d: Deal, s: seq<Deal>): (r: seq<Deal>)
    requires RankedDesc(s)
    ensures RankedDesc(r)
    ensures multiset(r) == multiset(s) + multiset{d}
  {
    if s == [] || s[0].expectedValue <= d.expectedValue then [d] + s
    else
      var rest := InsertByValue(d, s[1..]);
      BelowHeadValue(d, s, rest);
      assert s == [s[0]] + s[1..];
      [s[0]] + rest
  }

  /** `sort_values(by="Expected Value", ascending=False)`: a reordering of
      the rows with the largest expected value first. */
  function Rank(rows: seq<Deal>): (r: seq<Deal>)
    ensures multiset(r) == multiset(rows)
    ensures RankedDesc(r)
  {
    if rows == [] then []
    else
      assert rows == [rows[0]] + rows[1..];
      InsertByValue(rows[0], Rank(rows[1..]))
  }

  /** Dropping one row keeps a ranking ranked. */
  lemma RankedWithout(b: seq<Deal>, j: nat)
    requires RankedDesc(b) && j < |b|
    ensures RankedDesc(b[..j] + b[j + 1..])
  {
    var c := b[..j] + b[j + 1..];
    forall p, q | 0 <= p < q < |c| ensures c[p].expectedValue >= c[q].expectedValue {
      var p' := if p < j then p else p + 1;
      var q' := if q < j then q else q + 1;
      assert c[p] == b[p'] && c[q] == b[q'];
    }
  }

  /** Taking the same row out of two orderings of the same rows leaves two
      orderings of the same rows. */
  lemma MultisetWithout(a: seq<Deal>, b: seq<Deal>, j: nat)
    requires multiset(a) == multiset(b) && a != [] && j < |b| && b[j] == a[0]
    ensures multiset(a[1..]) == multiset(b[..j] + b[j + 1..])
  {
    assert b == b[..j] + [b[j]] + b[j + 1..];
    assert multiset(b) == multiset(b[..j]) + multiset{b[j]} + multiset(b[j + 1..]);
    assert a == [a[0]] + a[1..];
    assert multiset(a) == multiset{a[0]} + multiset(a[1..]);
    assert multiset(b[..j] + b[j + 1..]) == multiset(b[..j]) + multiset(b[j + 1..]);
    assert multiset(a[1..]) == multiset(a) - multiset{a[0]};
    assert multiset(b[..j] + b[j + 1..]) == multiset(b) - multiset{b[j]};
  }

  /** Two rankings of the same rows start with the same expected value. */
  lemma HeadsAgree(a: seq<Deal>, b: seq<Deal>) returns (j: nat)
    requires multiset(a) == multiset(b) && a != []
    requires RankedDesc(a) && RankedDesc(b)
    ensures j < |b| && b[j] == a[0]
    ensures a[0].expectedValue == b[0].expectedValue
  {
    assert a[0] in multiset(a);
    assert b != [];
    assert b[0] in multiset(b);
    j :| 0 <= j < |b| && b[j] == a[0];
    var i :| 0 <= i < |a| && a[i] == b[0];
  }

  /** If the rest of a agrees with b once b[j] is taken out, and b[j] ties
      with the head of b, then a agrees with b. */
  lemma AgreeAround(a: seq<Deal>, b: seq<Deal>, j: nat, b': seq<Deal>)
    requires RankedDesc(b) && j < |b| && |a| == |b| && b' == b[..j] + b[j + 1..]
    requires a[0].expectedValue == b[0].expectedValue == b[j].expectedValue
    requires forall k :: 0 < k < |a| ==> a[k].expectedValue == b'[k - 1].expectedValue
    ensures forall k :: 0 <= k < |a| ==> a[k].expectedValue == b[k].expectedValue
  {
    forall k | 0 < k < |a| ensures a[k].expectedValue == b[k].expectedValue {
      if k <= j {
        assert b'[k - 1] == b[k - 1];
        assert b[0].expectedValue >= b[k - 1].expectedValue >= b[k].expectedValue >= b[j].expectedValue;
      } else {
        assert b'[k - 1] == b[k];
      }
    }
  }

  /** Any two rankings of the same rows list the same expected values in the
      same positions; they can differ only in the order of rows whose
      expected values tie. */
  lemma {:induction false} RankingsAgree(a: seq<Deal>, b: seq<Deal>)
    requires multiset(a) == multiset(b)
    requires RankedDesc(a) && RankedDesc(b)
    ensures |a| == |b|
    ensures forall k :: 0 <= k < |a| ==> a[k].expectedValue == b[k].expectedValue
    decreases |a|
  {
    assert |a| == |multiset(a)| == |multiset(b)| == |b|;
    if a != [] {
      var j := HeadsAgree(a, b);
      var b' := b[..j] + b[j + 1..];
      MultisetWithout(a, b, j);
      RankedWithout(b, j);
      RankedWithout(a, 0);
      assert a[..0] + a[1..] == a[1..];
      RankingsAgree(a[1..], b');
      assert forall k :: 0 < k < |a| ==> a[k] == a[1..][k - 1];
      AgreeAround(a, b, j, b');
    }
  }

  /** The model's ranking agrees with any ordering that meets the same
      promise, such as the one an unstable sort produces. */
  lemma RankMatchesAnyRanking(rows: seq<Deal>, t: seq<Deal>)
    requires multiset(t) == multiset(rows) && RankedDesc(t)
    ensures |t| == |Rank(rows)|
    ensures forall k :: 0 <= k < |t| ==> t[k].expectedValue == Rank(rows)[k].expectedValue
  {
    RankingsAgree(t, Rank(rows));
  }

  // ---------------------------------------------------------------------
  // The page

  /** The table shown for a choice of the select box. */
  function Page(rows: seq<Deal>, choice: string): (r: seq<Deal>)
    ensures RankedDesc(r)
    ensures multiset(r) == multiset(SelectQuarter(rows, choice))
  {
    Rank(SelectQuarter(rows, choice))
  }

  /** The page shows exactly the rows of the chosen quarter (all rows for
      "Full Year"), each as often as in the table and with its fields
      unchanged, ranked by expected value. */
  lemma PageContents(rows: seq<Deal>, choice: string)
    ensures RankedDesc(Page(rows, choice))
    ensures forall d ::
              multiset(Page(rows, choice))[d] ==
              if choice == FullYear || d.quarter == choice then multiset(rows)[d] else 0
  {
    if choice != FullYear {
      SelectQuarterExact(rows, choice);
    }
  }
}
