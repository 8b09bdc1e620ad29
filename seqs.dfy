/** Order-preserving selection from a sequence, the one operation behind both
    stripping characters from a string and keeping the rows of a table that
    match a condition. */
module Seqs {

  /** t can be obtained from s by deleting elements (any number, anywhere). */
  predicate IsSubseq<T(==)>(t: seq<T>, s: seq<T>)
    decreases |s|
  {
    if t == [] then true
    else if s == [] then false
    else (t[0] == s[0] && IsSubseq(t[1..], s[1..])) || IsSubseq(t, s[1..])
  }

  /** The elements of s that satisfy p, in their original order. */
  function Filter<T>(p: T -> bool, s: seq<T>): (r: seq<T>)
    ensures |r| <= |s|
    ensures forall i :: 0 <= i < |r| ==> p(r[i])
  {
    if s == [] then []
    else if p(s[0]) then [s[0]] + Filter(p, s[1..])
    else Filter(p, s[1..])
  }

  /** Selection keeps the relative order of what it keeps. */
  lemma {:induction false} FilterIsSubseq<T>(p: T -> bool, s: seq<T>)
    ensures IsSubseq(Filter(p, s), s)
  {
    if s != [] {
      FilterIsSubseq(p, s[1..]);
      var r := Filter(p, s);
      if p(s[0]) {
        assert r[0] == s[0] && r[1..] == Filter(p, s[1..]);
      } else if r != [] {
        assert r == Filter(p, s[1..]);
      }
    }
  }

  /** Every element satisfying p is kept as often as it occurs; no other
      element is kept at all. */
  lemma {:induction false} FilterMultiset<T>(p: T -> bool, s: seq<T>)
    ensures forall x :: multiset(Filter(p, s))[x] == if p(x) then multiset(s)[x] else 0
  {
    if s != [] {
      FilterMultiset(p, s[1..]);
      assert s == [s[0]] + s[1..];
      assert multiset(s) == multiset{s[0]} + multiset(s[1..]);
    }
  }

  /** A subsequence made only of elements satisfying p has at most as many
      elements as the selection. */
  lemma {:induction false} SubseqBound<T>(p: T -> bool, s: seq<T>, t: seq<T>)
    requires IsSubseq(t, s)
    requires forall i :: 0 <= i < |t| ==> p(t[i])
    ensures |t| <= |Filter(p, s)|
    decreases |s|
  {
    if t != [] {
      if t[0] == s[0] && IsSubseq(t[1..], s[1..]) {
        SubseqBound(p, s[1..], t[1..]);
      } else {
        SubseqBound(p, s[1..], t);
      }
    }
  }

  /** The selection is the only subsequence of s that keeps every element
      satisfying p and nothing else: a reference definition independent of
      how Filter walks the sequence. */
  lemma {:induction false} FilterUnique<T>(p: T -> bool, s: seq<T>, t: seq<T>)
    requires IsSubseq(t, s)
    requires forall i :: 0 <= i < |t| ==> p(t[i])
    requires |t| == |Filter(p, s)|
    ensures t == Filter(p, s)
    decreases |s|
  {
    if s != [] {
      if p(s[0]) {
        if t[0] == s[0] && IsSubseq(t[1..], s[1..]) {
          FilterUnique(p, s[1..], t[1..]);
          assert t == [t[0]] + t[1..];
        } else {
          SubseqBound(p, s[1..], t);
          assert false;
        }
      } else {
        assert !(t != [] && t[0] == s[0]);
        FilterUnique(p, s[1..], t);
      }
    }
  }

  /** A sequence all of whose elements satisfy p is left as it is. */
  lemma {:induction false} FilterKeepsAll<T>(p: T -> bool, s: seq<T>)
    requires forall i :: 0 <= i < |s| ==> p(s[i])
    ensures Filter(p, s) == s
  {
    if s != [] {
      FilterKeepsAll(p, s[1..]);
      assert s == [s[0]] + s[1..];
    }
  }
}
