/** The two string facilities the deal table relies on: Python's ordering of
    `str` values (used by `sorted`) and Python's decimal rendering of an `int`
    (used by `astype(str)`). */
module Strings {
  import opened Wrappers

  /** Python's `a < b` on str: compare code points from the left; at the
      first difference the smaller code point wins, and a proper prefix comes
      before the longer string. */
  predicate Less(a: string, b: string): (r: bool)
    ensures a < b ==> r
    ensures b <= a ==> !r
    ensures forall k :: 0 <= k < |a| && k < |b| && a[..k] == b[..k] && a[k] != b[k] ==>
              (r <==> a[k] < b[k])
  {
    if a == [] then b != []
    else if b == [] then false
    else
      assert forall k :: 0 < k < |a| && k < |b| && a[..k] == b[..k] ==>
               a[0] == b[0] && a[1..][..k - 1] == b[1..][..k - 1] && a[1..][k - 1] == a[k] && b[1..][k - 1] == b[k];
      a[0] < b[0] || (a[0] == b[0] && Less(a[1..], b[1..]))
  }

  lemma {:induction false} LessIrreflexive(a: string)
    ensures !Less(a, a)
  {
    if a != [] {
      LessIrreflexive(a[1..]);
    }
  }

  lemma {:induction false} LessTransitive(a: string, b: string, c: string)
    requires Less(a, b) && Less(b, c)
    ensures Less(a, c)
  {
    if a != [] && a[0] == b[0] && b[0] == c[0] {
      LessTransitive(a[1..], b[1..], c[1..]);
    }
  }

  lemma LessAsymmetric(a: string, b: string)
    ensures Less(a, b) ==> !Less(b, a)
  {
    if Less(a, b) && Less(b, a) {
      LessTransitive(a, b, a);
      LessIrreflexive(a);
    }
  }

  /** Any two different strings are ordered one way or the other, so `sorted`
      has a unique answer on distinct strings. */
  lemma {:induction false} LessTotal(a: string, b: string)
    ensures a == b || Less(a, b) || Less(b, a)
  {
    if a != [] && b != [] && a[0] == b[0] {
      LessTotal(a[1..], b[1..]);
      assert a == [a[0]] + a[1..] && b == [b[0]] + b[1..];
    }
  }

  predicate IsDigit(c: char)
  {
    '0' <= c <= '9'
  }

  predicate AllDigits(s: string)
  {
    forall i :: 0 <= i < |s| ==> IsDigit(s[i])
  }

  function DigitValue(c: char): (d: int)
    requires IsDigit(c)
    ensures 0 <= d <= 9
  {
    c as int - '0' as int
  }

  function DigitChar(d: int): (c: char)
    requires 0 <= d <= 9
    ensures IsDigit(c) && DigitValue(c) == d
  {
    ('0' as int + d) as char
  }

  /** Decimal digits of n, most significant first, with no leading zero. */
  function NatToDigits(n: nat): (s: string)
    ensures |s| >= 1 && AllDigits(s)
    ensures |s| > 1 ==> s[0] != '0'
    ensures s[0] == '0' <==> n == 0
  {
    if n < 10 then [DigitChar(n)]
    else NatToDigits(n / 10) + [DigitChar(n % 10)]
  }

  /** The number a string of decimal digits denotes. */
  function DigitsValue(s: string): (n: nat)
    requires AllDigits(s)
    ensures |s| >= 1 && s[0] != '0' ==> n >= 1
  {
    if s == [] then 0
    else
      assert |s| > 1 ==> s[..|s| - 1][0] == s[0];
      10 * DigitsValue(s[..|s| - 1]) + DigitValue(s[|s| - 1])
  }

  lemma {:induction false} DigitsRoundTrip(n: nat)
    ensures DigitsValue(NatToDigits(n)) == n
  {
    if n >= 10 {
      DigitsRoundTrip(n / 10);
      var s := NatToDigits(n);
      assert s[..|s| - 1] == NatToDigits(n / 10);
    }
  }

  /** Digits as Python writes a non-negative int: at least one, and no
      leading zero unless the number is zero. */
  predicate IsCanonical(s: string)
  {
    |s| >= 1 && AllDigits(s) && (|s| > 1 ==> s[0] != '0')
  }

  /** A canonical digit string is the rendering of the number it denotes. */
  lemma {:induction false} DigitsCanonical(s: string)
    requires IsCanonical(s)
    ensures NatToDigits(DigitsValue(s)) == s
    decreases |s|
  {
    var c := s[|s| - 1];
    if |s| == 1 {
      assert DigitChar(DigitValue(c)) == c;
    } else {
      var t := s[..|s| - 1];
      assert t[0] == s[0];
      DigitsCanonical(t);
      var n := DigitsValue(s);
      assert n / 10 == DigitsValue(t) && n % 10 == DigitValue(c);
      assert DigitChar(DigitValue(c)) == c;
      assert s == t + [c];
    }
  }

  /** Python's `str(n)`: a minus sign for negative numbers, then the decimal
      digits of the magnitude, with no leading zero. */
  function IntToString(n: int): (s: string)
    ensures |s| >= 1
    ensures (s[0] == '-') == (n < 0)
    ensures n < 0 ==> |s| >= 2 && AllDigits(s[1..]) && s[1] != '0'
    ensures n >= 0 ==> IsCanonical(s)
  {
    if n < 0 then "-" + NatToDigits(-n) else NatToDigits(n)
  }

  /** Reads back an int written as Python writes it: an optional minus sign,
      then digits with no leading zero; `"-0"` is refused. */
  function ParseInt(s: string): (r: Option<int>)
  {
    if |s| >= 2 && s[0] == '-' && IsCanonical(s[1..]) && s[1] != '0' then Some(-(DigitsValue(s[1..]) as int))
    else if IsCanonical(s) then Some(DigitsValue(s) as int)
    else None
  }

  lemma IntToStringRoundTrip(n: int)
    ensures ParseInt(IntToString(n)) == Some(n)
  {
    var s := IntToString(n);
    if n < 0 {
      assert s[1..] == NatToDigits(-n);
      DigitsRoundTrip(-n);
    } else {
      assert !IsDigit('-');
      DigitsRoundTrip(n);
    }
  }

  /** Every string the parser accepts is the rendering of the number it
      reads, so `IntToString(n)` is the only text that reads as n. */
  lemma ParseIntCanonical(s: string)
    ensures ParseInt(s).Some? ==> IntToString(ParseInt(s).value) == s
  {
    if |s| >= 2 && s[0] == '-' && IsCanonical(s[1..]) && s[1] != '0' {
      DigitsCanonical(s[1..]);
      assert s == "-" + s[1..];
    } else if IsCanonical(s) {
      DigitsCanonical(s);
    }
  }

  /** Different numbers are rendered differently. */
  lemma IntToStringInjective(a: int, b: int)
    ensures IntToString(a) == IntToString(b) <==> a == b
  {
    IntToStringRoundTrip(a);
    IntToStringRoundTrip(b);
  }
}
