/**
 * Strings as Python sees them in scripts/fetch_downloads.py: decimal rendering of
 * integers (`str(int)`, f-strings), fixed-width zero padding (`strftime`), digit
 * runs read back as numbers (`int(...)` inside `strptime`), and Python's ordering
 * of `str` values (code point by code point, a proper prefix first).
 */
module Text {

  predicate IsDigit(c: char) {
    '0' <= c <= '9'
  }

  predicate AllDigits(s: string) {
    forall i :: 0 <= i < |s| ==> IsDigit(s[i])
  }

  function DigitValue(c: char): (d: nat)
    requires IsDigit(c)
    ensures d < 10
  {
    c as int - '0' as int
  }

  function DigitChar(d: nat): (c: char)
    requires d < 10
    ensures IsDigit(c) && DigitValue(c) == d
  {
    ('0' as int + d) as char
  }

  function Pow10(n: nat): (p: nat)
    ensures p >= 1
  {
    if n == 0 then 1 else 10 * Pow10(n - 1)
  }

  /** The number a run of decimal digits denotes, most significant digit first. */
  function DigitsValue(s: string): (v: nat)
    requires AllDigits(s)
    ensures v < Pow10(|s|)
  {
    if |s| == 0 then 0 else DigitsValue(s[..|s| - 1]) * 10 + DigitValue(s[|s| - 1])
  }

  /** `str(n)` for a non-negative integer: its shortest decimal spelling. */
  function NatToString(n: nat): (s: string)
    ensures |s| > 0 && AllDigits(s)
    ensures |s| > 1 ==> s[0] != '0'
  {
    if n < 10 then [DigitChar(n)] else NatToString(n / 10) + [DigitChar(n % 10)]
  }

  /** `str(v)` for any integer: a minus sign before the magnitude when negative. */
  function DecimalString(v: int): (s: string)
    ensures |s| > 0 && IsDigit(s[|s| - 1])
    ensures s[0] == '-' <==> v < 0
    ensures if v < 0 then Numeral(s[1..]) else Numeral(s)
  {
    if v < 0 then "-" + NatToString(-v) else NatToString(v)
  }

  /** A decimal numeral as `str` writes one: digits, and no leading zero unless it is "0". */
  predicate Numeral(t: string) {
    |t| > 0 && AllDigits(t) && (|t| > 1 ==> t[0] != '0')
  }

  lemma {:induction false} LeadingDigitPositive(t: string)
    requires |t| > 0 && AllDigits(t) && t[0] != '0'
    ensures DigitsValue(t) >= 1
  {
    if |t| > 1 {
      var f := t[..|t| - 1];
      assert f[0] == t[0];
      assert forall i :: 0 <= i < |f| ==> f[i] == t[i];
      LeadingDigitPositive(f);
    }
  }

  /** A numeral is the `str` of the number it denotes: `str` has one spelling per number. */
  lemma {:induction false} NumeralIsNatToString(t: string)
    requires Numeral(t)
    ensures NatToString(DigitsValue(t)) == t
  {
    var c := t[|t| - 1];
    assert DigitChar(DigitValue(c)) == c;
    if |t| > 1 {
      var f := t[..|t| - 1];
      assert f[0] == t[0];
      assert forall i :: 0 <= i < |f| ==> f[i] == t[i];
      LeadingDigitPositive(f);
      NumeralIsNatToString(f);
      var v := DigitsValue(t);
      assert v / 10 == DigitsValue(f) && v % 10 == DigitValue(c);
      assert t == f + [c];
    }
  }

  lemma {:induction false} NatToStringRoundTrip(n: nat)
    ensures DigitsValue(NatToString(n)) == n
  {
    if n >= 10 {
      var s := NatToString(n);
      assert s[..|s| - 1] == NatToString(n / 10);
      NatToStringRoundTrip(n / 10);
    }
  }

  /** Two zero-padded digits, as `%m` and `%d` are written by `strftime`. */
  function Pad2(n: nat): (s: string)
    requires n < 100
    ensures |s| == 2 && AllDigits(s)
  {
    [DigitChar(n / 10), DigitChar(n % 10)]
  }

  /** Four zero-padded digits, as `%Y` is written by `strftime`. */
  function Pad4(n: nat): (s: string)
    requires n < 10000
    ensures |s| == 4 && AllDigits(s)
  {
    Pad2(n / 100) + Pad2(n % 100)
  }

  lemma Pad2RoundTrip(n: nat)
    requires n < 100
    ensures DigitsValue(Pad2(n)) == n
  {
    var s := Pad2(n);
    assert s[..1][..0] == [];
    assert s[..1] == [DigitChar(n / 10)];
    assert DigitsValue(s[..1]) == n / 10;
    assert DigitsValue(s) == (n / 10) * 10 + n % 10;
  }

  lemma Pad4RoundTrip(n: nat)
    requires n < 10000
    ensures DigitsValue(Pad4(n)) == n
  {
    var s := Pad4(n);
    var hi, lo := n / 100, n % 100;
    assert s[..3] == Pad2(hi) + [DigitChar(lo / 10)];
    assert s[..3][..2] == Pad2(hi);
    Pad2RoundTrip(hi);
    assert DigitsValue(s[..3]) == hi * 10 + lo / 10;
  }

  /** Python's `a < b` on `str`: lexicographic by code point, a proper prefix sorting first. */
  predicate StrLess(a: string, b: string)
    decreases |a|
  {
    |b| > 0 && (|a| == 0 || a[0] < b[0] || (a[0] == b[0] && StrLess(a[1..], b[1..])))
  }

  predicate StrLeq(a: string, b: string) {
    a == b || StrLess(a, b)
  }

  lemma {:induction false} StrLessIrreflexive(a: string)
    ensures !StrLess(a, a)
  {
    if |a| > 0 {
      StrLessIrreflexive(a[1..]);
    }
  }

  lemma {:induction false} StrLessTransitive(a: string, b: string, c: string)
    requires StrLess(a, b) && StrLess(b, c)
    ensures StrLess(a, c)
  {
    if |a| > 0 && a[0] == b[0] && b[0] == c[0] {
      StrLessTransitive(a[1..], b[1..], c[1..]);
    }
  }

  lemma {:induction false} StrLessTotal(a: string, b: string)
    ensures a == b || StrLess(a, b) || StrLess(b, a)
  {
    if |a| > 0 && |b| > 0 && a[0] == b[0] {
      StrLessTotal(a[1..], b[1..]);
      if a[1..] == b[1..] {
        assert a == [a[0]] + a[1..] && b == [b[0]] + b[1..];
      }
    }
  }

  /** Comparing two strings that start with equally long parts decides on those parts first. */
  lemma {:induction false} StrLessSameLengthPrefix(x: string, y: string, s: string, t: string)
    requires |x| == |y|
    ensures StrLess(x + s, y + t) <==> StrLess(x, y) || (x == y && StrLess(s, t))
  {
    if |x| > 0 {
      assert (x + s)[1..] == x[1..] + s && (y + t)[1..] == y[1..] + t;
      StrLessSameLengthPrefix(x[1..], y[1..], s, t);
      if x[0] == y[0] && x[1..] == y[1..] {
        assert x == [x[0]] + x[1..] && y == [y[0]] + y[1..];
      }
      if x == y {
        assert x[1..] == y[1..];
      }
    } else {
      assert x + s == s && y + t == t;
    }
  }

  lemma DigitCharOrder(i: nat, j: nat)
    requires i < 10 && j < 10
    ensures DigitChar(i) < DigitChar(j) <==> i < j
  {
  }

  lemma Pad2Order(m: nat, n: nat)
    requires m < 100 && n < 100
    ensures StrLess(Pad2(m), Pad2(n)) <==> m < n
  {
    StrLessSameLengthPrefix([DigitChar(m / 10)], [DigitChar(n / 10)], [DigitChar(m % 10)], [DigitChar(n % 10)]);
    assert Pad2(m) == [DigitChar(m / 10)] + [DigitChar(m % 10)];
    assert Pad2(n) == [DigitChar(n / 10)] + [DigitChar(n % 10)];
    DigitCharOrder(m / 10, n / 10);
    DigitCharOrder(m % 10, n % 10);
  }

  lemma Pad4Order(m: nat, n: nat)
    requires m < 10000 && n < 10000
    ensures StrLess(Pad4(m), Pad4(n)) <==> m < n
  {
    StrLessSameLengthPrefix(Pad2(m / 100), Pad2(n / 100), Pad2(m % 100), Pad2(n % 100));
    Pad2Order(m / 100, n / 100);
    Pad2Order(m % 100, n % 100);
    if Pad2(m / 100) == Pad2(n / 100) {
      Pad2RoundTrip(m / 100);
      Pad2RoundTrip(n / 100);
    }
  }
}
