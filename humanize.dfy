/**
 * `humanize_number` (scripts/fetch_downloads.py): a download count written
 * compactly, rounded to whole thousands, millions or billions with Python's
 * `round`, which rounds halves to even.
 */
module Humanize {
  import opened Wrappers
  import opened Text

  const Thousand := 1000
  const Million := 1000000
  const Billion := 1000000000

  /** The suffix of a humanized number; `Ones` is none at all. */
  datatype Unit = Ones | Thousands | Millions | Billions

  function Scale(u: Unit): nat {
    match u
    case Ones => 1
    case Thousands => Thousand
    case Millions => Million
    case Billions => Billion
  }

  function Abs(x: int): nat {
    if x < 0 then -x else x
  }

  /** `q` is `n / d` rounded to the nearest integer, a tie going to the even one. */
  predicate RoundsHalfEven(n: int, d: nat, q: int) {
    2 * Abs(n - q * d) <= d && (2 * Abs(n - q * d) == d ==> q % 2 == 0)
  }

  /**
   * `round(n / d)` for non-negative `n`. The source divides in floating point;
   * for every `n` below 2^53 the quotient's rounding is this integer one.
   */
  function HalfEven(n: nat, d: nat): (q: nat)
    requires d > 0
    ensures RoundsHalfEven(n, d, q)
  {
    var q, r := n / d, n % d;
    assert n - q * d == r;
    assert n - (q + 1) * d == r - d;
    if 2 * r < d then q
    else if 2 * r > d then q + 1
    else if q % 2 == 0 then q
    else q + 1
  }

  lemma HalfEvenExamples()
    ensures HalfEven(1500, Thousand) == 2
    ensures HalfEven(2500, Thousand) == 2
    ensures HalfEven(999999, Thousand) == 1000
    ensures HalfEven(2500000000, Billion) == 2
  {
  }

  /** `humanize_number(value)`. */
  function HumanizeNumber(v: int): (s: string)
    ensures |s| > 0
    ensures (s[|s| - 1] == 'K' || s[|s| - 1] == 'M' || s[|s| - 1] == 'B') <==> v >= Thousand
  {
    if v < Thousand then DecimalString(v)
    else if v < Million then
      var rounded := HalfEven(v, Thousand);
      if rounded == 0 then "1K"
      else if rounded >= 1000 then "1M"
      else NatToString(rounded) + "K"
    else if v < Billion then
      var rounded := HalfEven(v, Million);
      if rounded == 0 then "1M"
      else if rounded >= 1000 then "1B"
      else NatToString(rounded) + "M"
    else
      var rounded := HalfEven(v, Billion);
      if rounded == 0 then "1B"
      else NatToString(rounded) + "B"
  }

  /** The letter written after a count of thousands, millions or billions. */
  function Suffix(u: Unit): (c: char)
    requires u != Ones
    ensures c == 'K' || c == 'M' || c == 'B'
  {
    match u
    case Thousands => 'K'
    case Millions => 'M'
    case Billions => 'B'
  }

  /**
   * Reads a humanized number back: an optional minus sign and a numeral, or a numeral
   * and one of the suffixes K, M, B. The number shown and its unit. Leading zeros and
   * "-0", which `str` never writes, are refused.
   */
  function ReadHuman(s: string): Option<(int, Unit)> {
    if |s| == 0 then None
    else
      var last := s[|s| - 1];
      var u := if last == 'K' then Thousands else if last == 'M' then Millions
               else if last == 'B' then Billions else Ones;
      var body := if u == Ones then s else s[..|s| - 1];
      if Numeral(body) then Some((DigitsValue(body) as int, u))
      else if u == Ones && |body| > 1 && body[0] == '-' && Numeral(body[1..]) && body[1..] != "0" then
        Some((-(DigitsValue(body[1..]) as int), Ones))
      else None
  }

  /**
   * Whatever `ReadHuman` accepts is the one spelling of what it reads: `str` of the
   * number without a suffix, or `str` of the count followed by the unit's letter.
   */
  lemma ReadHumanSpelling(s: string)
    requires ReadHuman(s).Some?
    ensures var (n, u) := ReadHuman(s).value;
      s == (if u == Ones then DecimalString(n) else NatToString(n) + [Suffix(u)])
  {
    var last := s[|s| - 1];
    var u := if last == 'K' then Thousands else if last == 'M' then Millions
             else if last == 'B' then Billions else Ones;
    var body := if u == Ones then s else s[..|s| - 1];
    if Numeral(body) {
      NumeralIsNatToString(body);
      if u != Ones {
        assert s == body + [last];
      }
    } else {
      var t := body[1..];
      assert t[0] != '0' by {
        if |t| == 1 {
          assert t == [t[0]];
        }
      }
      LeadingDigitPositive(t);
      NumeralIsNatToString(t);
      assert s == "-" + t;
    }
  }

  lemma ReadSuffixed(n: nat, u: Unit)
    requires u != Ones
    ensures ReadHuman(NatToString(n) + [Suffix(u)]) == Some((n, u))
  {
    var s := NatToString(n) + [Suffix(u)];
    assert s[..|s| - 1] == NatToString(n);
    NatToStringRoundTrip(n);
  }

  /** A non-negative number written out in full reads back as itself. */
  lemma ReadNatural(n: nat)
    ensures ReadHuman(NatToString(n)) == Some((n, Ones))
  {
    NatToStringRoundTrip(n);
  }

  /** A negative number written out in full, after its minus sign, reads back as itself. */
  lemma ReadNegative(n: nat)
    requires n > 0
    ensures ReadHuman("-" + NatToString(n)) == Some((-(n as int), Ones))
  {
    var s := "-" + NatToString(n);
    assert IsDigit(s[|s| - 1]);
    assert s[1..] == NatToString(n);
    NatToStringRoundTrip(n);
    assert DigitsValue("0") == 0 by { assert "0"[..0] == ""; }
  }

  /** Below one thousand, negative values included, the number is written out in full with no suffix. */
  lemma HumanizeBelowThousand(v: int)
    requires v < Thousand
    ensures ReadHuman(HumanizeNumber(v)) == Some((v, Ones))
  {
    if v < 0 {
      ReadNegative(-v);
    } else {
      ReadNatural(v);
    }
  }

  /** What `HumanizeScaled` promises of the number `n` and unit `u` read back from a value `v`. */
  predicate ScaledReading(v: int, n: int, u: Unit) {
    u != Ones && RoundsHalfEven(v, Scale(u), n) && n >= 1
    && (u != Billions ==> n <= 999)
    && (u == Thousands <==> v < 999500)
    && (u == Millions <==> 999500 <= v < 999500000)
    && (u == Billions <==> 999500000 <= v)
  }

  lemma HumanizeThousandsRange(v: int)
    requires Thousand <= v < Million
    ensures ReadHuman(HumanizeNumber(v)).Some?
    ensures ScaledReading(v, ReadHuman(HumanizeNumber(v)).value.0, ReadHuman(HumanizeNumber(v)).value.1)
  {
    var r := HalfEven(v, Thousand);
    if r >= 1000 {
      assert HumanizeNumber(v) == NatToString(1) + [Suffix(Millions)];
      ReadSuffixed(1, Millions);
    } else {
      assert HumanizeNumber(v) == NatToString(r) + [Suffix(Thousands)];
      ReadSuffixed(r, Thousands);
    }
  }

  lemma HumanizeMillionsRange(v: int)
    requires Million <= v < Billion
    ensures ReadHuman(HumanizeNumber(v)).Some?
    ensures ScaledReading(v, ReadHuman(HumanizeNumber(v)).value.0, ReadHuman(HumanizeNumber(v)).value.1)
  {
    var r := HalfEven(v, Million);
    if r >= 1000 {
      assert HumanizeNumber(v) == NatToString(1) + [Suffix(Billions)];
      ReadSuffixed(1, Billions);
    } else {
      assert HumanizeNumber(v) == NatToString(r) + [Suffix(Millions)];
      ReadSuffixed(r, Millions);
    }
  }

  lemma HumanizeBillionsRange(v: int)
    requires Billion <= v
    ensures ReadHuman(HumanizeNumber(v)).Some?
    ensures ScaledReading(v, ReadHuman(HumanizeNumber(v)).value.0, ReadHuman(HumanizeNumber(v)).value.1)
  {
    var r := HalfEven(v, Billion);
    assert HumanizeNumber(v) == NatToString(r) + [Suffix(Billions)];
    ReadSuffixed(r, Billions);
  }

  /**
   * From one thousand up, the result is the value counted in thousands, millions
   * or billions and rounded half to even. The unit is the largest whose rounded
   * count reaches 1 and stays below 1000 (billions have no cap): so 999,500
   * becomes "1M" and 999,500,000 "1B". A K or M count is 1 to 999, never 0.
   */
  lemma HumanizeScaled(v: int)
    requires v >= Thousand
    ensures ReadHuman(HumanizeNumber(v)).Some?
    ensures ScaledReading(v, ReadHuman(HumanizeNumber(v)).value.0, ReadHuman(HumanizeNumber(v)).value.1)
  {
    if v < Million {
      HumanizeThousandsRange(v);
    } else if v < Billion {
      HumanizeMillionsRange(v);
    } else {
      HumanizeBillionsRange(v);
    }
  }

  /** The `rounded == 0` branches cannot be taken: from one unit up, the rounded count is at least 1. */
  lemma RoundedNeverZero(v: nat, unit: nat)
    requires unit > 0 && v >= unit
    ensures HalfEven(v, unit) >= 1
  {
  }

  /** The small numbers tests/test_fetch_downloads.py:26-29 checks for `humanize_number`. */
  lemma HumanizeSmallExamples()
    ensures HumanizeNumber(500) == "500" && HumanizeNumber(999) == "999"
  {
  }

  /** The thousands tests/test_fetch_downloads.py:31-35 checks. */
  lemma HumanizeThousandsExamples()
    ensures HumanizeNumber(1000) == "1K" && HumanizeNumber(1500) == "2K" && HumanizeNumber(999999) == "1M"
  {
  }

  /** The millions tests/test_fetch_downloads.py:37-41 checks. */
  lemma HumanizeMillionsExamples()
    ensures HumanizeNumber(1000000) == "1M" && HumanizeNumber(1500000) == "2M" && HumanizeNumber(999999999) == "1B"
  {
  }

  /** The billions tests/test_fetch_downloads.py:43-47 checks. */
  lemma HumanizeBillionsExamples()
    ensures HumanizeNumber(1000000000) == "1B" && HumanizeNumber(1500000000) == "2B" && HumanizeNumber(2500000000) == "2B"
  {
  }
}
