/**
 * Gregorian calendar arithmetic behind `get_previous_month_dates`, the date
 * comparison of `extract_monthly_downloads`, and the `"%Y-%m-%d"` parse and
 * format of `datetime.strptime` / `strftime` (scripts/fetch_downloads.py).
 *
 * Every `datetime` in the source is at midnight UTC, so a date is a triple.
 * Python's `datetime` supports years 1 to 9999 only.
 */
module Calendar {
  import opened Wrappers
  import opened Text

  datatype Date = Date(year: int, month: int, day: int)

  /** The first and last day of a reporting month, both inclusive. */
  datatype Window = Window(first: Date, last: Date)

  const MinYear := 1
  const MaxYear := 9999

  predicate IsLeapYear(y: int) {
    y % 4 == 0 && (y % 100 != 0 || y % 400 == 0)
  }

  function DaysInMonth(y: int, m: int): (n: int)
    requires 1 <= m <= 12
    ensures 28 <= n <= 31
  {
    if m == 2 then (if IsLeapYear(y) then 29 else 28)
    else if m == 4 || m == 6 || m == 9 || m == 11 then 30
    else 31
  }

  function DaysInYear(y: int): int {
    if IsLeapYear(y) then 366 else 365
  }

  predicate ValidDate(d: Date) {
    MinYear <= d.year <= MaxYear && 1 <= d.month <= 12 && 1 <= d.day <= DaysInMonth(d.year, d.month)
  }

  /** `a <= b` on `datetime`: (year, month, day) compared as a tuple. */
  predicate DateLeq(a: Date, b: Date) {
    a.year < b.year || (a.year == b.year && (a.month < b.month || (a.month == b.month && a.day <= b.day)))
  }

  predicate InWindow(d: Date, w: Window) {
    DateLeq(w.first, d) && DateLeq(d, w.last)
  }

  // ---------------------------------------------------------------------------
  // Day numbers: the independent account of what "one day earlier" and "later" mean.

  function DaysBeforeYear(y: int): nat
    decreases y
  {
    if y <= MinYear then 0 else DaysBeforeYear(y - 1) + DaysInYear(y - 1)
  }

  function DaysBeforeMonth(y: int, m: int): nat
    requires 1 <= m <= 13
    decreases m
  {
    if m == 1 then 0 else DaysBeforeMonth(y, m - 1) + DaysInMonth(y, m - 1)
  }

  /** `date.toordinal()`: 0001-01-01 is day 1 and each later day counts one more. */
  function Ordinal(d: Date): int
    requires ValidDate(d)
  {
    DaysBeforeYear(d.year) + DaysBeforeMonth(d.year, d.month) + d.day
  }

  lemma DaysBeforeMonthOfYear(y: int)
    ensures DaysBeforeMonth(y, 12) + 31 == DaysInYear(y)
  {
    assert DaysBeforeMonth(y, 3) == 59 + (if IsLeapYear(y) then 1 else 0);
    assert DaysBeforeMonth(y, 7) == DaysBeforeMonth(y, 3) + 122;
    assert DaysBeforeMonth(y, 12) == DaysBeforeMonth(y, 7) + 153;
  }

  lemma {:induction false} DaysBeforeMonthMonotone(y: int, m1: int, m2: int)
    requires 1 <= m1 < m2 <= 13
    ensures DaysBeforeMonth(y, m1) + DaysInMonth(y, m1) <= DaysBeforeMonth(y, m2)
    decreases m2
  {
    if m1 < m2 - 1 {
      DaysBeforeMonthMonotone(y, m1, m2 - 1);
    }
  }

  lemma {:induction false} DaysBeforeYearMonotone(y1: int, y2: int)
    requires MinYear <= y1 < y2
    ensures DaysBeforeYear(y1) + DaysInYear(y1) <= DaysBeforeYear(y2)
    decreases y2
  {
    if y1 < y2 - 1 {
      DaysBeforeYearMonotone(y1, y2 - 1);
    }
  }

  lemma LastDayOfYear(d: Date)
    requires ValidDate(d)
    ensures Ordinal(d) <= DaysBeforeYear(d.year) + DaysInYear(d.year)
  {
    DaysBeforeMonthOfYear(d.year);
    if d.month < 12 {
      DaysBeforeMonthMonotone(d.year, d.month, 12);
    }
  }

  /** Tuple order on valid dates is chronological order: it agrees with day numbers. */
  lemma DateOrderIsChronological(a: Date, b: Date)
    requires ValidDate(a) && ValidDate(b)
    ensures DateLeq(a, b) <==> Ordinal(a) <= Ordinal(b)
  {
    if a.year < b.year {
      LastDayOfYear(a);
      DaysBeforeYearMonotone(a.year, b.year);
    } else if b.year < a.year {
      LastDayOfYear(b);
      DaysBeforeYearMonotone(b.year, a.year);
    } else if a.month < b.month {
      DaysBeforeMonthMonotone(a.year, a.month, b.month);
    } else if b.month < a.month {
      DaysBeforeMonthMonotone(b.year, b.month, a.month);
    }
  }

  // ---------------------------------------------------------------------------
  // get_previous_month_dates

  /** `d - timedelta(days=1)`; Python raises OverflowError before 0001-01-01 (None here). */
  function PrevDay(d: Date): (r: Option<Date>)
    requires ValidDate(d)
    ensures r.None? <==> d == Date(MinYear, 1, 1)
    ensures r.Some? ==> ValidDate(r.value) && Ordinal(r.value) + 1 == Ordinal(d)
  {
    if d.day > 1 then Some(Date(d.year, d.month, d.day - 1))
    else if d.month > 1 then Some(Date(d.year, d.month - 1, DaysInMonth(d.year, d.month - 1)))
    else if d.year > MinYear then
      DaysBeforeMonthOfYear(d.year - 1);
      Some(Date(d.year - 1, 12, 31))
    else None
  }

  /**
   * `get_previous_month_dates` with the clock reading `now` passed in: the first
   * day of the current month, one day back, and the first day of that month.
   * None is the OverflowError Python raises when `now` is in January of year 1.
   */
  function PreviousMonthDates(now: Date): (r: Option<Window>)
    requires ValidDate(now)
    ensures r.None? <==> now.year == MinYear && now.month == 1
    ensures r.Some? ==>
      var y := if now.month == 1 then now.year - 1 else now.year;
      var m := if now.month == 1 then 12 else now.month - 1;
      r.value.first == Date(y, m, 1) && r.value.last == Date(y, m, DaysInMonth(y, m))
    ensures r.Some? ==>
      ValidDate(r.value.first) && ValidDate(r.value.last) && DateLeq(r.value.first, r.value.last)
      && Ordinal(r.value.last) + 1 == Ordinal(Date(now.year, now.month, 1))
  {
    var firstCurrentMonth := Date(now.year, now.month, 1);
    match PrevDay(firstCurrentMonth)
    case None => None
    case Some(last) => Some(Window(Date(last.year, last.month, 1), last))
  }

  /** A valid date lies in the window exactly when it is in the previous calendar month. */
  lemma WindowIsPreviousMonth(now: Date, d: Date)
    requires ValidDate(now) && ValidDate(d) && PreviousMonthDates(now).Some?
    ensures InWindow(d, PreviousMonthDates(now).value) <==>
      d.year == (if now.month == 1 then now.year - 1 else now.year) &&
      d.month == (if now.month == 1 then 12 else now.month - 1)
  {
  }

  /**
   * The clock readings 2024-02-15 and 2024-01-15 that tests/test_fetch_downloads.py:53-77
   * checks, a leap February, and the January of year 1 that fails.
   */
  lemma PreviousMonthExamples()
    ensures PreviousMonthDates(Date(2024, 2, 15)) == Some(Window(Date(2024, 1, 1), Date(2024, 1, 31)))
    ensures PreviousMonthDates(Date(2024, 1, 15)) == Some(Window(Date(2023, 12, 1), Date(2023, 12, 31)))
    ensures PreviousMonthDates(Date(2024, 3, 1)) == Some(Window(Date(2024, 2, 1), Date(2024, 2, 29)))
    ensures PreviousMonthDates(Date(1, 1, 31)) == None
  {
  }

  // ---------------------------------------------------------------------------
  // strftime("%Y-%m-%d") and strptime(s, "%Y-%m-%d")

  function FormatDate(d: Date): (s: string)
    requires ValidDate(d)
    ensures |s| == 10 && s[4] == '-' && s[7] == '-'
    ensures AllDigits(s[..4]) && AllDigits(s[5..7]) && AllDigits(s[8..])
  {
    Pad4(d.year) + "-" + Pad2(d.month) + "-" + Pad2(d.day)
  }

  /**
   * The `%m` directive `1[0-2]|0[1-9]|[1-9]` and the `-` after it: the month and
   * what follows the separator. At most one alternative can be followed by `-`.
   */
  function ParseMonth(t: string): (r: Option<(int, string)>)
    ensures r.Some? ==> 1 <= r.value.0 <= 12 && |r.value.1| < |t|
  {
    if |t| >= 3 && t[0] == '1' && '0' <= t[1] <= '2' && t[2] == '-' then Some((10 + DigitValue(t[1]), t[3..]))
    else if |t| >= 3 && t[0] == '0' && '1' <= t[1] <= '9' && t[2] == '-' then Some((DigitValue(t[1]), t[3..]))
    else if |t| >= 2 && '1' <= t[0] <= '9' && t[1] == '-' then Some((DigitValue(t[0]), t[2..]))
    else None
  }

  /**
   * The `%d` directive `3[01]|[12]\d|0[1-9]|[1-9]| [1-9]`: the first alternative
   * that matches wins, and any character left over is "unconverted data".
   */
  function ParseDay(t: string): (r: Option<int>)
    ensures r.Some? ==> 1 <= r.value <= 31
  {
    if |t| >= 2 && t[0] == '3' && '0' <= t[1] <= '1' then
      (if |t| == 2 then Some(30 + DigitValue(t[1])) else None)
    else if |t| >= 2 && '1' <= t[0] <= '2' && IsDigit(t[1]) then
      (if |t| == 2 then Some(10 * DigitValue(t[0]) + DigitValue(t[1])) else None)
    else if |t| >= 2 && t[0] == '0' && '1' <= t[1] <= '9' then
      (if |t| == 2 then Some(DigitValue(t[1])) else None)
    else if |t| >= 1 && '1' <= t[0] <= '9' then
      (if |t| == 1 then Some(DigitValue(t[0])) else None)
    else if |t| >= 2 && t[0] == ' ' && '1' <= t[1] <= '9' then
      (if |t| == 2 then Some(DigitValue(t[1])) else None)
    else None
  }

  /**
   * `datetime.strptime(s, "%Y-%m-%d")`: four digits, `-`, a month, `-`, a day, and
   * nothing after; then `date(year, month, day)` rejects year 0 and days past the
   * month's end. None is the ValueError.
   */
  function ParseDate(s: string): (r: Option<Date>)
    ensures r.Some? ==> ValidDate(r.value)
  {
    if |s| < 5 || !AllDigits(s[..4]) || s[4] != '-' then None
    else
      var year := DigitsValue(s[..4]);
      match ParseMonth(s[5..])
      case None => None
      case Some((month, rest)) =>
        match ParseDay(rest)
        case None => None
        case Some(day) =>
          if MinYear <= year && day <= DaysInMonth(year, month) then Some(Date(year, month, day)) else None
  }

  /** Reading back what `strftime("%Y-%m-%d")` writes gives the same date. */
  lemma ParseFormattedDate(d: Date)
    requires ValidDate(d)
    ensures ParseDate(FormatDate(d)) == Some(d)
  {
    var s := FormatDate(d);
    assert s[..4] == Pad4(d.year);
    Pad4RoundTrip(d.year);
    assert s[5..] == Pad2(d.month) + "-" + Pad2(d.day);
    assert s[5..][3..] == Pad2(d.day);
  }

  /**
   * For dates written by `strftime`, string order is date order, so the greatest
   * key in string order is the latest date.
   */
  lemma FormattedDateOrder(a: Date, b: Date)
    requires ValidDate(a) && ValidDate(b)
    ensures StrLess(FormatDate(a), FormatDate(b)) <==> DateLeq(a, b) && a != b
  {
    var ra := "-" + Pad2(a.month) + "-" + Pad2(a.day);
    var rb := "-" + Pad2(b.month) + "-" + Pad2(b.day);
    assert FormatDate(a) == Pad4(a.year) + ra;
    assert FormatDate(b) == Pad4(b.year) + rb;
    StrLessSameLengthPrefix(Pad4(a.year), Pad4(b.year), ra, rb);
    Pad4Order(a.year, b.year);
    if Pad4(a.year) == Pad4(b.year) {
      Pad4RoundTrip(a.year);
      Pad4RoundTrip(b.year);
    }
    var ma := Pad2(a.month) + ("-" + Pad2(a.day));
    var mb := Pad2(b.month) + ("-" + Pad2(b.day));
    assert ra == "-" + ma && rb == "-" + mb;
    StrLessSameLengthPrefix("-", "-", ma, mb);
    StrLessSameLengthPrefix(Pad2(a.month), Pad2(b.month), "-" + Pad2(a.day), "-" + Pad2(b.day));
    Pad2Order(a.month, b.month);
    if Pad2(a.month) == Pad2(b.month) {
      Pad2RoundTrip(a.month);
      Pad2RoundTrip(b.month);
    }
    StrLessSameLengthPrefix("-", "-", Pad2(a.day), Pad2(b.day));
    Pad2Order(a.day, b.day);
    StrLessIrreflexive("-");
  }

  lemma DigitsValue2024()
    ensures DigitsValue("2024") == 2024
  {
    assert "2024"[..3] == "202" && "202"[..2] == "20" && "20"[..1] == "2" && "2"[..0] == "";
  }

  /** The zero-padded form and the lenient one-digit and space-padded forms `strptime` accepts. */
  lemma ParseDateAccepts()
    ensures ParseDate("2024-01-15") == Some(Date(2024, 1, 15))
    ensures ParseDate("2024-1-5") == Some(Date(2024, 1, 5))
    ensures ParseDate("2024-12- 5") == Some(Date(2024, 12, 5))
  {
    DigitsValue2024();
    assert "2024-01-15"[..4] == "2024" && "2024-01-15"[5..] == "01-15" && "01-15"[3..] == "15";
    assert "2024-1-5"[..4] == "2024" && "2024-1-5"[5..] == "1-5" && "1-5"[2..] == "5";
    assert "2024-12- 5"[..4] == "2024" && "2024-12- 5"[5..] == "12- 5" && "12- 5"[3..] == " 5";
  }

  /** Leap days exist only in leap years. */
  lemma ParseDateLeapDay()
    ensures ParseDate("2024-02-29") == Some(Date(2024, 2, 29))
    ensures ParseDate("2023-02-29") == None
  {
    DigitsValue2024();
    assert "2024-02-29"[..4] == "2024" && "2024-02-29"[5..] == "02-29" && "02-29"[3..] == "29";
    assert DigitsValue("2023") == 2023 by {
      assert "2023"[..3] == "202" && "202"[..2] == "20" && "20"[..1] == "2" && "2"[..0] == "";
    }
    assert "2023-02-29"[..4] == "2023" && "2023-02-29"[5..] == "02-29";
  }

  /** There is no year 0, so its dates raise `ValueError`. */
  lemma ParseDateRejectsYearZero()
    ensures ParseDate("0000-01-01") == None
  {
    assert DigitsValue("0000") == 0 by {
      assert "0000"[..3] == "000" && "000"[..2] == "00" && "00"[..1] == "0" && "0"[..0] == "";
    }
    assert "0000-01-01"[..4] == "0000" && "0000-01-01"[5..] == "01-01" && "01-01"[3..] == "01";
  }

  /** A thirteenth month matches no alternative of `%m` that leaves the separator in place. */
  lemma ParseDateRejectsMonthThirteen()
    ensures ParseDate("2024-13-01") == None
  {
    assert "2024-13-01"[5..] == "13-01";
  }

  /** Characters left over after the day are unconverted data. */
  lemma ParseDateRejectsTrailing()
    ensures ParseDate("2024-01-15x") == None
  {
    DigitsValue2024();
    assert "2024-01-15x"[5..] == "01-15x" && "01-15x"[3..] == "15x";
  }

  /** A key that does not start with four digits is no date. */
  lemma ParseDateRejectsText()
    ensures ParseDate("invalid-date") == None
  {
    assert !IsDigit("invalid-date"[..4][0]);
  }
}
