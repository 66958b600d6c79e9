/**
 * `extract_monthly_downloads` (scripts/fetch_downloads.py): the previous month's
 * total, summed over the per-day, per-version counts of the pepy.tech response.
 *
 * A Python dict is a sequence of (key, value) pairs in insertion order. Only the
 * two entries of the response the script reads are kept.
 */
module Downloads {
  import opened Wrappers
  import opened Calendar

  /** One version's count: a number, or any other JSON value, which `sum` skips. */
  datatype Count = Num(n: int) | NonNumeric

  /** One day's value: a dict of version counts, or anything that is not a dict. */
  datatype DayEntry = Versions(counts: seq<(string, Count)>) | NotMap

  /** The value under `"downloads"`: a dict from date strings to days, or a non-dict. */
  datatype DownloadsValue = Table(days: seq<(string, DayEntry)>) | NotDict

  /** The response: its `"downloads"` and `"total_downloads"` entries, each possibly absent. */
  datatype ApiData = ApiData(downloads: Option<DownloadsValue>, totalDownloads: Option<int>)

  function CountValue(c: Count): int {
    match c
    case Num(n) => n
    case NonNumeric => 0
  }

  /** `sum(int(value) for value in version_data.values() if isinstance(value, (int, float)))`. */
  function DaySum(counts: seq<(string, Count)>): (total: int)
    ensures (forall i :: 0 <= i < |counts| ==> CountValue(counts[i].1) >= 0) ==> total >= 0
  {
    if |counts| == 0 then 0 else DaySum(counts[..|counts| - 1]) + CountValue(counts[|counts| - 1].1)
  }

  /** A day is processed when its key parses as a date in the window and its value is a dict. */
  predicate Qualifies(entry: (string, DayEntry), w: Window)
  {
    match ParseDate(entry.0)
    case None => false
    case Some(d) => InWindow(d, w) && entry.1.Versions?
  }

  /** What the day adds to the total: its version sum when it qualifies, otherwise nothing. */
  function Contribution(entry: (string, DayEntry), w: Window): int {
    if Qualifies(entry, w) then DaySum(entry.1.counts) else 0
  }

  /** The keys `processed_dates` collects, in iteration order. */
  function ProcessedDates(days: seq<(string, DayEntry)>, w: Window): (p: seq<string>)
    ensures |p| <= |days|
    ensures forall i :: 0 <= i < |p| ==> ParseDate(p[i]).Some?
  {
    if |days| == 0 then []
    else
      var front := ProcessedDates(days[..|days| - 1], w);
      if Qualifies(days[|days| - 1], w) then front + [days[|days| - 1].0] else front
  }

  /** The value `previous_month_downloads` reaches. */
  function MonthTotal(days: seq<(string, DayEntry)>, w: Window): (total: int)
    ensures (forall i :: 0 <= i < |days| ==> !Qualifies(days[i], w)) ==> total == 0
  {
    if |days| == 0 then 0
    else
      assert forall i :: 0 <= i < |days| - 1 ==> days[..|days| - 1][i] == days[i];
      MonthTotal(days[..|days| - 1], w) + Contribution(days[|days| - 1], w)
  }

  /**
   * The result of `extract_monthly_downloads(data)` called at `now`: None for a
   * missing or non-dict `"downloads"`, for the OverflowError of year 1, and when no
   * day was processed; otherwise the previous month's total. The contract states the
   * None cases without the list of processed days: a month of days whose counts
   * sum to 0 still gives Some(0).
   */
  function MonthlyDownloads(data: ApiData, now: Date): (r: Option<int>)
    requires ValidDate(now)
    ensures r.None? <==>
      data.downloads.None? || data.downloads.value.NotDict? || (now.year == MinYear && now.month == 1) ||
      forall i :: 0 <= i < |data.downloads.value.days| ==>
        !Qualifies(data.downloads.value.days[i], PreviousMonthDates(now).value)
  {
    if data.downloads.None? || data.downloads.value.NotDict? then None
    else
      match PreviousMonthDates(now)
      case None => None
      case Some(w) =>
        var days := data.downloads.value.days;
        NoneProcessedIff(days, w);
        if |ProcessedDates(days, w)| == 0 then None else Some(MonthTotal(days, w))
  }

  /** `extract_monthly_downloads`, with the clock reading `now` as a parameter. */
  method ExtractMonthlyDownloads(data: ApiData, now: Date) returns (result: Option<int>)
    requires ValidDate(now)
    ensures result == MonthlyDownloads(data, now)
  {
    if data.downloads.None? {
      return None;
    }
    if data.downloads.value.NotDict? {
      return None;
    }
    var window := PreviousMonthDates(now);
    if window.None? {
      return None;
    }
    var w := window.value;
    var days := data.downloads.value.days;
    var previousMonthDownloads := 0;
    var processedDates: seq<string> := [];
    var i := 0;
    while i < |days|
      invariant 0 <= i <= |days|
      invariant previousMonthDownloads == MonthTotal(days[..i], w)
      invariant processedDates == ProcessedDates(days[..i], w)
    {
      var (dateStr, versionData) := days[i];
      assert days[..i + 1][..i] == days[..i];
      var parsed := ParseDate(dateStr);
      if parsed.Some? {
        if DateLeq(w.first, parsed.value) && DateLeq(parsed.value, w.last) {
          if versionData.Versions? {
            var dailyTotal := DaySum(versionData.counts);
            previousMonthDownloads := previousMonthDownloads + dailyTotal;
            processedDates := processedDates + [dateStr];
          }
        }
      }
      i := i + 1;
    }
    assert days[..|days|] == days;
    if |processedDates| == 0 {
      return None;
    }
    return Some(previousMonthDownloads);
  }

  // ---------------------------------------------------------------------------
  // Properties of the specification

  /** A key is processed exactly when some entry with that key qualifies. */
  lemma {:induction false} ProcessedDatesMembers(days: seq<(string, DayEntry)>, w: Window, k: string)
    ensures k in ProcessedDates(days, w) <==>
      exists i :: 0 <= i < |days| && days[i].0 == k && Qualifies(days[i], w)
  {
    if |days| > 0 {
      var front := days[..|days| - 1];
      ProcessedDatesMembers(front, w, k);
      assert forall i :: 0 <= i < |front| ==> front[i] == days[i];
      if exists i :: 0 <= i < |days| && days[i].0 == k && Qualifies(days[i], w) {
        var i :| 0 <= i < |days| && days[i].0 == k && Qualifies(days[i], w);
        if i < |front| {
          assert front[i].0 == k && Qualifies(front[i], w);
        }
      }
    }
  }

  /**
   * With the window `get_previous_month_dates` returns for `now`, a day counts exactly
   * when its key parses as a date in the calendar month before `now` and its value is
   * a dict.
   */
  lemma QualifiesInPreviousMonth(entry: (string, DayEntry), now: Date)
    requires ValidDate(now) && PreviousMonthDates(now).Some?
    ensures Qualifies(entry, PreviousMonthDates(now).value) <==>
      entry.1.Versions? && ParseDate(entry.0).Some?
      && ParseDate(entry.0).value.year == (if now.month == 1 then now.year - 1 else now.year)
      && ParseDate(entry.0).value.month == (if now.month == 1 then 12 else now.month - 1)
  {
    if ParseDate(entry.0).Some? {
      WindowIsPreviousMonth(now, ParseDate(entry.0).value);
    }
  }

  /** Nothing is processed exactly when no entry qualifies. */
  lemma NoneProcessedIff(days: seq<(string, DayEntry)>, w: Window)
    ensures |ProcessedDates(days, w)| == 0 <==> forall i :: 0 <= i < |days| ==> !Qualifies(days[i], w)
  {
    var p := ProcessedDates(days, w);
    if |p| > 0 {
      ProcessedDatesMembers(days, w, p[0]);
    } else {
      forall i | 0 <= i < |days|
        ensures !Qualifies(days[i], w)
      {
        ProcessedDatesMembers(days, w, days[i].0);
      }
    }
  }

  /** The total over two runs of days is the sum of their totals: each day counts on its own. */
  lemma {:induction false} MonthTotalAppend(a: seq<(string, DayEntry)>, b: seq<(string, DayEntry)>, w: Window)
    ensures MonthTotal(a + b, w) == MonthTotal(a, w) + MonthTotal(b, w)
  {
    if |b| > 0 {
      var b' := b[..|b| - 1];
      assert (a + b)[..|a + b| - 1] == a + b';
      MonthTotalAppend(a, b', w);
    } else {
      assert a + b == a;
    }
  }

  lemma {:induction false} ProcessedDatesAppend(a: seq<(string, DayEntry)>, b: seq<(string, DayEntry)>, w: Window)
    ensures ProcessedDates(a + b, w) == ProcessedDates(a, w) + ProcessedDates(b, w)
  {
    if |b| > 0 {
      var b' := b[..|b| - 1];
      assert (a + b)[..|a + b| - 1] == a + b';
      ProcessedDatesAppend(a, b', w);
    } else {
      assert a + b == a;
    }
  }

  /**
   * An entry that does not qualify (its key does not parse, its date is outside the
   * window, or its value is not a dict) changes neither the total nor the processed days.
   */
  lemma SkippedEntry(a: seq<(string, DayEntry)>, e: (string, DayEntry), b: seq<(string, DayEntry)>, w: Window)
    requires !Qualifies(e, w)
    ensures MonthTotal(a + [e] + b, w) == MonthTotal(a + b, w)
    ensures ProcessedDates(a + [e] + b, w) == ProcessedDates(a + b, w)
  {
    MonthTotalAppend(a + [e], b, w);
    MonthTotalAppend(a, [e], w);
    MonthTotalAppend(a, b, w);
    ProcessedDatesAppend(a + [e], b, w);
    ProcessedDatesAppend(a, [e], w);
    ProcessedDatesAppend(a, b, w);
    assert [e][..0] == [];
  }

  /** With non-negative counts the monthly total is non-negative. */
  lemma {:induction false} MonthTotalNonNegative(days: seq<(string, DayEntry)>, w: Window)
    requires forall i, j :: 0 <= i < |days| && days[i].1.Versions? && 0 <= j < |days[i].1.counts| ==>
      CountValue(days[i].1.counts[j].1) >= 0
    ensures MonthTotal(days, w) >= 0
  {
    if |days| > 0 {
      MonthTotalNonNegative(days[..|days| - 1], w);
      var e := days[|days| - 1];
      if e.1.Versions? {
        assert forall j :: 0 <= j < |e.1.counts| ==> CountValue(e.1.counts[j].1) >= 0;
      }
    }
  }

  // ---------------------------------------------------------------------------
  // The cases tests/test_fetch_downloads.py:150-214 checks for `extract_monthly_downloads`,
  // with the clock in February 2024, so that the window is January 2024.

  lemma ParsedKeys()
    ensures ParseDate("2024-01-15") == Some(Date(2024, 1, 15))
    ensures ParseDate("2024-01-16") == Some(Date(2024, 1, 16))
    ensures ParseDate("2024-02-01") == Some(Date(2024, 2, 1))
  {
    DigitsValue2024();
    assert "2024-01-15"[..4] == "2024" && "2024-01-15"[5..] == "01-15" && "01-15"[3..] == "15";
    assert "2024-01-16"[..4] == "2024" && "2024-01-16"[5..] == "01-16" && "01-16"[3..] == "16";
    assert "2024-02-01"[..4] == "2024" && "2024-02-01"[5..] == "02-01" && "02-01"[3..] == "01";
  }

  lemma DaySumPair(k1: string, a: int, k2: string, b: int)
    ensures DaySum([(k1, Num(a)), (k2, Num(b))]) == a + b
  {
    var c := [(k1, Num(a)), (k2, Num(b))];
    assert c[..1] == [(k1, Num(a))] && c[..1][..0] == [];
    assert DaySum(c[..1]) == a;
  }

  /** Two January days are summed over their versions; the February day is ignored. */
  lemma ExtractSumsPreviousMonth()
    ensures MonthlyDownloads(ApiData(Some(Table([
      ("2024-01-15", Versions([("1.0", Num(100)), ("1.1", Num(50))])),
      ("2024-01-16", Versions([("1.0", Num(200)), ("1.1", Num(75))])),
      ("2024-02-01", Versions([("1.0", Num(300))]))])), None), Date(2024, 2, 15)) == Some(425)
  {
    ParsedKeys();
    DaySumPair("1.0", 100, "1.1", 50);
    DaySumPair("1.0", 200, "1.1", 75);
    var d0 := ("2024-01-15", Versions([("1.0", Num(100)), ("1.1", Num(50))]));
    var d1 := ("2024-01-16", Versions([("1.0", Num(200)), ("1.1", Num(75))]));
    var d2 := ("2024-02-01", Versions([("1.0", Num(300))]));
    var days := [d0, d1, d2];
    var w := Window(Date(2024, 1, 1), Date(2024, 1, 31));
    assert Qualifies(d0, w) && Qualifies(d1, w) && !Qualifies(d2, w);
    assert days[..2] == [d0, d1] && [d0, d1][..1] == [d0] && [d0][..0] == [];
    assert MonthTotal([d0], w) == 150;
    assert MonthTotal([d0, d1], w) == 425;
    assert ProcessedDates([d0], w) == ["2024-01-15"];
    assert ProcessedDates(days, w) == ["2024-01-15", "2024-01-16"];
  }

  /** No `"downloads"` entry, or a non-dict one, gives None. */
  lemma ExtractWithoutTable()
    ensures MonthlyDownloads(ApiData(None, Some(1000)), Date(2024, 2, 15)) == None
    ensures MonthlyDownloads(ApiData(Some(NotDict), None), Date(2024, 2, 15)) == None
  {
  }

  /** Only a February day: nothing processed, None. */
  lemma ExtractNoDayInMonth()
    ensures MonthlyDownloads(ApiData(Some(Table([("2024-02-01", Versions([("1.0", Num(100))]))])), None),
      Date(2024, 2, 15)) == None
  {
    ParsedKeys();
  }

  /** A key that is not a date is skipped; the valid day still counts. */
  lemma ExtractSkipsInvalidKey()
    ensures MonthlyDownloads(ApiData(Some(Table([
      ("invalid-date", Versions([("1.0", Num(100))])),
      ("2024-01-15", Versions([("1.0", Num(200))]))])), None), Date(2024, 2, 15)) == Some(200)
  {
    ParsedKeys();
    ParseDateRejectsText();
    var d0 := ("invalid-date", Versions([("1.0", Num(100))]));
    var d1 := ("2024-01-15", Versions([("1.0", Num(200))]));
    var w := Window(Date(2024, 1, 1), Date(2024, 1, 31));
    assert !Qualifies(d0, w) && Qualifies(d1, w);
    assert [d0, d1][..1] == [d0] && [d0][..0] == [];
    assert [("1.0", Num(200))][..0] == [];
    assert DaySum([("1.0", Num(200))]) == 200;
    var s0 := [d0];
    assert s0[..|s0| - 1] == [] && s0[|s0| - 1] == d0;
    assert ProcessedDates(s0, w) == ProcessedDates([], w);
    assert MonthTotal([d0], w) == 0 && ProcessedDates([d0], w) == [];
    assert MonthTotal([d0, d1], w) == 200;
    assert ProcessedDates([d0, d1], w) == ["2024-01-15"];
  }

  /** A processed day whose counts sum to 0 gives Some(0), not None. */
  lemma ExtractZeroIsNotNone()
    ensures MonthlyDownloads(ApiData(Some(Table([("2024-01-15", Versions([("1.0", NonNumeric)]))])), None),
      Date(2024, 2, 15)) == Some(0)
  {
    ParsedKeys();
  }

  /** An in-window day whose value is not a dict is not processed. */
  lemma ExtractSkipsNonDictDay()
    ensures MonthlyDownloads(ApiData(Some(Table([("2024-01-15", NotMap)])), None), Date(2024, 2, 15)) == None
  {
    ParsedKeys();
  }
}
