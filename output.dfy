/**
 * `create_output_data` (scripts/fetch_downloads.py): the record written to the
 * badge YAML. The YAML is dumped without sorting keys, so the order in which
 * fields are inserted is part of the output; a record keeps its keys in
 * insertion order, as a Python dict does, beside the value of each key.
 */
module Output {
  import opened Wrappers
  import opened Text
  import opened Calendar
  import opened Humanize
  import opened Downloads

  const DataSource := "pepy.tech_v2"
  const PackageName := "holidays"

  datatype FieldValue = StrValue(s: string) | IntValue(n: int) | PeriodValue(startDate: string, endDate: string)

  /** The fields `create_output_data` can write, declared in the order it writes them. */
  datatype FieldKey =
    | DataSourceKey | LastUpdatedKey | MostRecentDataDateKey | PackageKey | ReportingPeriodKey
    | DailyKey | DailyHumanKey | MonthlyKey | MonthlyHumanKey | TotalKey | TotalHumanKey

  /** The key as it appears in the YAML document. */
  function KeyName(k: FieldKey): string {
    match k
    case DataSourceKey => "data_source"
    case LastUpdatedKey => "last_updated"
    case MostRecentDataDateKey => "most_recent_data_date"
    case PackageKey => "package"
    case ReportingPeriodKey => "reporting_period"
    case DailyKey => "daily_downloads"
    case DailyHumanKey => "daily_downloads_human"
    case MonthlyKey => "monthly_downloads"
    case MonthlyHumanKey => "monthly_downloads_human"
    case TotalKey => "total_downloads_all_time"
    case TotalHumanKey => "total_downloads_all_time_human"
  }

  /**
   * A Python dict from field keys to values: its keys in insertion order, and the
   * value of each key.
   */
  datatype Record = Record(order: seq<FieldKey>, values: map<FieldKey, FieldValue>)

  /** The dict invariant: the order lists every key exactly once. */
  predicate ValidRecord(r: Record) {
    (forall k :: k in r.values <==> k in r.order)
    && forall i, j :: 0 <= i < j < |r.order| ==> r.order[i] != r.order[j]
  }

  const EmptyRecord := Record([], map[])

  /**
   * `output_data[key] = value`: a key already present keeps its place and takes
   * the new value; a new key goes last.
   */
  function SetItem(r: Record, key: FieldKey, value: FieldValue): (r': Record)
    ensures key in r'.values && r'.values[key] == value
    ensures forall k :: k != key ==> (k in r'.values <==> k in r.values)
    ensures forall k :: k != key && k in r.values ==> r'.values[k] == r.values[k]
    ensures r.order <= r'.order
    ensures |r'.order| == |r.order| + (if key in r.values then 0 else 1)
    ensures |r'.order| > |r.order| ==> r'.order[|r.order|] == key
  {
    Record(if key in r.values then r.order else r.order + [key], r.values[key := value])
  }

  /** Setting a key keeps the dict invariant. */
  lemma SetItemKeepsValid(r: Record, key: FieldKey, value: FieldValue)
    requires ValidRecord(r)
    ensures ValidRecord(SetItem(r, key, value))
  {
    var r' := SetItem(r, key, value);
    if key !in r.values {
      forall i, j | 0 <= i < j < |r'.order|
        ensures r'.order[i] != r'.order[j]
      {
        if j == |r.order| {
          assert r.order[i] in r.values;
        }
      }
    }
  }

  /** `api_data["downloads"][key]`: the value of the first day with that key. */
  function LookupDay(days: seq<(string, DayEntry)>, key: string): (r: Option<DayEntry>)
    ensures r.Some? <==> exists i :: 0 <= i < |days| && days[i].0 == key
    ensures r.Some? ==>
      exists i :: 0 <= i < |days| && days[i].0 == key && r.value == days[i].1
        && forall j :: 0 <= j < i ==> days[j].0 != key
  {
    if |days| == 0 then None
    else if days[0].0 == key then Some(days[0].1)
    else
      var r := LookupDay(days[1..], key);
      if r.Some? then
        var i :| 0 <= i < |days[1..]| && days[1..][i].0 == key && r.value == days[1..][i].1
            && forall j :: 0 <= j < i ==> days[1..][j].0 != key;
        assert forall j :: 1 <= j < i + 1 ==> days[j] == days[1..][j - 1];
        assert days[i + 1].0 == key && r.value == days[i + 1].1;
        r
      else
        assert forall i :: 1 <= i < |days| ==> days[i] == days[1..][i - 1];
        r
  }

  function DayKeys(days: seq<(string, DayEntry)>): (keys: seq<string>)
    ensures |keys| == |days| && forall i :: 0 <= i < |days| ==> keys[i] == days[i].0
  {
    if |days| == 0 then [] else [days[0].0] + DayKeys(days[1..])
  }

  lemma RaiseUpperBound(keys: seq<string>, m: string, k: string)
    requires forall i :: 0 <= i < |keys| ==> StrLeq(keys[i], m)
    requires StrLess(m, k)
    ensures forall i :: 0 <= i < |keys| ==> StrLeq(keys[i], k)
  {
    forall i | 0 <= i < |keys|
      ensures StrLeq(keys[i], k)
    {
      if keys[i] != m {
        StrLessTransitive(keys[i], m, k);
      }
    }
  }

  /** `sorted(keys, reverse=True)[0]`: the greatest key in Python's string order. */
  function MaxKey(keys: seq<string>): (k: string)
    requires |keys| > 0
    ensures k in keys
    ensures forall i :: 0 <= i < |keys| ==> StrLeq(keys[i], k)
  {
    if |keys| == 1 then keys[0]
    else
      var m := MaxKey(keys[1..]);
      assert forall i :: 1 <= i < |keys| ==> keys[i] == keys[1..][i - 1];
      StrLessTotal(m, keys[0]);
      if StrLess(m, keys[0]) then
        RaiseUpperBound(keys[1..], m, keys[0]);
        keys[0]
      else
        m
  }

  /** A key of the table that no other key exceeds in string order. */
  predicate IsGreatestKey(days: seq<(string, DayEntry)>, k: string) {
    (exists i :: 0 <= i < |days| && days[i].0 == k) && forall i :: 0 <= i < |days| ==> StrLeq(days[i].0, k)
  }

  /** There is only one greatest key. */
  lemma GreatestKeyUnique(days: seq<(string, DayEntry)>, k1: string, k2: string)
    requires IsGreatestKey(days, k1) && IsGreatestKey(days, k2)
    ensures k1 == k2
  {
    var i1 :| 0 <= i1 < |days| && days[i1].0 == k1;
    var i2 :| 0 <= i2 < |days| && days[i2].0 == k2;
    assert StrLeq(k1, k2) && StrLeq(k2, k1);
    if k1 != k2 {
      StrLessTransitive(k1, k2, k1);
      StrLessIrreflexive(k1);
    }
  }

  /** The key `create_output_data` reports as `most_recent_data_date`. */
  function LatestKey(days: seq<(string, DayEntry)>): (k: string)
    requires |days| > 0
    ensures IsGreatestKey(days, k)
  {
    var keys := DayKeys(days);
    var k := MaxKey(keys);
    assert exists i :: 0 <= i < |keys| && keys[i] == k;
    k
  }

  /** Formatted dates compare in string order as the dates compare in time. */
  lemma FormattedDateLeq(a: Date, b: Date)
    requires ValidDate(a) && ValidDate(b)
    ensures StrLeq(FormatDate(a), FormatDate(b)) <==> DateLeq(a, b)
  {
    FormattedDateOrder(a, b);
    if FormatDate(a) == FormatDate(b) {
      ParseFormattedDate(a);
      ParseFormattedDate(b);
    }
  }

  /**
   * When every key is a date in the zero-padded form pepy.tech sends, the key
   * `create_output_data` reports is the latest date: the greatest key in string
   * order is the chronologically last day.
   */
  lemma GreatestKeyIsLatestDate(days: seq<(string, DayEntry)>, dates: seq<Date>, j: nat)
    requires |dates| == |days| && j < |days|
    requires forall i :: 0 <= i < |days| ==> ValidDate(dates[i]) && days[i].0 == FormatDate(dates[i])
    ensures IsGreatestKey(days, days[j].0) <==> forall i :: 0 <= i < |days| ==> DateLeq(dates[i], dates[j])
  {
    forall i | 0 <= i < |days|
      ensures StrLeq(days[i].0, days[j].0) <==> DateLeq(dates[i], dates[j])
    {
      FormattedDateLeq(dates[i], dates[j]);
    }
  }

  /** The parser also accepts month and day without zero padding. */
  lemma UnpaddedKeysParse()
    ensures ParseDate("2024-9-30") == Some(Date(2024, 9, 30))
    ensures ParseDate("2024-10-01") == Some(Date(2024, 10, 1))
  {
    DigitsValue2024();
    assert "2024-9-30"[..4] == "2024" && "2024-9-30"[5..] == "9-30" && "9-30"[2..] == "30";
    assert "2024-10-01"[..4] == "2024" && "2024-10-01"[5..] == "10-01" && "10-01"[3..] == "01";
  }

  /**
   * For keys without zero padding string order is not time order: of "2024-9-30"
   * and "2024-10-01", which parse as those two days, the earlier day is the
   * greatest key.
   */
  lemma UnpaddedKeysSortApart()
    ensures DateLeq(Date(2024, 9, 30), Date(2024, 10, 1))
    ensures IsGreatestKey([("2024-9-30", NotMap), ("2024-10-01", NotMap)], "2024-9-30")
  {
    var days := [("2024-9-30", NotMap), ("2024-10-01", NotMap)];
    assert days[0].0 == "2024-9-30";
    assert StrLess("10-01", "9-30");
    StrLessSameLengthPrefix("2024-", "2024-", "10-01", "9-30");
    assert "2024-" + "10-01" == "2024-10-01" && "2024-" + "9-30" == "2024-9-30";
  }

  /** The insertion order of `output_data`, given which of the optional groups are present. */
  function OutputKeys(hasLatest: bool, hasDaily: bool, hasTotal: bool): seq<FieldKey> {
    var opening := [DataSourceKey, LastUpdatedKey];
    var withLatest := if hasLatest then opening + [MostRecentDataDateKey] else opening;
    var withPeriod := withLatest + [PackageKey, ReportingPeriodKey];
    var withDaily := if hasDaily then withPeriod + [DailyKey, DailyHumanKey] else withPeriod;
    var withMonthly := withDaily + [MonthlyKey, MonthlyHumanKey];
    if hasTotal then withMonthly + [TotalKey, TotalHumanKey] else withMonthly
  }

  /** The position of a field in the fixed order in which `create_output_data` writes fields. */
  function Rank(k: FieldKey): nat {
    match k
    case DataSourceKey => 0
    case LastUpdatedKey => 1
    case MostRecentDataDateKey => 2
    case PackageKey => 3
    case ReportingPeriodKey => 4
    case DailyKey => 5
    case DailyHumanKey => 6
    case MonthlyKey => 7
    case MonthlyHumanKey => 8
    case TotalKey => 9
    case TotalHumanKey => 10
  }

  /** Consecutive keys of `s` strictly increase in rank. */
  predicate StepsUp(s: seq<FieldKey>) {
    forall i :: 0 <= i < |s| - 1 ==> Rank(s[i]) < Rank(s[i + 1])
  }

  /** Ranks that increase step by step increase between any two positions. */
  lemma {:induction false} StepsUpEverywhere(s: seq<FieldKey>)
    requires StepsUp(s)
    ensures forall i, j :: 0 <= i < j < |s| ==> Rank(s[i]) < Rank(s[j])
    decreases |s|
  {
    if |s| > 1 {
      var t := s[1..];
      assert StepsUp(t) by {
        forall i | 0 <= i < |t| - 1
          ensures Rank(t[i]) < Rank(t[i + 1])
        {
          assert t[i] == s[i + 1] && t[i + 1] == s[i + 2];
        }
      }
      StepsUpEverywhere(t);
      forall i, j | 0 <= i < j < |s|
        ensures Rank(s[i]) < Rank(s[j])
      {
        if i > 0 {
          assert s[i] == t[i - 1] && s[j] == t[j - 1];
        } else if j > 1 {
          assert s[1] == t[0] && s[j] == t[j - 1];
        }
      }
    }
  }

  /** Whether `create_output_data` writes the field `k`, given which optional groups are present. */
  predicate Written(k: FieldKey, hasLatest: bool, hasDaily: bool, hasTotal: bool) {
    match k
    case MostRecentDataDateKey => hasLatest
    case DailyKey => hasDaily
    case DailyHumanKey => hasDaily
    case TotalKey => hasTotal
    case TotalHumanKey => hasTotal
    case _ => true
  }

  /**
   * Whichever optional groups are present, the fields that are written come in the
   * fixed order, so no key is written twice.
   */
  lemma OutputKeysInFixedOrder(hasLatest: bool, hasDaily: bool, hasTotal: bool)
    ensures var keys := OutputKeys(hasLatest, hasDaily, hasTotal);
      forall i, j :: 0 <= i < j < |keys| ==> Rank(keys[i]) < Rank(keys[j])
  {
    var keys := OutputKeys(hasLatest, hasDaily, hasTotal);
    if hasLatest {
      OutputKeysStepUpWithLatest(hasDaily, hasTotal);
    } else {
      OutputKeysStepUpWithoutLatest(hasDaily, hasTotal);
    }
    StepsUpEverywhere(keys);
  }

  /** The consecutive written fields step up in rank when the most recent date is written. */
  lemma OutputKeysStepUpWithLatest(hasDaily: bool, hasTotal: bool)
    ensures StepsUp(OutputKeys(true, hasDaily, hasTotal))
  {
    var keys := OutputKeys(true, hasDaily, hasTotal);
    if hasDaily {
      assert StepsUp(keys);
    } else {
      assert StepsUp(keys);
    }
  }

  /** The consecutive written fields step up in rank when no most recent date is written. */
  lemma OutputKeysStepUpWithoutLatest(hasDaily: bool, hasTotal: bool)
    ensures StepsUp(OutputKeys(false, hasDaily, hasTotal))
  {
    var keys := OutputKeys(false, hasDaily, hasTotal);
    if hasDaily {
      assert StepsUp(keys);
    } else {
      assert StepsUp(keys);
    }
  }

  /** A field is in the order exactly when it is written. */
  lemma OutputKeysWritten(hasLatest: bool, hasDaily: bool, hasTotal: bool)
    ensures forall k :: k in OutputKeys(hasLatest, hasDaily, hasTotal) <==> Written(k, hasLatest, hasDaily, hasTotal)
  {
  }

  /**
   * The values `create_output_data` has computed by the time it writes each field:
   * the `last_updated` timestamp, the most recent data date when there is one, the
   * two ends of the reporting period, the daily total when there is one, the
   * monthly total, and the all-time total when the response has one.
   */
  datatype Gathered = Gathered(
    lastUpdated: string, latest: Option<string>, period: (string, string),
    daily: Option<int>, monthly: int, total: Option<int>)

  /** Whether the field `k` is written for these values. */
  predicate WrittenFor(k: FieldKey, g: Gathered) {
    Written(k, g.latest.Some?, g.daily.Some?, g.total.Some?)
  }

  /** The keys written for these values, in writing order. */
  function KeysFor(g: Gathered): seq<FieldKey> {
    OutputKeys(g.latest.Some?, g.daily.Some?, g.total.Some?)
  }

  /** The value assigned to the field `k`; each `_human` field holds its count humanized. */
  function FieldFor(k: FieldKey, g: Gathered): FieldValue
    requires WrittenFor(k, g)
  {
    match k
    case DataSourceKey => StrValue(DataSource)
    case LastUpdatedKey => StrValue(g.lastUpdated)
    case MostRecentDataDateKey => StrValue(g.latest.value)
    case PackageKey => StrValue(PackageName)
    case ReportingPeriodKey => PeriodValue(g.period.0, g.period.1)
    case DailyKey => IntValue(g.daily.value)
    case DailyHumanKey => StrValue(HumanizeNumber(g.daily.value))
    case MonthlyKey => IntValue(g.monthly)
    case MonthlyHumanKey => StrValue(HumanizeNumber(g.monthly))
    case TotalKey => IntValue(g.total.value)
    case TotalHumanKey => StrValue(HumanizeNumber(g.total.value))
  }

  /** `output_data[k] = ...` for each key of `keys` in turn, starting from `r`. */
  function WriteAll(r: Record, keys: seq<FieldKey>, g: Gathered): (r': Record)
    requires forall i :: 0 <= i < |keys| ==> WrittenFor(keys[i], g)
    ensures r.order <= r'.order && |r'.order| <= |r.order| + |keys|
    decreases |keys|
  {
    if |keys| == 0 then r
    else
      var k := keys[|keys| - 1];
      SetItem(WriteAll(r, keys[..|keys| - 1], g), k, FieldFor(k, g))
  }

  /** Writing keys that are all new and pairwise distinct appends them to the order. */
  lemma {:induction false} WriteAllOrder(r: Record, keys: seq<FieldKey>, g: Gathered)
    requires forall i :: 0 <= i < |keys| ==> WrittenFor(keys[i], g)
    requires forall i, j :: 0 <= i < j < |keys| ==> keys[i] != keys[j]
    requires forall i :: 0 <= i < |keys| ==> keys[i] !in r.values
    ensures WriteAll(r, keys, g).order == r.order + keys
    decreases |keys|
  {
    if |keys| > 0 {
      var front, k := keys[..|keys| - 1], keys[|keys| - 1];
      WriteAllOrder(r, front, g);
      assert k !in front;
      var prev := WriteAll(r, front, g);
      assert k !in prev.values by {
        WriteAllValues(r, front, g);
      }
      var next := SetItem(prev, k, FieldFor(k, g));
      assert next.order == prev.order + [k] by {
        assert |next.order| == |prev.order| + 1;
        assert prev.order == next.order[..|prev.order|];
      }
      assert r.order + front + [k] == r.order + keys;
    }
  }

  /**
   * After the writes, a key is present exactly when it was present before or is
   * written; a written key holds its value (or, when written twice, the later write,
   * which is the same value).
   */
  lemma {:induction false} WriteAllValues(r: Record, keys: seq<FieldKey>, g: Gathered)
    requires forall i :: 0 <= i < |keys| ==> WrittenFor(keys[i], g)
    ensures forall k :: k in WriteAll(r, keys, g).values <==> k in r.values || k in keys
    ensures forall k :: k in keys ==> WrittenFor(k, g) && WriteAll(r, keys, g).values[k] == FieldFor(k, g)
    ensures forall k :: k !in keys && k in r.values ==> WriteAll(r, keys, g).values[k] == r.values[k]
    decreases |keys|
  {
    if |keys| > 0 {
      var front := keys[..|keys| - 1];
      WriteAllValues(r, front, g);
      assert keys == front + [keys[|keys| - 1]];
    }
  }

  /** The raw count under `rawKey` is shown humanized under `humanKey`. */
  predicate HumanCompanion(r: Record, rawKey: FieldKey, humanKey: FieldKey) {
    rawKey in r.values && r.values[rawKey].IntValue?
    && humanKey in r.values && r.values[humanKey] == StrValue(HumanizeNumber(r.values[rawKey].n))
  }

  /** The field `key` is present with value `v`. */
  predicate Has(r: Record, key: FieldKey, v: FieldValue) {
    key in r.values && r.values[key] == v
  }

  /** The dict `create_output_data` fills in, given the values it has computed. */
  function BuildOutput(g: Gathered): (out: Record)
    ensures out.order == KeysFor(g)
  {
    OutputKeysWritten(g.latest.Some?, g.daily.Some?, g.total.Some?);
    OutputKeysInFixedOrder(g.latest.Some?, g.daily.Some?, g.total.Some?);
    WriteRankedKeys(KeysFor(g), g);
    WriteAll(EmptyRecord, KeysFor(g), g)
  }

  /** Writing keys of strictly increasing rank into an empty dict gives a dict in that order. */
  lemma WriteRankedKeys(keys: seq<FieldKey>, g: Gathered)
    requires forall i :: 0 <= i < |keys| ==> WrittenFor(keys[i], g)
    requires forall i, j :: 0 <= i < j < |keys| ==> Rank(keys[i]) < Rank(keys[j])
    ensures WriteAll(EmptyRecord, keys, g).order == keys
    ensures ValidRecord(WriteAll(EmptyRecord, keys, g))
  {
    WriteAllOrder(EmptyRecord, keys, g);
    WriteAllValues(EmptyRecord, keys, g);
  }

  /** The fields come out in the fixed order, each once, and make a well-formed dict. */
  lemma BuildOutputOrder(g: Gathered)
    ensures BuildOutput(g).order == KeysFor(g)
    ensures ValidRecord(BuildOutput(g))
  {
    OutputKeysWritten(g.latest.Some?, g.daily.Some?, g.total.Some?);
    OutputKeysInFixedOrder(g.latest.Some?, g.daily.Some?, g.total.Some?);
    WriteRankedKeys(KeysFor(g), g);
  }

  /** The field `k` is present exactly when it is written, and then holds the value computed for it. */
  lemma BuildOutputValue(g: Gathered, k: FieldKey)
    ensures var out := BuildOutput(g);
      (k in out.values <==> WrittenFor(k, g)) && (k in out.values ==> out.values[k] == FieldFor(k, g))
  {
    OutputKeysWritten(g.latest.Some?, g.daily.Some?, g.total.Some?);
    WriteAllValues(EmptyRecord, KeysFor(g), g);
  }

  /** The fields always written first hold the constants, the timestamp and the period. */
  lemma BuildFixedFields(g: Gathered, out: Record)
    requires out == BuildOutput(g)
    ensures Has(out, DataSourceKey, StrValue(DataSource))
      && Has(out, LastUpdatedKey, StrValue(g.lastUpdated))
      && Has(out, PackageKey, StrValue(PackageName))
      && Has(out, ReportingPeriodKey, PeriodValue(g.period.0, g.period.1))
  {
    BuildOutputValue(g, DataSourceKey);
    BuildOutputValue(g, LastUpdatedKey);
    BuildOutputValue(g, PackageKey);
    BuildOutputValue(g, ReportingPeriodKey);
  }

  /** The monthly count is always there, with its humanized companion. */
  lemma BuildMonthly(g: Gathered, out: Record)
    requires out == BuildOutput(g)
    ensures Has(out, MonthlyKey, IntValue(g.monthly)) && HumanCompanion(out, MonthlyKey, MonthlyHumanKey)
  {
    BuildOutputValue(g, MonthlyKey);
    BuildOutputValue(g, MonthlyHumanKey);
  }

  /** `most_recent_data_date` is there exactly when a most recent date was found. */
  lemma BuildMostRecent(g: Gathered, out: Record)
    requires out == BuildOutput(g)
    ensures (MostRecentDataDateKey in out.values <==> g.latest.Some?)
      && (g.latest.Some? ==> Has(out, MostRecentDataDateKey, StrValue(g.latest.value)))
  {
    BuildOutputValue(g, MostRecentDataDateKey);
  }

  /** The daily group is there exactly when a daily total was computed. */
  lemma BuildDaily(g: Gathered, out: Record)
    requires out == BuildOutput(g)
    ensures (DailyKey in out.values <==> g.daily.Some?)
      && (DailyHumanKey in out.values <==> g.daily.Some?)
      && (g.daily.Some? ==>
        Has(out, DailyKey, IntValue(g.daily.value))
        && HumanCompanion(out, DailyKey, DailyHumanKey))
  {
    BuildOutputValue(g, DailyKey);
    BuildOutputValue(g, DailyHumanKey);
  }

  /** The all-time group is there exactly when an all-time total was given. */
  lemma BuildTotal(g: Gathered, out: Record)
    requires out == BuildOutput(g)
    ensures (TotalKey in out.values <==> g.total.Some?)
      && (TotalHumanKey in out.values <==> g.total.Some?)
      && (g.total.Some? ==>
        Has(out, TotalKey, IntValue(g.total.value))
        && HumanCompanion(out, TotalKey, TotalHumanKey))
  {
    BuildOutputValue(g, TotalKey);
    BuildOutputValue(g, TotalHumanKey);
  }

  /** The day table, when `"downloads"` is present and a dict. */
  function DaysOf(data: ApiData): seq<(string, DayEntry)> {
    if data.downloads.Some? && data.downloads.value.Table? then data.downloads.value.days else []
  }

  /** `"downloads"` is present but has no `.keys()`: `create_output_data` raises AttributeError. */
  predicate DownloadsNotDict(data: ApiData) {
    data.downloads.Some? && data.downloads.value.NotDict?
  }

  /** `most_recent_data_date` is written when `"downloads"` is a non-empty dict. */
  predicate HasLatest(data: ApiData) {
    |DaysOf(data)| > 0
  }

  /** The daily fields are written when, besides, the most recent day's value is a dict. */
  predicate HasDaily(data: ApiData) {
    HasLatest(data) && LookupDay(DaysOf(data), LatestKey(DaysOf(data))).value.Versions?
  }

  /** The first key of the day keys sorted in reverse, when there are any. */
  function MostRecentDate(data: ApiData): (r: Option<string>)
    ensures r.Some? <==> HasLatest(data)
    ensures r.Some? ==> IsGreatestKey(DaysOf(data), r.value)
  {
    var dates := DaysOf(data);
    if |dates| > 0 then Some(LatestKey(dates)) else None
  }

  /** Any greatest key is the one `LatestKey` reports. */
  lemma LatestKeyIsOnlyGreatest(days: seq<(string, DayEntry)>)
    requires |days| > 0
    ensures forall k :: IsGreatestKey(days, k) ==> k == LatestKey(days)
  {
    forall k | IsGreatestKey(days, k)
      ensures k == LatestKey(days)
    {
      GreatestKeyUnique(days, k, LatestKey(days));
    }
  }

  /**
   * The sum of the most recent day's numeric version counts, when that day is a dict.
   * For the day key `k` that no other key exceeds, a total is computed exactly when
   * that day's value is a dict, and it is the sum of its counts.
   */
  function RecentTotal(data: ApiData): (r: Option<int>)
    ensures forall k :: IsGreatestKey(DaysOf(data), k) ==>
      LookupDay(DaysOf(data), k).Some?
      && (r.Some? <==> LookupDay(DaysOf(data), k).value.Versions?)
      && (r.Some? ==> r.value == DaySum(LookupDay(DaysOf(data), k).value.counts))
  {
    var dates := DaysOf(data);
    if |dates| == 0 then None
    else
      LatestKeyIsOnlyGreatest(dates);
      match LookupDay(dates, LatestKey(dates)).value
      case Versions(counts) => Some(DaySum(counts))
      case NotMap => None
  }

  /** The values `create_output_data` gathers for the clock reading `now`. */
  function GatheredFor(monthlyDownloads: int, data: ApiData, now: Date, lastUpdated: string): Gathered
    requires ValidDate(now) && PreviousMonthDates(now).Some?
  {
    var w := PreviousMonthDates(now).value;
    Gathered(lastUpdated, MostRecentDate(data), (FormatDate(w.first), FormatDate(w.last)), RecentTotal(data), monthlyDownloads, data.totalDownloads)
  }

  /**
   * `create_output_data(monthly_downloads, api_data)` with the clock reading `now`
   * and the `last_updated` timestamp passed in. None stands for an exception that
   * escapes: OverflowError for a clock in January of year 1, AttributeError for a
   * `"downloads"` value without `.keys()`.
   */
  function CreateOutputData(monthlyDownloads: int, data: ApiData, now: Date, lastUpdated: string): (result: Option<Record>)
    requires ValidDate(now)
    ensures result.None? <==> (now.year == MinYear && now.month == 1) || DownloadsNotDict(data)
  {
    if PreviousMonthDates(now).None? || DownloadsNotDict(data) then None
    else Some(BuildOutput(GatheredFor(monthlyDownloads, data, now, lastUpdated)))
  }

  /** The fields come out in the order the function writes them, each once. */
  lemma CreateOutputOrder(monthlyDownloads: int, data: ApiData, now: Date, lastUpdated: string, out: Record)
    requires ValidDate(now)
    requires CreateOutputData(monthlyDownloads, data, now, lastUpdated) == Some(out)
    ensures out.order == OutputKeys(HasLatest(data), HasDaily(data), data.totalDownloads.Some?)
      && ValidRecord(out)
  {
    BuildOutputOrder(GatheredFor(monthlyDownloads, data, now, lastUpdated));
  }

  /**
   * The fields always written: the data source, the timestamp, the package, the
   * previous month as the reporting period, and the monthly count with its
   * humanized form.
   */
  lemma CreateOutputFixedFields(monthlyDownloads: int, data: ApiData, now: Date, lastUpdated: string, out: Record)
    requires ValidDate(now)
    requires CreateOutputData(monthlyDownloads, data, now, lastUpdated) == Some(out)
    ensures var w := PreviousMonthDates(now).value;
      Has(out, DataSourceKey, StrValue(DataSource))
      && Has(out, LastUpdatedKey, StrValue(lastUpdated))
      && Has(out, PackageKey, StrValue(PackageName))
      && Has(out, ReportingPeriodKey, PeriodValue(FormatDate(w.first), FormatDate(w.last)))
      && Has(out, MonthlyKey, IntValue(monthlyDownloads))
      && HumanCompanion(out, MonthlyKey, MonthlyHumanKey)
  {
    var g := GatheredFor(monthlyDownloads, data, now, lastUpdated);
    BuildFixedFields(g, out);
    BuildMonthly(g, out);
  }

  /**
   * `most_recent_data_date` is written exactly when `"downloads"` has a key, and it
   * is the key no other key exceeds in string order.
   */
  lemma CreateOutputMostRecent(monthlyDownloads: int, data: ApiData, now: Date, lastUpdated: string, out: Record)
    requires ValidDate(now)
    requires CreateOutputData(monthlyDownloads, data, now, lastUpdated) == Some(out)
    ensures (MostRecentDataDateKey in out.values <==> HasLatest(data))
      && (HasLatest(data) ==>
        out.values[MostRecentDataDateKey].StrValue?
        && IsGreatestKey(DaysOf(data), out.values[MostRecentDataDateKey].s))
  {
    BuildMostRecent(GatheredFor(monthlyDownloads, data, now, lastUpdated), out);
  }

  /**
   * For the most recent day `k` (the greatest key): the daily fields are written
   * exactly when its value is a dict, and then hold the sum of its numeric counts
   * and that sum humanized.
   */
  lemma CreateOutputDaily(monthlyDownloads: int, data: ApiData, now: Date, lastUpdated: string, out: Record, k: string)
    requires ValidDate(now)
    requires CreateOutputData(monthlyDownloads, data, now, lastUpdated) == Some(out)
    requires IsGreatestKey(DaysOf(data), k)
    ensures var day := LookupDay(DaysOf(data), k);
      day.Some?
      && (DailyKey in out.values <==> day.value.Versions?)
      && (DailyHumanKey in out.values <==> day.value.Versions?)
      && (day.value.Versions? ==>
        Has(out, DailyKey, IntValue(DaySum(day.value.counts)))
        && HumanCompanion(out, DailyKey, DailyHumanKey))
  {
    BuildDaily(GatheredFor(monthlyDownloads, data, now, lastUpdated), out);
  }

  /** The all-time fields are written exactly when the response has `"total_downloads"`. */
  lemma CreateOutputTotal(monthlyDownloads: int, data: ApiData, now: Date, lastUpdated: string, out: Record)
    requires ValidDate(now)
    requires CreateOutputData(monthlyDownloads, data, now, lastUpdated) == Some(out)
    ensures (TotalKey in out.values <==> data.totalDownloads.Some?)
      && (TotalHumanKey in out.values <==> data.totalDownloads.Some?)
      && (data.totalDownloads.Some? ==>
        Has(out, TotalKey, IntValue(data.totalDownloads.value))
        && HumanCompanion(out, TotalKey, TotalHumanKey))
  {
    BuildTotal(GatheredFor(monthlyDownloads, data, now, lastUpdated), out);
  }

  /**
   * The reporting period reads back, with the `%Y-%m-%d` parser, as the first and
   * last days of the previous month, and its start does not sort after its end.
   */
  lemma ReportingPeriodReadsBack(now: Date)
    requires ValidDate(now) && PreviousMonthDates(now).Some?
    ensures var w := PreviousMonthDates(now).value;
      ParseDate(FormatDate(w.first)) == Some(w.first)
      && ParseDate(FormatDate(w.last)) == Some(w.last)
      && StrLeq(FormatDate(w.first), FormatDate(w.last))
  {
    var w := PreviousMonthDates(now).value;
    ParseFormattedDate(w.first);
    ParseFormattedDate(w.last);
    if w.first != w.last {
      FormattedDateOrder(w.first, w.last);
    }
  }
}
