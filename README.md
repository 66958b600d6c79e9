# Download badge data for the `holidays` package, in Dafny

The script `scripts/fetch_downloads.py` fetches the download statistics of the
`holidays` Python package from the pepy.tech API (version 2) and turns them into the YAML document behind the repository's download badge. This
project models the pure core of that script and proves properties of it:

- `humanize_number`: a count written as `999`, `2K`, `1M` or `3B`, using Python's round-half-to-even `round`.
- `get_previous_month_dates`: the first and last day of the month before the clock reading.
- `extract_monthly_downloads`: the loop over the per-day table that sums the previous month's per-version counts. It includes the `"%Y-%m-%d"` parse of `datetime.strptime` with its lenient regular expression: one-digit months and days, a space-padded day, and "unconverted data" when characters are left over.
- `create_output_data`: the insertion-ordered dict written to the YAML file. This covers its fixed fields, the most recent data date chosen by a reverse string sort, that day's total, the monthly and all-time totals, and the humanized companion of each count.

Modules and files:

| file | module | contents |
|---|---|---|
| `wrappers.dfy` | `Wrappers` | `Option` |
| `text.dfy` | `Text` | `str(int)`, zero padding, digit runs read as numbers, Python's string order |
| `calendar.dfy` | `Calendar` | dates, day numbers, `get_previous_month_dates`, `strftime`/`strptime` with `"%Y-%m-%d"` |
| `humanize.dfy` | `Humanize` | `round` half to even, `humanize_number`, and a reader for its output |
| `downloads.dfy` | `Downloads` | the API response, `extract_monthly_downloads` as a loop, and the function that specifies it |
| `output.dfy` | `Output` | dicts with insertion order, `create_output_data` |

The clock is a parameter:

- `now` is the UTC date that `datetime.now(timezone.utc)` would return. Only its date matters, because every datetime the script compares is midnight UTC.
- `lastUpdated` is the ISO timestamp string written as `last_updated`.

An exception that escapes a function is `None`. Python datetimes cover years 1 to 9999. So for a clock in January of year 1, `get_previous_month_dates` raises OverflowError:

- `extract_monthly_downloads` catches it and returns `None`.
- In `create_output_data` it escapes.

A Python dict from the JSON response is a sequence of (key, value) pairs in iteration order. The dict that `create_output_data` builds is a `Record`: its insertion order beside a map from field to value. That is what the YAML dump writes, since it runs with `sort_keys=False`.

## Model

| member | source | states |
|---|---|---|
| Text.NatToStringRoundTrip | scripts/fetch_downloads.py:120 | `str(n)` of a non-negative integer is a digit run that reads back as `n` |
| Text.NatToString | scripts/fetch_downloads.py:131 | `str(n)` of a non-negative integer is a non-empty run of digits with no leading zero unless it is `0` |
| Text.DecimalString | scripts/fetch_downloads.py:120 | `str(v)` starts with a minus sign exactly when `v` is negative, ends in a digit, and the digits after any sign are a numeral with no leading zero |
| Text.NumeralIsNatToString | scripts/fetch_downloads.py:120 | every digit run without a leading zero is `str` of the number it denotes, so `str` has exactly one spelling per number |
| Text.Pad2RoundTrip | scripts/fetch_downloads.py:171-172 | the two zero-padded digits `strftime` writes for `%m` and `%d` read back as the month or day |
| Text.Pad4RoundTrip | scripts/fetch_downloads.py:171-172 | the four zero-padded digits written for `%Y` read back as the year |
| Text.StrLessIrreflexive | scripts/fetch_downloads.py:164 | Python's string order is irreflexive, so sorting keys is well defined |
| Text.StrLessTransitive | scripts/fetch_downloads.py:164 | Python's string order is transitive |
| Text.StrLessTotal | scripts/fetch_downloads.py:164 | any two distinct strings are ordered one way or the other, so a greatest key exists |
| Text.StrLessSameLengthPrefix | scripts/fetch_downloads.py:164 | strings that start with parts of equal length compare on those parts first, then on the rest |
| Text.Pad2Order | scripts/fetch_downloads.py:171 | two-digit padded numbers compare as strings exactly as they compare as numbers |
| Text.Pad4Order | scripts/fetch_downloads.py:171 | four-digit padded numbers compare as strings exactly as they compare as numbers |
| Calendar.PrevDay | scripts/fetch_downloads.py:58 | one day back is a valid date whose day number is one less; it fails (OverflowError) only at 0001-01-01 |
| Calendar.PreviousMonthDates | scripts/fetch_downloads.py:54-60 | the window is the first to the last day of the month before `now` (December of the year before in January), and its last day is the day before the first of `now`'s month; it fails only for January of year 1 |
| Calendar.DateOrderIsChronological | scripts/fetch_downloads.py:90 | comparing datetimes field by field agrees with comparing day numbers |
| Calendar.WindowIsPreviousMonth | scripts/fetch_downloads.py:90 | a date passes the window test exactly when it falls in the previous calendar month |
| Calendar.PreviousMonthExamples | scripts/fetch_downloads.py:54-60 | clock readings in February, January and a leap March give January, the previous December and a 29-day February; January of year 1 fails |
| Calendar.FormatDate | scripts/fetch_downloads.py:171-172 | `strftime("%Y-%m-%d")` writes ten characters: four digits, `-`, two digits, `-`, two digits |
| Calendar.ParseMonth | scripts/fetch_downloads.py:87 | what `%m` accepts followed by `-` is a month from 1 to 12, and the rest of the input is shorter |
| Calendar.ParseDay | scripts/fetch_downloads.py:87 | what `%d` accepts with nothing left over is a day from 1 to 31 |
| Calendar.ParseDate | scripts/fetch_downloads.py:87 | a parsed key is always a valid date: year 1 or later and a day within its month |
| Calendar.ParseFormattedDate | scripts/fetch_downloads.py:171-172 | parsing what `strftime("%Y-%m-%d")` writes gives back the same date |
| Calendar.FormattedDateOrder | scripts/fetch_downloads.py:164 | written dates are less-than in string order exactly when the dates are strictly earlier |
| Calendar.ParseDateAccepts | scripts/fetch_downloads.py:87 | `2024-01-15`, the unpadded `2024-1-5` and the space-padded `2024-12- 5` all parse |
| Calendar.ParseDateLeapDay | scripts/fetch_downloads.py:87 | 29 February parses in 2024 and is rejected in 2023 |
| Calendar.ParseDateRejectsYearZero | scripts/fetch_downloads.py:99-101 | year 0000 raises ValueError |
| Calendar.ParseDateRejectsMonthThirteen | scripts/fetch_downloads.py:99-101 | month 13 raises ValueError |
| Calendar.ParseDateRejectsTrailing | scripts/fetch_downloads.py:99-101 | characters left after the day raise ValueError |
| Calendar.ParseDateRejectsText | scripts/fetch_downloads.py:99-101 | `invalid-date` raises ValueError |
| Humanize.HalfEven | scripts/fetch_downloads.py:125 | the quotient is rounded to the nearest whole number, with ties going to the even one |
| Humanize.HalfEvenExamples | scripts/fetch_downloads.py:125 | 1.5 and 2.5 thousands both round to 2; 999,999 rounds to 1000 thousands |
| Humanize.HumanizeNumber | scripts/fetch_downloads.py:117-146 | the text is never empty, and it ends in K, M or B exactly when the value is at least 1000 |
| Humanize.ReadHumanSpelling | scripts/fetch_downloads.py:117-146 | every text the reader accepts is the one spelling of what it reads: `str` of the number, or `str` of the count followed by the unit's letter; with the round-trip lemmas this fixes the exact text `humanize_number` writes |
| Humanize.ReadNatural | scripts/fetch_downloads.py:120 | an unsuffixed non-negative number reads back as itself |
| Humanize.ReadNegative | scripts/fetch_downloads.py:120 | a minus sign and digits read back as the negative number |
| Humanize.ReadSuffixed | scripts/fetch_downloads.py:131 | a count followed by K, M or B reads back as that count and unit |
| Humanize.HumanizeBelowThousand | scripts/fetch_downloads.py:119-120 | below 1000, negative values included, the value is written in full with no suffix |
| Humanize.HumanizeThousandsRange | scripts/fetch_downloads.py:123-131 | from 1000 up to a million: a rounded K count from 1 to 999, or `1M` from 999,500 |
| Humanize.HumanizeMillionsRange | scripts/fetch_downloads.py:132-140 | from one million up to a billion: a rounded M count from 1 to 999, or `1B` from 999,500,000 |
| Humanize.HumanizeBillionsRange | scripts/fetch_downloads.py:141-146 | from one billion up: a rounded B count of at least 1, with no cap |
| Humanize.HumanizeScaled | scripts/fetch_downloads.py:117-146 | from 1000 up, the output reads back as a count and unit: the value rounded half to even in that unit, at least 1, below 1000 for K and M, with the unit fixed by the thresholds 999,500 and 999,500,000 |
| Humanize.RoundedNeverZero | scripts/fetch_downloads.py:126-127 | the `rounded == 0` branches can never be taken |
| Humanize.HumanizeSmallExamples | scripts/fetch_downloads.py:119-120 | 500 and 999 are written `500` and `999` |
| Humanize.HumanizeThousandsExamples | scripts/fetch_downloads.py:123-131 | 1000, 1500 and 999,999 become `1K`, `2K` and `1M` |
| Humanize.HumanizeMillionsExamples | scripts/fetch_downloads.py:132-140 | 1,000,000, 1,500,000 and 999,999,999 become `1M`, `2M` and `1B` |
| Humanize.HumanizeBillionsExamples | scripts/fetch_downloads.py:141-146 | 10^9, 1.5·10^9 and 2.5·10^9 become `1B`, `2B` and `2B` |
| Downloads.DaySum | scripts/fetch_downloads.py:92-96 | a day's total is non-negative when all its numeric counts are |
| Downloads.QualifiesInPreviousMonth | scripts/fetch_downloads.py:87-91 | with the window returned for `now`, a day counts exactly when its key parses as a date in the calendar month before `now` and its value is a dict |
| Downloads.ProcessedDates | scripts/fetch_downloads.py:82-101 | the processed keys are no more than the days, and every one of them parses as a date |
| Downloads.MonthTotal | scripts/fetch_downloads.py:82-101 | when no day qualifies the running total stays 0 |
| Downloads.MonthlyDownloads | scripts/fetch_downloads.py:63-114 | the result is None exactly when `"downloads"` is missing or not a dict, the clock is in January of year 1, or no day qualifies; so a processed month summing to 0 gives Some(0) |
| Downloads.ExtractMonthlyDownloads | scripts/fetch_downloads.py:63-114 | the loop returns exactly the specified result: None without a dict `"downloads"`, for the year-1 OverflowError, or when no day was processed; otherwise the running total over the qualifying days |
| Downloads.ProcessedDatesMembers | scripts/fetch_downloads.py:98 | a key is recorded as processed exactly when some day with that key parses, falls in the window and has a dict value |
| Downloads.NoneProcessedIff | scripts/fetch_downloads.py:106-108 | nothing is processed exactly when no day qualifies |
| Downloads.MonthTotalAppend | scripts/fetch_downloads.py:97 | the month total over two runs of days is the sum of the two totals |
| Downloads.ProcessedDatesAppend | scripts/fetch_downloads.py:98 | the processed keys of two runs of days are the processed keys of each run, in order |
| Downloads.SkippedEntry | scripts/fetch_downloads.py:99-101 | a day that does not qualify changes neither the total nor the processed keys |
| Downloads.MonthTotalNonNegative | scripts/fetch_downloads.py:92-97 | with non-negative counts the monthly total is non-negative |
| Downloads.ParsedKeys | scripts/fetch_downloads.py:87 | the sample keys parse to their dates |
| Downloads.DaySumPair | scripts/fetch_downloads.py:92-96 | two numeric version counts sum to their total |
| Downloads.ExtractSumsPreviousMonth | scripts/fetch_downloads.py:85-110 | with the clock in February 2024, two January days with counts 100+50 and 200+75 give 425, and a February day is ignored |
| Downloads.ExtractWithoutTable | scripts/fetch_downloads.py:68-75 | a missing or non-dict `"downloads"` gives None |
| Downloads.ExtractNoDayInMonth | scripts/fetch_downloads.py:106-108 | a table with only a day outside the month gives None |
| Downloads.ExtractSkipsInvalidKey | scripts/fetch_downloads.py:99-101 | an invalid key is skipped and the valid day still counts |
| Downloads.ExtractZeroIsNotNone | scripts/fetch_downloads.py:91-110 | a processed day whose counts are all non-numeric gives Some(0), not None |
| Downloads.ExtractSkipsNonDictDay | scripts/fetch_downloads.py:91-108 | an in-window day whose value is not a dict is not processed, so the result is None |
| Output.SetItem | scripts/fetch_downloads.py:166 | after `d[k] = v`, `k` holds `v` and every other key keeps its presence and value; the old key order is a prefix of the new one, growing by one exactly when `k` is new, and then `k` is last |
| Output.SetItemKeepsValid | scripts/fetch_downloads.py:166 | an assignment keeps every key listed exactly once |
| Output.LookupDay | scripts/fetch_downloads.py:181 | indexing the table by a key finds a day exactly when some day has that key, and the value found is the one paired with the first day that has it |
| Output.DayKeys | scripts/fetch_downloads.py:162 | the key list has one key per day, in table order |
| Output.MaxKey | scripts/fetch_downloads.py:164-165 | the first key after a reverse sort is one of the keys and no key exceeds it |
| Output.GreatestKeyUnique | scripts/fetch_downloads.py:164-165 | only one key can be the greatest |
| Output.LatestKey | scripts/fetch_downloads.py:162-165 | the chosen most recent date is the greatest key of the table |
| Output.FormattedDateLeq | scripts/fetch_downloads.py:164 | for zero-padded date keys, string order and time order agree in both directions |
| Output.GreatestKeyIsLatestDate | scripts/fetch_downloads.py:160-166 | when every key is a zero-padded date, a key is the greatest exactly when its date is the latest |
| Output.UnpaddedKeysParse | scripts/fetch_downloads.py:87 | unpadded `2024-9-30` and padded `2024-10-01` both parse as dates |
| Output.UnpaddedKeysSortApart | scripts/fetch_downloads.py:164-165 | with unpadded keys the reverse string sort reports 2024-9-30 even though 2024-10-01 is later |
| Output.OutputKeysInFixedOrder | scripts/fetch_downloads.py:155-200 | whichever optional groups are written, the fields come in one fixed order, so no field is written twice |
| Output.OutputKeysWritten | scripts/fetch_downloads.py:160-200 | a field is in the insertion order exactly when its group is written |
| Output.WriteAllOrder | scripts/fetch_downloads.py:155-200 | writing distinct new keys appends them to the order in sequence |
| Output.WriteAllValues | scripts/fetch_downloads.py:155-200 | after the writes, a key is present exactly when it was present before or was written; each written key holds its value and the other keys are unchanged |
| Output.WriteAll | scripts/fetch_downloads.py:155-200 | a run of assignments keeps the earlier key order as a prefix and adds at most one key per assignment |
| Output.BuildOutput | scripts/fetch_downloads.py:155-200 | the dict's key order is exactly the fixed writing order for the optional groups present |
| Output.WriteRankedKeys | scripts/fetch_downloads.py:155-200 | keys of strictly increasing rank written into an empty dict give a well-formed dict in that order |
| Output.BuildOutputOrder | scripts/fetch_downloads.py:155-200 | the dict lists exactly the written fields, in writing order, each once |
| Output.BuildOutputValue | scripts/fetch_downloads.py:155-200 | a field is present exactly when it is written, and it holds the value computed for it |
| Output.BuildFixedFields | scripts/fetch_downloads.py:155-173 | the constant data source and package, the timestamp and the period are always there |
| Output.BuildMonthly | scripts/fetch_downloads.py:192-194 | the monthly count is always there, with its humanized companion |
| Output.BuildMostRecent | scripts/fetch_downloads.py:160-166 | `most_recent_data_date` is there exactly when a most recent date was found |
| Output.BuildDaily | scripts/fetch_downloads.py:175-190 | both daily fields are there exactly when a daily total was computed; they hold the total and its humanized form |
| Output.BuildTotal | scripts/fetch_downloads.py:196-200 | both all-time fields are there exactly when a total was given; they hold the total and its humanized form |
| Output.MostRecentDate | scripts/fetch_downloads.py:161-165 | there is a most recent date exactly when `"downloads"` is a non-empty dict, and it is its greatest key |
| Output.RecentTotal | scripts/fetch_downloads.py:176-187 | for the day key that no other key exceeds, the day exists; a daily total is computed exactly when its value is a dict; the total is the sum of that day's numeric counts |
| Output.CreateOutputData | scripts/fetch_downloads.py:149-202 | the function raises exactly when the clock is in January of year 1 or `"downloads"` is present but not a dict |
| Output.CreateOutputOrder | scripts/fetch_downloads.py:155-200 | the fields come out in writing order, each once: data source, timestamp, optional most recent date, package, period, optional daily pair, monthly pair, optional all-time pair |
| Output.CreateOutputFixedFields | scripts/fetch_downloads.py:155-194 | data source `pepy.tech_v2`, the given timestamp, package `holidays`, the previous month as the period written `%Y-%m-%d`, and the monthly count with its humanized form |
| Output.CreateOutputMostRecent | scripts/fetch_downloads.py:160-166 | `most_recent_data_date` is written exactly when `"downloads"` has a key, and it is the key that no other key exceeds in string order |
| Output.CreateOutputDaily | scripts/fetch_downloads.py:175-190 | for the most recent day, both daily fields are written exactly when its value is a dict; they hold the sum of its numeric counts and that sum humanized |
| Output.CreateOutputTotal | scripts/fetch_downloads.py:196-200 | both all-time fields are written exactly when the response has `"total_downloads"`; they hold it and its humanized form |
| Output.ReportingPeriodReadsBack | scripts/fetch_downloads.py:170-173 | the period's start and end parse back as the first and last day of the previous month, and the start does not sort after the end |

## Left out

- `fetch_download_data` (scripts/fetch_downloads.py:27-51): its environment variable, HTTPS request and JSON decoding are I/O. The model starts from the decoded response.
- `save_yaml_data` (scripts/fetch_downloads.py:205-215): file I/O and YAML serialization. The model stops at the record, with its field order.
- `main` (scripts/fetch_downloads.py:218-241): it only sequences the steps above and maps failures to exit codes.
- Logging: it has no effect on any result.
- The clock: `datetime.now(timezone.utc)` becomes the `now` parameter, and the `isoformat()` timestamp becomes the opaque `lastUpdated` string.
- Floating-point counts: a count is an integer (`Num`) or any other JSON value (`NonNumeric`), which `sum` skips. A float that `int()` truncates is not modelled. JSON booleans decode as Python ints and are covered by `Num`.
- `"total_downloads"` is an integer in the model. Other JSON values are not modelled. A float or a boolean is humanized through `str` or float rounding: 999.5 gives `999.5`, 1500.0 gives `2K`, and true gives `True`. Null, a string, a list or an object makes `humanize_number` raise TypeError.
- The decoded response is a JSON object in the model. In the source, any other JSON value makes `data.keys()` at scripts/fetch_downloads.py:66 raise AttributeError, which lines 112-114 turn into None. That path is not modelled.
- Humanize.HalfEven: `round(value / 1000)` is computed on exact integers. The source divides in floating point, which agrees for every value below 2^53 and may differ for larger ones.
- Calendar.ParseDate: digits are ASCII `0`–`9` only. Python's `\d` also matches other Unicode decimal digits.
- Calendar.FormatDate: years are written with four zero-padded digits. The platform `strftime` may leave years below 1000 unpadded.
- The response dict's keys are distinct in Python. The model's day table does not require this. Lookups take the first pair with the key, and the loop visits every pair.
- The holiday-update checker `.github/actions/check-holiday-updates/check_holiday_updates.py` is not part of this model.
