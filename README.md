# Work-time calculator: day buckets and average working day

A model of the engine of `worktime_calculator.py` (its `main()`) and of
`commute-time.py` (its module-level script). The two files run the same
two-stage computation over a location-history export:

1. **Record loop.** The records are read newest first, and every record read
   is counted. The first record whose `timestampMs` is below `1508882400000`
   stops the loop (`break`); that record is counted too. Every earlier record
   that the geofence places at work goes into the bucket of its local date.
   `setdefault` creates a `DayAtTheOffice` with the sentinels
   `datetime.max` / `datetime.min`. Two independent strict comparisons then
   lower `arrived` and raise `left`.
2. **Summary loop.** The buckets are visited in ascending `(year, month, day)`
   order. Each day's span `left - arrived` is split into `int(s / 3600)`
   hours and `int((s % 3600) / 60)` minutes. A day is kept when its hour count
   is `> 2`. The kept spans are averaged with `sum / len`.

Modules:

- `Wrappers` holds `Option` and `Result`.
- `Dates` holds the date key, Python's tuple order and `sorted` over a set of keys.
- `Scan` is stage 1. `ScanRecords` is the loop as a method with invariants.
  `Summarises` states what the buckets hold. `Observations` is the set of
  `(date, timestamp)` pairs of the at-work records read before the break.
- `Summary` is stage 2. `Summarize` is the loop. `SplitSeconds`,
  `EligibleDurations`, `Sum` and `Average` are the arithmetic of the listing
  and of the average.
- `WorktimeCalculator.RunMain` and `CommuteTime.RunScript` are the two
  files' entry points. Each is one stage followed by the other.

Abstractions:

- Timestamps are exact integers of milliseconds.
- The geofence verdict `at_work(location)` is a parameter
  `atWork: Location -> bool`.
- The local calendar date of a timestamp is a parameter
  `dateOf: int -> DateKey`.
- The sentinels a fresh bucket starts with are `None`: "no time yet".
- An average with no kept day is `Failure(DivisionByZero)`, where the
  source raises `ZeroDivisionError`.

Facts about the two scripts that shape the model:

- A day counts only from 3 whole hours on, because the test is
  `worked_hours > 2` on the truncated hour count. A day of 2 h 30 min does
  not count (`EligibleIffThreeHours`).
- The start threshold `1508882400000` ms is hard-coded.
- `at_work` tests one work point.
- `at_home` is defined but never called, so no home bucket or commute time
  is computed.
- The average is not guarded. With no kept day the source raises
  `ZeroDivisionError`, which the model returns as `Failure(DivisionByZero)`.

## Model

| member | source | states |
|---|---|---|
| `Dates.SortedKeys` | worktime_calculator.py:81 | `sorted(days.keys())` lists every key of the set exactly once (same length, same members), in strictly ascending lexicographic `(year, month, day)` order |
| `Dates.Earliest` | commute-time.py:79 | the least date of a non-empty set of keys under tuple order: it is in the set and precedes every other member |
| `Dates.HasEarliest` | worktime_calculator.py:81 | every non-empty finite set of date tuples has a least element under Python's tuple order, so sorting is well defined |
| `Dates.BeforeIsStrictTotalOrder` | commute-time.py:79 | tuple comparison on date keys is irreflexive, transitive and total |
| `Scan.StopIndex` | worktime_calculator.py:62-64 | the loop stops at the first record with `timestampMs < 1508882400000`: every record before that index is at or above the threshold, and the record at the index is below it |
| `Scan.StopIsFinal` | commute-time.py:60-62 | the scan never resumes: once a record below the threshold has been met, appending any records after it changes neither the stopping point nor the prefix that is processed |
| `Scan.ScanRecords` | worktime_calculator.py:56-75 | `n` counts every record read, including the one that triggers the break. The buckets are exactly those called for by the at-work records before the break: one per date with such a record, `arrived` the earliest and `left` the latest of their times, and `arrived <= left` |
| `Scan.ObservationsAppend` | worktime_calculator.py:70-71 | reading one more record adds its `(date, time)` when it is at work and changes nothing when it is not |
| `Scan.WidenKeepsSummary` | commute-time.py:68-73 | `setdefault` followed by the two independent strict comparisons keeps the buckets equal to the earliest and latest time per date once the new at-work time is added. A first hit replaces both sentinels with the same time |
| `Scan.BucketsDetermined` | worktime_calculator.py:71-75 | any two bucket maps that summarise the same set of at-work `(date, time)` pairs are equal, so the final buckets depend only on that set and not on the order or repetition of records |
| `Scan.ObservationsIgnoreOrder` | commute-time.py:53-73 | reordering the processed records (a permutation) leaves their at-work `(date, time)` set unchanged, so together with `BucketsDetermined` the buckets do not depend on record order |
| `Summary.SplitSecondsBounds` | commute-time.py:83-84 | for a span of `s` seconds, `int(s / 3600)` truncates toward zero: `h*3600 <= s < (h+1)*3600` when `s >= 0`, and `(h-1)*3600 < s <= h*3600` when `s < 0`. The minutes `int((s % 3600) / 60)` lie in `[0, 60)`. For `s >= 0`, `h*3600 + m*60 <= s < h*3600 + (m+1)*60` |
| `Summary.EligibleIffThreeHours` | worktime_calculator.py:85-87 | a day passes the `worked_hours > 2` test if and only if its span is at least 3 hours |
| `Summary.EligibleDurations` | worktime_calculator.py:87-88 | `worked_seconds` holds at most one span per listed day |
| `Summary.EligibleDurationsMembers` | commute-time.py:85-86 | a span is in `worked_seconds` exactly when some listed day has that span and more than two whole hours |
| `Summary.SumAtLeast` | worktime_calculator.py:96 | a `sum` of values that are each at least `lo` is at least `len * lo` |
| `Summary.Average` | worktime_calculator.py:96-99 | `sum / len` fails with division by zero exactly when the list is empty. Otherwise, for a non-negative sum, the reported hours and minutes are the mean truncated to whole minutes: `(60h + m)` minutes `<=` mean `<` `(60h + m + 1)` minutes, with `0 <= m < 60` |
| `Summary.AverageOfEligibleAtLeastThreeHours` | commute-time.py:94-97 | the average of a non-empty list of spans that are each at least 3 hours succeeds and reports at least 3 hours |
| `Summary.ListingSortedKeys` | commute-time.py:79-84 | one line per sorted key lists every bucket exactly once, in strictly ascending date order. Each line carries the bucket's `arrived` and `left`, the span `left - arrived`, and that span split into hours and minutes |
| `Summary.SummaryOfOrderedBuckets` | worktime_calculator.py:82-96 | over buckets with `arrived <= left`, no listed span is negative. The average fails exactly when no day lasted 3 hours, and otherwise it is at least 3 hours |
| `Summary.Summarize` | worktime_calculator.py:80-96 | the summary lists every bucket once in ascending date order, with its times, its span and the split. It collects the eligible spans in listing order and returns their average, or the division-by-zero error |
| `WorktimeCalculator.RunMain` | worktime_calculator.py:53-99 | `main()` end to end: the count, the buckets, and the listing of the record loop followed by the summary. No span is negative. The average fails exactly when no day reached 3 hours, and otherwise is at least 3 hours |
| `CommuteTime.RunScript` | commute-time.py:44-97 | the script end to end, with the same promises as `RunMain`: count, buckets, ordered listing, non-negative spans, division by zero exactly when no day reached 3 hours, and an average of at least 3 hours otherwise |

## Left out

- The distance test is left out: `DistanceHelper`, `distance`, `at_work` (worktime_calculator.py:15-29) and `distance`, `at_work` with the global `coefficients` (commute-time.py:23-37). It is floating-point arithmetic, and the model takes its verdict as the parameter `atWork`. In the source, `math.cos` is applied to a latitude in degrees as if it were radians. The two files also take the reference latitude from different points: home in worktime_calculator.py:17, work in commute-time.py:24.
- `at_home` (worktime_calculator.py:28, commute-time.py:39) is defined but never called.
- The `try`/`except ValueError` in commute-time.py:30-34 is left out. It is error handling around float math, and its format string has four placeholders for two arguments, so the handler would fail itself.
- The fixed-point conversion `latitudeE7 / 10000000.` is left out. It is float arithmetic that only feeds the distance test.
- `datetime.fromtimestamp` and the local calendar date are left out. Both depend on the time zone, so the date is the parameter `dateOf`.
- Summary.Summarize: spans are computed on the epoch timestamps. The source subtracts naive local datetimes, which differ by the change of UTC offset on a daylight-saving transition day.
- Summary.SplitSeconds: spans and averages are exact rationals. The source divides floats (`total_seconds()`, `/ 3600`, `sum / len`), and float rounding is not modelled.
- Summary.Summarize: requires every bucket to hold both times, and assumes the first at-work record of a date replaces both sentinels. That holds where `.timestamp()` of `datetime.max` and `datetime.min` succeeds, as in UTC. The conversion goes through the local time zone, so east of UTC (for `max`) or west of UTC (for `min`) the source can raise `ValueError` at worktime_calculator.py:72 or 74 (commute-time.py:70 or 72) on its first at-work record. The model does not represent that error.
- `DayAtTheOffice` (worktime_calculator.py:32-35, commute-time.py:46-49) is a value in the map. The source updates the object's fields in place, while the model rebinds the map entry. Only the dictionary refers to each bucket, so no aliasing is lost.
- Parsing is left out: `int(rec['timestampMs'])` on a malformed record, the ijson reader, and the argparse `lat:lon` float parsing. These are I/O, and a record reaches the model already decoded.
- Every `print` and `strftime` call is left out, including the progress line every 10000 records. They are output only and change no state.
