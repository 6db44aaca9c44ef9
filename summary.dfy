/**
 * Stage 2: the summariser.
 *
 * The buckets are visited in ascending date order; each day's span
 * `left - arrived` is split into whole hours and remaining minutes, days of
 * more than two whole hours are kept, and their mean is split the same way.
 * Durations are kept exactly, in milliseconds.
 */
module Summary {
  import opened Wrappers
  import opened Dates
  import opened Scan

  /** Milliseconds in an hour. */
  const HourMs: int := 3600000

  /** A duration as printed: whole hours and remaining whole minutes. */
  datatype HoursMinutes = HoursMinutes(hours: int, minutes: int)

  /** One line of the per-day listing. */
  datatype DayReport = DayReport(date: DateKey, arrived: int, left: int, workedMs: int, worked: HoursMinutes)

  /** Averaging over an empty list of days divides by zero. */
  datatype SummaryError = DivisionByZero

  /**
   * `int(s / 3600)` and `int((s % 3600) / 60)` for a duration of
   * `s = num / den` seconds. Python's `int` truncates toward zero and its `%`
   * takes the sign of the divisor, so the minutes are never negative.
   */
  function SplitSeconds(num: int, den: int): HoursMinutes
    requires den > 0
  {
    var hour := 3600 * den;
    var floorHours := num / hour;
    HoursMinutes(if num < 0 && num % hour != 0 then floorHours + 1 else floorHours,
                 (num % hour) / (60 * den))
  }

  /** A product with a positive factor is positive only if the other factor is. */
  lemma PositiveFactor(x: int, u: int)
    requires u > 0 && x * u > 0
    ensures x > 0
  {
  }

  /**
   * The hours are the duration truncated to whole hours, the minutes the
   * whole minutes left over (counted up from the hour below for a negative
   * duration).
   */
  lemma SplitSecondsBounds(num: int, den: int)
    requires den > 0
    ensures 0 <= SplitSeconds(num, den).minutes < 60
    ensures num >= 0 ==>
      SplitSeconds(num, den).hours * (3600 * den) <= num < (SplitSeconds(num, den).hours + 1) * (3600 * den)
    ensures num >= 0 ==>
      var r := SplitSeconds(num, den);
      r.hours * (3600 * den) + r.minutes * (60 * den) <= num < r.hours * (3600 * den) + (r.minutes + 1) * (60 * den)
    ensures num < 0 ==>
      (SplitSeconds(num, den).hours - 1) * (3600 * den) < num <= SplitSeconds(num, den).hours * (3600 * den)
  {
    var hour, minute := 3600 * den, 60 * den;
    var q, rem := num / hour, num % hour;
    var m := rem / minute;
    var r := SplitSeconds(num, den);
    DivBounds(num, hour);
    DivBounds(rem, minute);
    assert r.minutes == m;
    assert m < 60 by {
      assert (60 - m) * minute == hour - m * minute;
      PositiveFactor(60 - m, minute);
    }
    if num >= 0 {
      assert r.hours == q;
      assert (q + 1) * hour == q * hour + hour;
      assert (m + 1) * minute == m * minute + minute;
    } else if rem != 0 {
      assert r.hours == q + 1;
      assert (q + 1) * hour == q * hour + hour;
    } else {
      assert r.hours == q;
      assert (q - 1) * hour == q * hour - hour;
    }
  }

  /** Euclidean division by a positive divisor brackets the dividend. */
  lemma DivBounds(n: int, d: int)
    requires d > 0
    ensures (n / d) * d <= n < (n / d) * d + d
    ensures n % d == n - (n / d) * d
    ensures n >= 0 ==> n / d >= 0
  {
  }

  /** A day counts towards the average exactly when it lasted three hours or more. */
  lemma EligibleIffThreeHours(ms: int)
    ensures SplitSeconds(ms, 1000).hours > 2 <==> ms >= 3 * HourMs
  {
    SplitSecondsBounds(ms, 1000);
  }

  /** `worked_seconds`: the durations of the listed days of more than two whole hours, in listing order. */
  function EligibleDurations(report: seq<DayReport>): (w: seq<int>)
    ensures |w| <= |report|
  {
    if report == [] then []
    else
      var last := report[|report| - 1];
      EligibleDurations(report[..|report| - 1]) + (if last.worked.hours > 2 then [last.workedMs] else [])
  }

  /**
   * The eligible durations are exactly those of the listed days of more than
   * two whole hours.
   */
  lemma {:induction false} EligibleDurationsMembers(report: seq<DayReport>)
    ensures forall d :: d in EligibleDurations(report) ==>
      exists i :: 0 <= i < |report| && report[i].workedMs == d && report[i].worked.hours > 2
    ensures forall i :: 0 <= i < |report| && report[i].worked.hours > 2 ==>
      report[i].workedMs in EligibleDurations(report)
  {
    if report != [] {
      var front := report[..|report| - 1];
      EligibleDurationsMembers(front);
      forall d | d in EligibleDurations(report)
        ensures exists i :: 0 <= i < |report| && report[i].workedMs == d && report[i].worked.hours > 2
      {
        if d in EligibleDurations(front) {
          var i :| 0 <= i < |front| && front[i].workedMs == d && front[i].worked.hours > 2;
          assert report[i] == front[i];
        } else {
          assert report[|report| - 1].workedMs == d;
        }
      }
      forall i | 0 <= i < |report| && report[i].worked.hours > 2
        ensures report[i].workedMs in EligibleDurations(report)
      {
        if i < |front| {
          assert front[i] == report[i];
        }
      }
    }
  }

  /** Listing one more day appends its duration to the eligible ones exactly when it is eligible. */
  lemma EligibleDurationsAppend(report: seq<DayReport>, line: DayReport)
    ensures EligibleDurations(report + [line])
         == EligibleDurations(report) + (if line.worked.hours > 2 then [line.workedMs] else [])
  {
    assert (report + [line])[..|report|] == report;
  }

  /** Python's `sum`: left to right from zero. */
  function Sum(w: seq<int>): int
  {
    if w == [] then 0 else Sum(w[..|w| - 1]) + w[|w| - 1]
  }

  /** A sum of values that are all at least `lo` is at least `|w| * lo`. */
  lemma {:induction false} SumAtLeast(w: seq<int>, lo: int)
    requires forall i :: 0 <= i < |w| ==> w[i] >= lo
    ensures Sum(w) >= |w| * lo
  {
    if w != [] {
      SumAtLeast(w[..|w| - 1], lo);
      assert |w| * lo == (|w| - 1) * lo + lo;
    }
  }

  /**
   * `sum(worked_seconds) / len(worked_seconds)` split into hours and minutes;
   * an empty list is the division by zero.
   */
  function Average(w: seq<int>): (r: Result<HoursMinutes, SummaryError>)
    ensures r.Failure? <==> w == []
    ensures r.Failure? ==> r.error == DivisionByZero
    ensures r.Success? && Sum(w) >= 0 ==>
      var total, c := Sum(w), |w|;
      (r.value.hours * 60 + r.value.minutes) * (60000 * c) <= total
      && total < (r.value.hours * 60 + r.value.minutes + 1) * (60000 * c)
      && 0 <= r.value.minutes < 60
  {
    if |w| == 0 then Failure(DivisionByZero)
    else
      var c := |w|;
      var r := SplitSeconds(Sum(w), 1000 * c);
      SplitSecondsBounds(Sum(w), 1000 * c);
      assert r.hours * (3600 * (1000 * c)) + r.minutes * (60 * (1000 * c)) == (r.hours * 60 + r.minutes) * (60000 * c);
      assert (r.hours * 60 + r.minutes + 1) * (60000 * c) == (r.hours * 60 + r.minutes) * (60000 * c) + 60000 * c;
      Success(r)
  }

  /** The mean of durations of three hours or more is itself at least three hours. */
  lemma AverageOfEligibleAtLeastThreeHours(w: seq<int>)
    requires w != []
    requires forall i :: 0 <= i < |w| ==> w[i] >= 3 * HourMs
    ensures Average(w).Success? && Average(w).value.hours >= 3
  {
    SumAtLeast(w, 3 * HourMs);
    var c := |w|;
    var r := SplitSeconds(Sum(w), 1000 * c);
    var unit := 3600 * (1000 * c);
    SplitSecondsBounds(Sum(w), 1000 * c);
    assert 3 * HourMs * c == 3 * unit;
    assert (r.hours + 1) * unit - 3 * unit == (r.hours - 2) * unit;
    PositiveFactor(r.hours - 2, unit);
  }

  /** The listing line of one bucket (`t = left - arrived` and its split). */
  function LineOf(date: DateKey, day: DayAtTheOffice): DayReport
    requires day.arrived.Some? && day.left.Some?
  {
    var t := day.left.value - day.arrived.value;
    DayReport(date, day.arrived.value, day.left.value, t, SplitSeconds(t, 1000))
  }

  /** The listed dates are strictly ascending. */
  ghost predicate ListedInOrder(report: seq<DayReport>)
  {
    forall i, j :: 0 <= i < j < |report| ==> Before(report[i].date, report[j].date)
  }

  /** Every line shows a bucket's times, its span `left - arrived` and that span split. */
  ghost predicate ListedLines(report: seq<DayReport>, days: map<DateKey, DayAtTheOffice>)
  {
    forall i :: 0 <= i < |report| ==>
      && report[i].date in days
      && days[report[i].date].arrived.Some? && days[report[i].date].left.Some?
      && report[i].arrived == days[report[i].date].arrived.value
      && report[i].left == days[report[i].date].left.value
      && report[i].workedMs == report[i].left - report[i].arrived
      && report[i].worked == SplitSeconds(report[i].workedMs, 1000)
  }

  /**
   * `report` lists every bucket of `days` exactly once, in strictly ascending
   * date order, each line with the bucket's times, its duration
   * `left - arrived` and that duration split into hours and minutes.
   */
  ghost predicate Lists(report: seq<DayReport>, days: map<DateKey, DayAtTheOffice>)
  {
    && |report| == |days|
    && ListedInOrder(report)
    && (forall k :: k in days <==> exists i :: 0 <= i < |report| && report[i].date == k)
    && ListedLines(report, days)
  }

  /** The lines for `keys`, one per key, in the order of `keys`. */
  function Listing(keys: seq<DateKey>, days: map<DateKey, DayAtTheOffice>): (report: seq<DayReport>)
    requires forall k :: k in keys ==> k in days && days[k].arrived.Some? && days[k].left.Some?
    ensures |report| == |keys|
  {
    if keys == [] then []
    else
      var last := keys[|keys| - 1];
      Listing(keys[..|keys| - 1], days) + [LineOf(last, days[last])]
  }

  /** Listing one more key appends its line. */
  lemma ListingExtend(keys: seq<DateKey>, days: map<DateKey, DayAtTheOffice>, i: int)
    requires forall k :: k in keys ==> k in days && days[k].arrived.Some? && days[k].left.Some?
    requires 0 <= i < |keys|
    ensures Listing(keys[..i + 1], days) == Listing(keys[..i], days) + [LineOf(keys[i], days[keys[i]])]
  {
    assert keys[..i + 1][..i] == keys[..i];
    assert keys[i] in keys;
  }

  /** Line `i` of a listing is the line of key `i`. */
  lemma {:induction false} ListingAt(keys: seq<DateKey>, days: map<DateKey, DayAtTheOffice>, i: int)
    requires forall k :: k in keys ==> k in days && days[k].arrived.Some? && days[k].left.Some?
    requires 0 <= i < |keys|
    ensures Listing(keys, days)[i] == LineOf(keys[i], days[keys[i]])
  {
    if i < |keys| - 1 {
      var front := keys[..|keys| - 1];
      assert forall k :: k in front ==> k in keys;
      ListingAt(front, days, i);
      assert front[i] == keys[i];
    }
  }

  /** The lines of a listing carry the dates of its keys. */
  lemma ListingDates(keys: seq<DateKey>, days: map<DateKey, DayAtTheOffice>)
    requires forall k :: k in keys ==> k in days && days[k].arrived.Some? && days[k].left.Some?
    ensures forall i :: 0 <= i < |keys| ==> Listing(keys, days)[i].date == keys[i]
    ensures ListedLines(Listing(keys, days), days)
  {
    var report := Listing(keys, days);
    forall i | 0 <= i < |report|
      ensures report[i].date == keys[i] && keys[i] in days
      ensures days[keys[i]].arrived.Some? && days[keys[i]].left.Some?
      ensures report[i].arrived == days[keys[i]].arrived.value
      ensures report[i].left == days[keys[i]].left.value
      ensures report[i].workedMs == report[i].left - report[i].arrived
      ensures report[i].worked == SplitSeconds(report[i].workedMs, 1000)
    {
      assert keys[i] in keys;
      ListingAt(keys, days, i);
    }
  }

  /**
   * Listing keys that are the buckets' dates, each once and in ascending
   * order, lists every bucket once, in ascending date order, with its times
   * and its duration.
   */
  lemma ListingSortedKeys(days: map<DateKey, DayAtTheOffice>, keys: seq<DateKey>)
    requires forall k :: k in days ==> days[k].arrived.Some? && days[k].left.Some?
    requires |keys| == |days| && Ascending(keys) && forall k :: k in keys <==> k in days
    ensures Lists(Listing(keys, days), days)
  {
    var report := Listing(keys, days);
    ListingDates(keys, days);
    assert ListedInOrder(report) by {
      forall i, j | 0 <= i < j < |report| ensures Before(report[i].date, report[j].date) {
        assert Before(keys[i], keys[j]);
      }
    }
    forall k | k in days ensures exists i :: 0 <= i < |report| && report[i].date == k {
      assert k in keys;
      var i :| 0 <= i < |keys| && keys[i] == k;
      assert report[i].date == k;
    }
  }

  /**
   * `sorted(days.keys())`, as the summary loop sees it. `SortedKeys` is the
   * definition; this wrapper only keeps that recursive term out of the loop's
   * proof context, where it makes verification needlessly expensive.
   */
  method SortDates(days: map<DateKey, DayAtTheOffice>) returns (keys: seq<DateKey>)
    ensures |keys| == |days| && Ascending(keys)
    ensures forall k :: k in keys <==> k in days
  {
    keys := SortedKeys(days.Keys);
    assert |days.Keys| == |days|;
  }

  /**
   * What the summary reports about buckets whose `arrived` never exceeds
   * `left`: no negative span, an average that fails exactly when no day
   * lasted three hours, and an average of at least three hours otherwise.
   */
  lemma SummaryOfOrderedBuckets(days: map<DateKey, DayAtTheOffice>, report: seq<DayReport>)
    requires forall k :: k in days ==>
      days[k].arrived.Some? && days[k].left.Some? && days[k].arrived.value <= days[k].left.value
    requires Lists(report, days)
    ensures forall i :: 0 <= i < |report| ==> report[i].workedMs >= 0
    ensures Average(EligibleDurations(report)).Failure?
            <==> forall i :: 0 <= i < |report| ==> report[i].workedMs < 3 * HourMs
    ensures Average(EligibleDurations(report)).Success? ==> Average(EligibleDurations(report)).value.hours >= 3
  {
    var w := EligibleDurations(report);
    EligibleDurationsMembers(report);
    forall i | 0 <= i < |report|
      ensures report[i].worked.hours > 2 <==> report[i].workedMs >= 3 * HourMs
    {
      EligibleIffThreeHours(report[i].workedMs);
    }
    if w != [] {
      forall j | 0 <= j < |w| ensures w[j] >= 3 * HourMs {
        assert w[j] in w;
      }
      AverageOfEligibleAtLeastThreeHours(w);
      assert w[0] in w;
    }
  }

  /**
   * The summary loop: one report line per bucket in ascending date order,
   * the eligible durations in that order, and their average (or the error).
   */
  method Summarize(days: map<DateKey, DayAtTheOffice>)
    returns (report: seq<DayReport>, workedMs: seq<int>, average: Result<HoursMinutes, SummaryError>)
    requires forall k :: k in days ==> days[k].arrived.Some? && days[k].left.Some?
    ensures Lists(report, days)
    ensures workedMs == EligibleDurations(report)
    ensures average == Average(workedMs)
  {
    var keys := SortDates(days);
    report, workedMs := [], [];
    for i := 0 to |keys|
      invariant report == Listing(keys[..i], days)
      invariant workedMs == EligibleDurations(report)
    {
      var k := keys[i];
      var arrived, left := days[k].arrived.value, days[k].left.value;
      var t := left - arrived;
      var worked := SplitSeconds(t, 1000);
      if worked.hours > 2 {
        workedMs := workedMs + [t];
      }
      var line := DayReport(k, arrived, left, t, worked);
      EligibleDurationsAppend(report, line);
      ListingExtend(keys, days, i);
      report := report + [line];
    }
    assert keys[..|keys|] == keys;
    ListingSortedKeys(days, keys);
    average := Average(workedMs);
  }
}
