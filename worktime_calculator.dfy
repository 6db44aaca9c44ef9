/**
 * `main()` of worktime_calculator.py: scan the location history into day
 * buckets, then list the days and their average.
 */
module WorktimeCalculator {
  import opened Wrappers
  import opened Dates
  import opened Scan
  import opened Summary

  /**
   * The record loop followed by the summary loop, with `at_work` and the
   * local-date conversion given as `atWork` and `dateOf`.
   */
  method RunMain(records: seq<LocationRecord>, atWork: Location -> bool, dateOf: int -> DateKey)
    returns (n: nat, days: map<DateKey, DayAtTheOffice>, report: seq<DayReport>,
             workedMs: seq<int>, average: Result<HoursMinutes, SummaryError>)
    ensures n == if StopIndex(records) < |records| then StopIndex(records) + 1 else |records|
    ensures Summarises(days, Observations(records[..StopIndex(records)], atWork, dateOf))
    ensures Lists(report, days)
    ensures forall i :: 0 <= i < |report| ==> report[i].workedMs >= 0
    ensures workedMs == EligibleDurations(report)
    ensures average == Average(workedMs)
    ensures average.Failure? <==> forall i :: 0 <= i < |report| ==> report[i].workedMs < 3 * HourMs
    ensures average.Success? ==> average.value.hours >= 3
  {
    n, days := ScanRecords(records, atWork, dateOf);
    report, workedMs, average := Summarize(days);
    SummaryOfOrderedBuckets(days, report);
  }
}
