/**
 * Stage 1: the streaming day-bucket aggregator.
 *
 * The location history is read newest first. Every record read is counted;
 * the first record older than the start threshold ends the scan; every record
 * the geofence places at work widens the bucket of its local calendar date so
 * that `arrived` is the earliest and `left` the latest at-work time of that day.
 *
 * The geofence test and the local-date conversion are parameters: `atWork`
 * is the verdict of the distance test for a location, `dateOf` the local
 * `(year, month, day)` of a millisecond timestamp.
 */
module Scan {
  import opened Wrappers
  import opened Dates

  /** Records with a timestamp below this many milliseconds end the scan. */
  const StartThresholdMs: int := 1508882400000

  /** A fix in fixed-point degrees (`latitudeE7`, `longitudeE7`). */
  datatype Location = Location(latitudeE7: int, longitudeE7: int)

  /** One item of `locations`: `timestampMs` and the fix. */
  datatype LocationRecord = LocationRecord(timestampMs: int, location: Location)

  /**
   * `DayAtTheOffice`: earliest and latest at-work time of one day, in
   * milliseconds. `None` is the sentinel the bucket is created with
   * (`d.max` for `arrived`, `d.min` for `left`).
   */
  datatype DayAtTheOffice = DayAtTheOffice(arrived: Option<int>, left: Option<int>)

  /** An at-work record as the buckets see it: its date and its time. */
  datatype Observation = Observation(date: DateKey, timestampMs: int)

  /**
   * Index of the record that ends the scan: the first one below the
   * threshold, or `|records|` when there is none.
   */
  function StopIndex(records: seq<LocationRecord>): (i: nat)
    ensures i <= |records|
    ensures forall j :: 0 <= j < i ==> records[j].timestampMs >= StartThresholdMs
    ensures i < |records| ==> records[i].timestampMs < StartThresholdMs
  {
    if records == [] then 0
    else if records[0].timestampMs < StartThresholdMs then 0
    else 1 + StopIndex(records[1..])
  }

  /** The at-work observations among `records`. */
  ghost function Observations(records: seq<LocationRecord>, atWork: Location -> bool, dateOf: int -> DateKey): set<Observation>
  {
    set j | 0 <= j < |records| && atWork(records[j].location)
      :: Observation(dateOf(records[j].timestampMs), records[j].timestampMs)
  }

  /**
   * `days` holds exactly the buckets that the observations `seen` call for:
   * one per observed date, holding the earliest and the latest observed time
   * of that date.
   */
  ghost predicate Summarises(days: map<DateKey, DayAtTheOffice>, seen: set<Observation>)
  {
    && (forall k :: k in days ==> days[k].arrived.Some? && days[k].left.Some?)
    && (forall k :: k in days ==>
          Observation(k, days[k].arrived.value) in seen && Observation(k, days[k].left.value) in seen)
    && (forall o :: o in seen ==>
          o.date in days && days[o.date].arrived.value <= o.timestampMs <= days[o.date].left.value)
  }

  /**
   * Reading one more record adds its observation when it is at work and
   * changes nothing otherwise.
   */
  lemma ObservationsAppend(records: seq<LocationRecord>, r: LocationRecord, atWork: Location -> bool, dateOf: int -> DateKey)
    ensures Observations(records + [r], atWork, dateOf)
         == Observations(records, atWork, dateOf)
            + (if atWork(r.location) then {Observation(dateOf(r.timestampMs), r.timestampMs)} else {})
  {
    var rs := records + [r];
    forall o | o in Observations(rs, atWork, dateOf)
      ensures o in Observations(records, atWork, dateOf)
              || (atWork(r.location) && o == Observation(dateOf(r.timestampMs), r.timestampMs))
    {
      var j :| 0 <= j < |rs| && atWork(rs[j].location)
               && o == Observation(dateOf(rs[j].timestampMs), rs[j].timestampMs);
      if j < |records| {
        assert rs[j] == records[j];
      }
    }
    forall o | o in Observations(records, atWork, dateOf)
      ensures o in Observations(rs, atWork, dateOf)
    {
      var j :| 0 <= j < |records| && atWork(records[j].location)
               && o == Observation(dateOf(records[j].timestampMs), records[j].timestampMs);
      assert rs[j] == records[j];
    }
    if atWork(r.location) {
      assert rs[|records|] == r;
    }
  }

  /**
   * The buckets are determined by the set of observations alone: two maps
   * that both summarise `seen` are equal.
   */
  lemma BucketsDetermined(d1: map<DateKey, DayAtTheOffice>, d2: map<DateKey, DayAtTheOffice>, seen: set<Observation>)
    requires Summarises(d1, seen) && Summarises(d2, seen)
    ensures d1 == d2
  {
    forall k | k in d1 ensures k in d2 && d1[k] == d2[k] {
      var a, l := d1[k].arrived.value, d1[k].left.value;
      assert Observation(k, a) in seen && Observation(k, l) in seen;
      var a', l' := d2[k].arrived.value, d2[k].left.value;
      assert Observation(k, a') in seen && Observation(k, l') in seen;
    }
    forall k | k in d2 ensures k in d1 {
      assert Observation(k, d2[k].arrived.value) in seen;
    }
  }

  /** Reordering the processed records leaves their observations unchanged. */
  lemma ObservationsIgnoreOrder(r1: seq<LocationRecord>, r2: seq<LocationRecord>, atWork: Location -> bool, dateOf: int -> DateKey)
    requires multiset(r1) == multiset(r2)
    ensures Observations(r1, atWork, dateOf) == Observations(r2, atWork, dateOf)
  {
    forall o | o in Observations(r1, atWork, dateOf) ensures o in Observations(r2, atWork, dateOf) {
      var j :| 0 <= j < |r1| && atWork(r1[j].location)
               && o == Observation(dateOf(r1[j].timestampMs), r1[j].timestampMs);
      assert r1[j] in multiset(r2);
      var i :| 0 <= i < |r2| && r2[i] == r1[j];
    }
    forall o | o in Observations(r2, atWork, dateOf) ensures o in Observations(r1, atWork, dateOf) {
      var j :| 0 <= j < |r2| && atWork(r2[j].location)
               && o == Observation(dateOf(r2[j].timestampMs), r2[j].timestampMs);
      assert r2[j] in multiset(r1);
      var i :| 0 <= i < |r1| && r1[i] == r2[j];
    }
  }

  /**
   * The scan never resumes: once a record below the threshold has been
   * met, whatever follows it does not move the stopping point.
   */
  lemma {:induction false} StopIsFinal(records: seq<LocationRecord>, tail: seq<LocationRecord>)
    requires StopIndex(records) < |records|
    ensures StopIndex(records + tail) == StopIndex(records)
    ensures (records + tail)[..StopIndex(records)] == records[..StopIndex(records)]
  {
    if records[0].timestampMs >= StartThresholdMs {
      assert (records + tail)[1..] == records[1..] + tail;
      StopIsFinal(records[1..], tail);
    }
  }

  /**
   * Folding one at-work observation into its bucket: a new date gets a bucket
   * holding that time for both ends, a known date lowers `arrived` and raises
   * `left` as needed. Either way the map then summarises the observations
   * with the new one added.
   */
  lemma WidenKeepsSummary(days: map<DateKey, DayAtTheOffice>, seen: set<Observation>, date: DateKey, t: int, day: DayAtTheOffice)
    requires Summarises(days, seen)
    requires date !in days ==> day == DayAtTheOffice(Some(t), Some(t))
    requires date in days ==>
      var a, l := days[date].arrived.value, days[date].left.value;
      day == DayAtTheOffice(Some(if a <= t then a else t), Some(if l >= t then l else t))
    ensures Summarises(days[date := day], seen + {Observation(date, t)})
  {
    var days', seen' := days[date := day], seen + {Observation(date, t)};
    forall k | k in days'
      ensures Observation(k, days'[k].arrived.value) in seen' && Observation(k, days'[k].left.value) in seen'
    {
      if k != date {
        assert days'[k] == days[k];
      }
    }
    forall o | o in seen'
      ensures o.date in days' && days'[o.date].arrived.value <= o.timestampMs <= days'[o.date].left.value
    {
      if o != Observation(date, t) {
        assert o in seen;
      }
    }
  }

  /**
   * The record loop: count every record read, stop at the first one below
   * the threshold (it is counted), and fold every at-work record before it
   * into the bucket of its date.
   */
  method ScanRecords(records: seq<LocationRecord>, atWork: Location -> bool, dateOf: int -> DateKey)
    returns (n: nat, days: map<DateKey, DayAtTheOffice>)
    ensures n == if StopIndex(records) < |records| then StopIndex(records) + 1 else |records|
    ensures Summarises(days, Observations(records[..StopIndex(records)], atWork, dateOf))
    ensures forall k :: k in days ==>
      days[k].arrived.Some? && days[k].left.Some? && days[k].arrived.value <= days[k].left.value
  {
    n := 0;
    days := map[];
    for i := 0 to |records|
      invariant i <= StopIndex(records)
      invariant n == i
      invariant Summarises(days, Observations(records[..i], atWork, dateOf))
    {
      var rec := records[i];
      n := n + 1;
      if rec.timestampMs < StartThresholdMs {
        break;
      }
      ObservationsAppend(records[..i], rec, atWork, dateOf);
      assert records[..i + 1] == records[..i] + [rec];
      if atWork(rec.location) {
        var date := dateOf(rec.timestampMs);
        var day := if date in days then days[date] else DayAtTheOffice(None, None);
        if day.arrived.None? || day.arrived.value > rec.timestampMs {
          day := day.(arrived := Some(rec.timestampMs));
        }
        if day.left.None? || day.left.value < rec.timestampMs {
          day := day.(left := Some(rec.timestampMs));
        }
        WidenKeepsSummary(days, Observations(records[..i], atWork, dateOf), date, rec.timestampMs, day);
        days := days[date := day];
      }
    }
  }
}
