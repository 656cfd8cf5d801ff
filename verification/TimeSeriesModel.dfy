/** Points of the time-series store, their order, and how far a bounded series can be trusted. */
module TimeSeriesModel {
  import opened Sequences
  import opened Sorting
  import opened BoundedSeries
  import Strings

  /** Nanoseconds since Go's zero time, so that 0 is the time whose `IsZero` holds. */
  type Time = int
  type Duration = int

  const SECOND: Duration := 1_000_000_000
  const MINUTE: Duration := 60 * SECOND
  const HOUR: Duration := 60 * MINUTE

  datatype Point = Point(deviceId: string, property: string, timestamp: Time, value: real,
                         stringValue: string, boolValue: bool, dataType: string, unit: string)

  datatype SeriesKey = SeriesKey(deviceId: string, property: string)

  function SeriesOf(p: Point): SeriesKey { SeriesKey(p.deviceId, p.property) }

  /** What a series is ordered by. */
  datatype Key = Key(timestamp: Time, stringValue: string)

  function KeyOf(p: Point): Key { Key(p.timestamp, p.stringValue) }

  predicate KeyLess(a: Key, b: Key) {
    if a.timestamp == b.timestamp then Strings.Less(a.stringValue, b.stringValue)
    else a.timestamp < b.timestamp
  }

  predicate PointLess(a: Point, b: Point) { KeyLess(KeyOf(a), KeyOf(b)) }

  lemma SeriesOrder()
    ensures TotalOrder(KeyLess) && StrictWeakOrder(PointLess)
    ensures ComparesKeys(PointLess, KeyOf, KeyLess)
  {
    Strings.LessIsStrictTotalOrder();
  }

  predicate InRange(start: Time, end: Time, p: Point) { start <= p.timestamp <= end }

  function Between(s: seq<Point>, start: Time, end: Time): seq<Point> {
    Filter(s, p => InRange(start, end, p))
  }

  /** Earlier points come first, and of points of one time those with the smaller string. */
  lemma KeyOrderMeans(a: Key, b: Key)
    ensures KeyLess(a, b) <==> a.timestamp < b.timestamp
                               || (a.timestamp == b.timestamp
                                   && exists n: nat :: Strings.DiffersFirst(a.stringValue, b.stringValue, n))
  {
    Strings.LessIffDiffersFirst(a.stringValue, b.stringValue);
  }

  /** Both ends of a range belong to it. */
  lemma BetweenMeans(s: seq<Point>, start: Time, end: Time, p: Point)
    ensures p in Between(s, start, end) <==> p in s && start <= p.timestamp && p.timestamp <= end
  {
    FilterMember(s, q => InRange(start, end, q), p);
  }

  /** Up to the limit all keys are kept.  Beyond it, exactly the limit-1 greatest keys of all
      writes but the last, and the last write whatever its key. */
  lemma SeriesRetention(log: seq<Point>, s: seq<Point>, limit: nat)
    requires limit > 0 && Reachable(PointLess, log, s, limit)
    ensures Sorted(s, PointLess) && |s| == Min(|log|, limit) && multiset(s) <= multiset(log)
    ensures |log| <= limit ==> Map(s, KeyOf) == SortKeys(KeyLess, Map(log, KeyOf))
    ensures |log| > limit ==>
              Map(s, KeyOf) == InsertKey(KeyLess,
                                         LastUpTo(SortKeys(KeyLess, Map(log[..|log| - 1], KeyOf)), limit - 1),
                                         KeyOf(Last(log)))
  {
    SeriesOrder();
    ReachableRetains(PointLess, log, s, limit);
    RetentionClosedForm(PointLess, KeyOf, KeyLess, log, s, limit);
  }

  /** The series answers the range exactly as the full log would. */
  ghost predicate AgreesWithLog(log: seq<Point>, s: seq<Point>, start: Time, end: Time) {
    multiset(Between(s, start, end)) == multiset(Between(log, start, end))
  }

  /** A series below its limit has no horizon; a full one answers for everything that starts
      strictly after its second timestamp. */
  predicate PastHorizon(s: seq<Point>, limit: nat, start: Time) {
    |s| < limit || (|s| >= 2 && start > s[1].timestamp)
  }

  /** However late points arrived, a range past the horizon is answered in full. */
  lemma AgreesPastHorizon(log: seq<Point>, s: seq<Point>, limit: nat, start: Time, end: Time)
    requires limit > 0 && Reachable(PointLess, log, s, limit) && PastHorizon(s, limit, start)
    ensures AgreesWithLog(log, s, start, end)
  {
    SeriesOrder();
    ReachableRetains(PointLess, log, s, limit);
    if |s| < limit {
      NothingDropped(s, log);
    } else {
      forall d | d in Dropped(log, s) ensures !InRange(start, end, d) {
        DroppedBelowHorizon(PointLess, log, s, limit, d);
      }
    }
    FilterAgreesIffNothingDropped(log, s, p => InRange(start, end, p));
  }

  /** Every point of the log belongs to the series of some point of s; the store files in one series
      only points of one device and property. */
  ghost predicate OfSameSeries(log: seq<Point>, s: seq<Point>) {
    forall p :: p in log ==> exists q :: q in s && SeriesOf(p) == SeriesOf(q)
  }

  /** From what a series shows, agreement is certain for exactly the ranges past the horizon and
      those that are empty: any other range misses a point in some run of writes to this series that
      ends as it is. */
  lemma HorizonIsExact(s: seq<Point>, limit: nat, start: Time, end: Time)
    requires 0 < limit && |s| <= limit && Sorted(s, PointLess)
    ensures (forall log: seq<Point> :: Reachable(PointLess, log, s, limit) && OfSameSeries(log, s) ==>
                                         AgreesWithLog(log, s, start, end))
       <==> PastHorizon(s, limit, start) || end < start
  {
    if PastHorizon(s, limit, start) || end < start {
      forall log: seq<Point> | Reachable(PointLess, log, s, limit) && OfSameSeries(log, s)
        ensures AgreesWithLog(log, s, start, end)
      {
        if PastHorizon(s, limit, start) {
          AgreesPastHorizon(log, s, limit, start, end);
        } else {
          NothingBetween(s, start, end);
          NothingBetween(log, start, end);
        }
      }
    } else {
      var log := MissedAtHorizon(s, limit, start, end);
    }
  }

  lemma NothingBetween(s: seq<Point>, start: Time, end: Time)
    requires end < start
    ensures Between(s, start, end) == []
  {
    if Between(s, start, end) != [] {
      FilterMember(s, p => InRange(start, end, p), Between(s, start, end)[0]);
    }
  }

  /** The missed point: an earlier copy of the second one, moved into the range. */
  lemma MissedAtHorizon(s: seq<Point>, limit: nat, start: Time, end: Time) returns (log: seq<Point>)
    requires 0 < limit == |s| && Sorted(s, PointLess) && start <= end
    requires limit >= 2 ==> start <= s[1].timestamp
    ensures Reachable(PointLess, log, s, limit) && OfSameSeries(log, s) && !AgreesWithLog(log, s, start, end)
  {
    SeriesOrder();
    var d := if limit == 1 then s[0].(timestamp := start)
             else s[1].(timestamp := Sequences.Min(s[1].timestamp, end));
    if limit >= 2 && d != s[1] {
      assert PointLess(d, s[1]);
    }
    assert SeriesOf(d) == SeriesOf(s[if limit == 1 then 0 else 1]);
    log := HorizonWitness(PointLess, s, limit, d);
    WitnessOfSameSeries(log, s, d);
    ReachableRetains(PointLess, log, s, limit);
    FilterAgreesIffNothingDropped(log, s, p => InRange(start, end, p));
  }

  lemma WitnessOfSameSeries(log: seq<Point>, s: seq<Point>, d: Point)
    requires s != [] && log == [d] + s[1..] + [s[0]] && exists q :: q in s && SeriesOf(d) == SeriesOf(q)
    ensures OfSameSeries(log, s)
  {
    forall p | p in log ensures exists q :: q in s && SeriesOf(p) == SeriesOf(q) {
      assert p == d || p in s[1..] || p == s[0];
      assert p != d ==> p in s;
    }
  }

  ghost predicate InTimeOrder(s: seq<Point>) {
    forall i, j :: 0 <= i < j < |s| ==> s[i].timestamp <= s[j].timestamp
  }

  /** Points in key order are in time order. */
  lemma SortedByTime(s: seq<Point>)
    requires Sorted(s, PointLess)
    ensures InTimeOrder(s)
  {
    forall i, j | 0 <= i < j < |s| ensures s[i].timestamp <= s[j].timestamp {
      assert !PointLess(s[j], s[i]);
    }
  }

  lemma {:induction false} FilterSorted(s: seq<Point>, p: Point -> bool)
    requires InTimeOrder(s)
    ensures InTimeOrder(Filter(s, p))
  {
    if s != [] {
      var s' := s[..|s| - 1];
      FilterSorted(s', p);
      forall i | 0 <= i < |Filter(s', p)| ensures Filter(s', p)[i].timestamp <= Last(s).timestamp {
        FilterMember(s', p, Filter(s', p)[i]);
        assert Filter(s', p)[i] in s';
      }
    }
  }

  /** A range of a series is in time order. */
  lemma BetweenInTimeOrder(s: seq<Point>, start: Time, end: Time)
    requires Sorted(s, PointLess)
    ensures InTimeOrder(Between(s, start, end))
  {
    SortedByTime(s);
    FilterSorted(s, p => InRange(start, end, p));
    assert Between(s, start, end) == Filter(s, p => InRange(start, end, p));
  }
}
