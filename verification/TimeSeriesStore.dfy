/** The in-memory time-series store and the service in front of it. */
module TimeSeriesStore {
  import opened Sequences
  import opened Sorting
  import opened BoundedSeries
  import opened TimeSeriesModel
  import opened TimeSeriesAggregation
  import opened TimeSeriesGaps
  import opened TimeSeriesLog

  datatype Query = Query(deviceId: string, property: string, start: Time, end: Time, limit: int, descending: bool)

  /** The logs after a batch: every point joins the log of its own series, in batch order. */
  function Logged(logs: map<SeriesKey, seq<Point>>, batch: seq<Point>): map<SeriesKey, seq<Point>> {
    if batch == [] then logs
    else
      var before, p := Logged(logs, batch[..|batch| - 1]), Last(batch);
      before[SeriesOf(p) := At(before, SeriesOf(p)) + [p]]
  }

  lemma {:induction false} LogOfSeries(logs: map<SeriesKey, seq<Point>>, batch: seq<Point>, k: SeriesKey)
    ensures At(Logged(logs, batch), k) == At(logs, k) + Filter(batch, p => SeriesOf(p) == k)
  {
    if batch != [] {
      LogOfSeries(logs, batch[..|batch| - 1], k);
    }
  }

  predicate LaterFirst(a: Point, b: Point) { a.timestamp > b.timestamp }
  predicate EarlierFirst(a: Point, b: Point) { a.timestamp < b.timestamp }
  predicate StartsFirst(a: AggregateResult, b: AggregateResult) { a.start < b.start }

  class Store {
    var points: map<SeriesKey, seq<Point>>
    const limit: nat
    /** Everything ever written, per series, in arrival order. */
    ghost var logs: map<SeriesKey, seq<Point>>

    ghost predicate Valid()
      reads this
    {
      limit > 0 && Follow(PointLess, logs, points, limit)
    }

    constructor (retentionSeriesLimit: int)
      ensures Valid() && points == map[] && logs == map[]
      ensures limit == if retentionSeriesLimit <= 0 then 20000 else retentionSeriesLimit
    {
      limit := if retentionSeriesLimit <= 0 then 20000 else retentionSeriesLimit;
      points, logs := map[], map[];
    }

    method Write(batch: seq<Point>)
      requires Valid()
      modifies this
      ensures Valid() && logs == Logged(old(logs), batch)
    {
      for i := 0 to |batch|
        invariant Valid() && logs == Logged(old(logs), batch[..i])
      {
        assert batch[..i + 1][..i] == batch[..i];
        WritePoint(batch[i]);
      }
      assert batch[..|batch|] == batch;
    }

    /** One turn of the write loop. */
    method WritePoint(p: Point)
      requires Valid()
      modifies this
      ensures Valid() && logs == old(logs)[SeriesOf(p) := At(old(logs), SeriesOf(p)) + [p]]
    {
      var key := SeriesOf(p);
      var series := NextSeries(At(points, key), p, limit);
      WriteFollows(PointLess, logs, points, limit, key, p, series);
      points := points[key := series];
      logs := logs[key := At(logs, key) + [p]];
    }

    /** Ascending or descending, a cut answer keeps the oldest points of the range; past the horizon
        the oldest ever written there, and uncut all of them. */
    method Query(q: Query) returns (out: seq<Point>)
      requires Valid() && q.limit >= 0
      ensures !q.descending ==>
                out == First(Between(At(points, SeriesKey(q.deviceId, q.property)), q.start, q.end), q.limit)
      ensures IsOldest(Between(At(points, SeriesKey(q.deviceId, q.property)), q.start, q.end), out, q.limit)
      ensures InQueryOrder(q.descending, out)
      ensures PastHorizon(At(points, SeriesKey(q.deviceId, q.property)), limit, q.start) ==>
                IsOldest(Between(At(logs, SeriesKey(q.deviceId, q.property)), q.start, q.end), out, q.limit)
      ensures PastHorizon(At(points, SeriesKey(q.deviceId, q.property)), limit, q.start)
              && |Between(At(points, SeriesKey(q.deviceId, q.property)), q.start, q.end)| <= q.limit
              ==> multiset(out) == multiset(Between(At(logs, SeriesKey(q.deviceId, q.property)), q.start, q.end))
      ensures IsNewest(Between(At(points, SeriesKey(q.deviceId, q.property)), q.start, q.end), out, q.limit)
         <==> OldestAreNewest(Between(At(points, SeriesKey(q.deviceId, q.property)), q.start, q.end), q.limit)
    {
      var key := SeriesKey(q.deviceId, q.property);
      SeriesFacts(key, q.start, q.end);
      out := Select(At(points, key), q.start, q.end);
      ghost var all := out;
      if q.descending {
        out := Slice(out, LaterFirst);
      }
      ghost var ordered := out;
      if |out| > q.limit {
        if q.descending {
          out := out[|out| - q.limit..];
        } else {
          out := out[..q.limit];
        }
      }
      CutKeepsOldest(all, ordered, out, q.limit, q.descending);
      OldestIsNewestIff(all, out, q.limit);
      if PastHorizon(At(points, key), limit, q.start) {
        OldestOfPermutation(all, Between(At(logs, key), q.start, q.end), out, q.limit);
      }
    }

    lemma SeriesFacts(k: SeriesKey, start: Time, end: Time)
      requires Valid()
      ensures InTimeOrder(At(points, k)) && InQueryOrder(false, Between(At(points, k), start, end))
      ensures PastHorizon(At(points, k), limit, start) ==> AgreesWithLog(At(logs, k), At(points, k), start, end)
    {
      if k in points {
        SeriesRetention(logs[k], points[k], limit);
        SortedByTime(points[k]);
        BetweenInTimeOrder(points[k], start, end);
        if PastHorizon(points[k], limit, start) {
          AgreesPastHorizon(logs[k], points[k], limit, start, end);
        }
      }
    }

    /** Past the horizon the aggregation is one of everything ever written, however late. */
    method Aggregate(req: AggregateRequest) returns (results: seq<AggregateResult>)
      requires Valid()
      ensures IsAggregation(At(points, SeriesKey(req.deviceId, req.property)), req, results)
      ensures PastHorizon(At(points, SeriesKey(req.deviceId, req.property)), limit, req.start) ==>
                IsAggregationOfLog(At(logs, SeriesKey(req.deviceId, req.property)), req, results)
    {
      SeriesFacts(SeriesKey(req.deviceId, req.property), req.start, req.end);
      var series := At(points, SeriesKey(req.deviceId, req.property));
      var buckets := Accumulate(series, req);
      ghost var totals := buckets;
      if req.kind == Avg {
        buckets := DivideByCount(buckets);
      }
      results := ListBuckets(buckets);
      ghost var listed := results;
      results := Slice(results, StartsFirst);
      Finish(series, req, totals, buckets, listed, results);
      if PastHorizon(series, limit, req.start) {
        AggregationOfLog(At(logs, SeriesKey(req.deviceId, req.property)), series, req, results);
      }
    }

    method DetectGaps(req: GapRequest) returns (gaps: seq<Gap>)
      requires Valid()
      ensures InOrder(Times(Between(At(points, SeriesKey(req.deviceId, req.property)), req.start, req.end)))
      ensures gaps == GapsOf(req, Times(Between(At(points, SeriesKey(req.deviceId, req.property)), req.start, req.end)))
      ensures PastHorizon(At(points, SeriesKey(req.deviceId, req.property)), limit, req.start) ==>
                AgreesWithLog(At(logs, SeriesKey(req.deviceId, req.property)),
                              At(points, SeriesKey(req.deviceId, req.property)), req.start, req.end)
    {
      var key := SeriesKey(req.deviceId, req.property);
      SeriesFacts(key, req.start, req.end);
      var filtered := Select(At(points, key), req.start, req.end);
      ghost var all := filtered;
      filtered := Slice(filtered, EarlierFirst);
      SortedTimesUnique(all, filtered);
      gaps := CollectGaps(req, filtered);
    }

    lemma SeriesSize(k: SeriesKey)
      requires Valid()
      ensures |At(points, k)| == Sequences.Min(|At(logs, k)|, limit)
    {
      if k in points {
        SeriesRetention(logs[k], points[k], limit);
      }
    }

    method Close()
      requires Valid()
      modifies this
      ensures Valid() && points == map[] && logs == map[]
    {
      points, logs := map[], map[];
    }
  }

  method NextSeries(s: seq<Point>, p: Point, limit: nat) returns (series: seq<Point>)
    ensures WriteStep(PointLess, s, p, series, limit)
  {
    series := s + [p];
    if |series| > limit {
      series := series[|series| - limit..];
    }
    SeriesOrder();
    series := Slice(series, PointLess);
  }

  // ----- the loops of the read operations -----

  method Select(series: seq<Point>, start: Time, end: Time) returns (out: seq<Point>)
    ensures out == Between(series, start, end)
  {
    out := [];
    for i := 0 to |series|
      invariant out == Between(series[..i], start, end)
    {
      assert series[..i + 1][..i] == series[..i];
      if series[i].timestamp < start || series[i].timestamp > end {
        continue;
      }
      out := out + [series[i]];
    }
    assert series[..|series|] == series;
  }

  method CollectGaps(req: GapRequest, filtered: seq<Point>) returns (gaps: seq<Gap>)
    ensures gaps == GapsOf(req, Times(filtered))
  {
    gaps := [];
    ghost var ts := Times(filtered);
    var threshold := GoDiv(req.expectedInterval * 3, 2);
    if filtered == [] {
      return;
    }
    for i := 1 to |filtered|
      invariant gaps == GapsOf(req, ts[..i])
    {
      assert ts[..i + 1][..i] == ts[..i];
      var gapDuration := filtered[i].timestamp - filtered[i - 1].timestamp;
      if gapDuration > threshold {
        gaps := gaps + [Gap(req.deviceId, req.property, filtered[i - 1].timestamp, filtered[i].timestamp,
                            gapDuration, req.expectedInterval)];
      }
    }
    assert ts[..|filtered|] == ts;
  }

  /** The accumulating loop of `Aggregate`. */
  method Accumulate(series: seq<Point>, req: AggregateRequest) returns (buckets: map<Time, AggregateResult>)
    ensures Accumulated(series, req, buckets)
  {
    buckets := map[];
    for i := 0 to |series|
      invariant Accumulated(series[..i], req, buckets)
    {
      var p := series[i];
      assert series[..i + 1] == series[..i] + [p];
      if p.timestamp < req.start || p.timestamp > req.end {
        SkipPoint(series[..i], req, buckets, p);
        continue;
      }
      var b := Truncate(p.timestamp, req.bucket);
      var r := if b in buckets then buckets[b] else AggregateResult(b, b + req.bucket, p.value, 0);
      var next := AddValue(req.kind, r, p);
      AddPoint(series[..i], req, buckets, p, next);
      buckets := buckets[b := next];
    }
    assert series[..|series|] == series;
  }

  method AddValue(kind: AggregateKind, prev: AggregateResult, p: Point) returns (r: AggregateResult)
    ensures Adds(kind, prev, p, r)
  {
    r := prev;
    match kind {
      case Min => if p.value < r.value { r := r.(value := p.value); }
      case Max => if p.value > r.value { r := r.(value := p.value); }
      case Sum => r := r.(value := r.value + p.value);
      case Avg => r := r.(value := r.value + p.value);
      case Count => r := r.(value := (r.count + 1) as real);
      case _ =>
    }
    r := r.(count := r.count + 1);
  }

  method DivideByCount(totals: map<Time, AggregateResult>) returns (buckets: map<Time, AggregateResult>)
    ensures buckets.Keys == totals.Keys && forall b :: b in totals ==> buckets[b] == Averaged(totals[b])
  {
    buckets := totals;
    var todo := buckets.Keys;
    while todo != {}
      invariant todo <= buckets.Keys == totals.Keys
      invariant forall b :: b in buckets ==> buckets[b] == if b in todo then totals[b] else Averaged(totals[b])
    {
      ghost var some := SomeMember(todo);
      var b :| b in todo;
      var r := buckets[b];
      if r.count > 0 {
        buckets := buckets[b := r.(value := r.value / r.count as real)];
      }
      todo := todo - {b};
    }
  }

  method ListBuckets(buckets: map<Time, AggregateResult>) returns (rs: seq<AggregateResult>)
    requires forall b :: b in buckets ==> buckets[b].start == b
    ensures Lists(rs, buckets, buckets.Keys)
  {
    rs := [];
    var left := buckets.Keys;
    ghost var done: set<Time> := {};
    while left != {}
      invariant left + done == buckets.Keys && left !! done
      invariant Lists(rs, buckets, done)
    {
      ghost var some := SomeMember(left);
      var b :| b in left;
      ListOne(rs, buckets, done, b);
      rs := rs + [buckets[b]];
      left, done := left - {b}, done + {b};
    }
  }

  // ----- the oldest points of a range -----

  ghost predicate InQueryOrder(descending: bool, s: seq<Point>) {
    forall i, j :: 0 <= i < j < |s| ==>
      if descending then s[i].timestamp >= s[j].timestamp else s[i].timestamp <= s[j].timestamp
  }

  /** `out` holds as many points of `all` as the limit allows, and none left out is older. */
  ghost predicate IsOldest(all: seq<Point>, out: seq<Point>, limit: nat) {
    && multiset(out) <= multiset(all) && |out| == Sequences.Min(|all|, limit)
    && NoneOlder(multiset(all) - multiset(out), multiset(out))
  }

  ghost predicate NoneOlder(rest: multiset<Point>, out: multiset<Point>) {
    forall x, y :: x in rest && y in out ==> y.timestamp <= x.timestamp
  }

  /** `out` holds as many points of `all` as the limit allows, and none left out is newer. */
  ghost predicate IsNewest(all: seq<Point>, out: seq<Point>, limit: nat) {
    && multiset(out) <= multiset(all) && |out| == Sequences.Min(|all|, limit)
    && NoneOlder(multiset(out), multiset(all) - multiset(out))
  }

  /** Everything fits, nothing is asked for, or all points are of one time. */
  ghost predicate OldestAreNewest(all: seq<Point>, limit: nat) {
    |all| <= limit || limit == 0 || forall x, y :: x in all && y in all ==> x.timestamp == y.timestamp
  }

  lemma PartsOf(all: seq<Point>, out: seq<Point>, x: Point)
    requires multiset(out) <= multiset(all)
    ensures x in all <==> x in multiset(out) || x in multiset(all) - multiset(out)
  {
    assert x in all <==> x in multiset(all);
  }

  /** The answer to a query is also the newest points of its range only if the limit cuts nothing
      off, or time cannot tell the points apart. */
  lemma OldestIsNewestIff(all: seq<Point>, out: seq<Point>, limit: nat)
    requires IsOldest(all, out, limit)
    ensures IsNewest(all, out, limit) <==> OldestAreNewest(all, limit)
  {
    var rest := multiset(all) - multiset(out);
    assert multiset(all) == multiset(out) + rest && |rest| == |all| - |out|;
    forall x ensures x in all <==> x in multiset(out) || x in rest {
      PartsOf(all, out, x);
    }
    if IsNewest(all, out, limit) && |all| > limit > 0 {
      var r :| r in rest;
      assert out[0] in multiset(out);
      forall x | x in all ensures x.timestamp == r.timestamp {
        assert out[0].timestamp == r.timestamp;
      }
    }
  }

  lemma OldestOfPermutation(all: seq<Point>, log: seq<Point>, out: seq<Point>, limit: nat)
    requires multiset(all) == multiset(log) && IsOldest(all, out, limit)
    ensures IsOldest(log, out, limit)
  {
    SameSize(all, log);
  }

  /** Asked for the latest of two points, the store answers with the earlier one. */
  method LatestIsMissed(p: Point, q: Point) returns (out: seq<Point>)
    requires SeriesOf(p) == SeriesOf(q) && p.timestamp < q.timestamp
    ensures out == [p]
  {
    var store := new Store(0);
    store.Write([p, q]);
    LogOfPair(p, q);
    store.SeriesSize(SeriesOf(p));
    out := store.Query(Query(p.deviceId, p.property, p.timestamp, q.timestamp, 1, true));
    OldestOfTwo(p, q, out);
  }

  lemma FilterPair<T>(x: T, y: T, f: T -> bool)
    requires f(x) && f(y)
    ensures Filter([x, y], f) == [x, y]
  {
    var none: seq<T> := [];
    FilterSnoc(none, x, f);
    FilterSnoc([x], y, f);
    assert none + [x] == [x] && [x] + [y] == [x, y];
  }

  lemma LogOfPair(p: Point, q: Point)
    requires SeriesOf(p) == SeriesOf(q) && p.timestamp < q.timestamp
    ensures At(Logged(map[], [p, q]), SeriesOf(p)) == [p, q]
    ensures Between([p, q], p.timestamp, q.timestamp) == [p, q]
  {
    LogOfSeries(map[], [p, q], SeriesOf(p));
    FilterPair(p, q, x => SeriesOf(x) == SeriesOf(p));
    FilterPair(p, q, x => InRange(p.timestamp, q.timestamp, x));
  }

  lemma OldestOfTwo(p: Point, q: Point, out: seq<Point>)
    requires p.timestamp < q.timestamp && IsOldest([p, q], out, 1)
    ensures out == [p]
  {
    PartsOf([p, q], out, p);
    PartsOf([p, q], out, q);
    assert out[0] in multiset(out);
  }

  lemma CutKeepsOldest(all: seq<Point>, ordered: seq<Point>, out: seq<Point>, limit: nat, descending: bool)
    requires multiset(ordered) == multiset(all) && InQueryOrder(descending, ordered)
    requires out == if descending then LastUpTo(ordered, limit) else First(ordered, limit)
    ensures IsOldest(all, out, limit) && InQueryOrder(descending, out)
    ensures |all| <= limit ==> multiset(out) == multiset(all)
  {
    SameSize(ordered, all);
    if |ordered| > limit {
      var cut := if descending then |ordered| - limit else limit;
      SplitAt(ordered, cut);
      SplitKeepsOldest(if descending then ordered[..cut] else ordered[cut..], out, ordered, descending);
    }
  }

  lemma SplitKeepsOldest(rest: seq<Point>, out: seq<Point>, ordered: seq<Point>, descending: bool)
    requires InQueryOrder(descending, ordered) && ordered == if descending then rest + out else out + rest
    ensures multiset(out) <= multiset(ordered) && multiset(ordered) - multiset(out) == multiset(rest)
    ensures NoneOlder(multiset(rest), multiset(out))
  {
    forall x, y | x in multiset(rest) && y in multiset(out) ensures y.timestamp <= x.timestamp {
      var i :| 0 <= i < |rest| && rest[i] == x;
      var j :| 0 <= j < |out| && out[j] == y;
      if descending {
        assert ordered[i] == x && ordered[|rest| + j] == y;
      } else {
        assert ordered[|out| + i] == x && ordered[j] == y;
      }
    }
  }

  lemma SortedTimesUnique(a: seq<Point>, b: seq<Point>)
    requires multiset(a) == multiset(b)
    requires forall i, j :: 0 <= i < j < |a| ==> a[i].timestamp <= a[j].timestamp
    requires Sorted(b, EarlierFirst)
    ensures Times(a) == Times(b) && InOrder(Times(a))
  {
    var less := (x: int, y: int) => x < y;
    MapPermutation(a, b, (p: Point) => p.timestamp);
    assert Sorted(Times(b), less) by {
      forall i, j | 0 <= i < j < |b| ensures !less(Times(b)[j], Times(b)[i]) {
        assert !EarlierFirst(b[j], b[i]);
      }
    }
    SortedUnique(less, Times(a), Times(b));
  }

  // ----- the accumulating loop of Aggregate -----

  /** What a bucket holds while points are still being added; averages are divided last. */
  ghost predicate Running(kind: AggregateKind, g: seq<real>, value: real)
    requires g != []
  {
    Summarises(if kind == Avg then Sum else kind, g, value)
  }

  ghost predicate Accumulated(s: seq<Point>, req: AggregateRequest, buckets: map<Time, AggregateResult>) {
    forall b :: (b in buckets <==> Group(s, req, b) != []) && (b in buckets ==> HoldsGroup(s, req, b, buckets[b]))
  }

  ghost predicate HoldsGroup(s: seq<Point>, req: AggregateRequest, b: Time, r: AggregateResult)
    requires Group(s, req, b) != []
  {
    && r.start == b && r.end == b + req.bucket && r.count == |Group(s, req, b)|
    && Running(req.kind, Values(Group(s, req, b)), r.value)
  }

  lemma GroupSnoc(s: seq<Point>, req: AggregateRequest, p: Point, b: Time)
    ensures Group(s + [p], req, b) == if InBucket(req, b, p) then Group(s, req, b) + [p] else Group(s, req, b)
  {
    FilterSnoc(s, p, q => InBucket(req, b, q));
  }

  lemma SkipPoint(s: seq<Point>, req: AggregateRequest, buckets: map<Time, AggregateResult>, p: Point)
    requires Accumulated(s, req, buckets) && !InRange(req.start, req.end, p)
    ensures Accumulated(s + [p], req, buckets)
  {
    forall b ensures Group(s + [p], req, b) == Group(s, req, b) {
      GroupSnoc(s, req, p, b);
    }
  }

  /** The bucket of p after p is added, from the bucket before (seeded with p when there was none). */
  ghost predicate Adds(kind: AggregateKind, prev: AggregateResult, p: Point, r: AggregateResult) {
    && r.start == prev.start && r.end == prev.end && r.count == prev.count + 1
    && match kind
       case Min => r.value == if p.value < prev.value then p.value else prev.value
       case Max => r.value == if p.value > prev.value then p.value else prev.value
       case Sum => r.value == prev.value + p.value
       case Avg => r.value == prev.value + p.value
       case Count => r.value == (prev.count + 1) as real
       case _ => r.value == prev.value
  }

  lemma ValuesSnoc(g: seq<Point>, p: Point)
    ensures Values(g + [p]) == Values(g) + [p.value]
    ensures Total(Values(g + [p])) == Total(Values(g)) + p.value
  {
    assert Values(g + [p]) == Values(g) + [p.value];
    assert (Values(g) + [p.value])[..|g|] == Values(g);
  }

  lemma AddToGroup(kind: AggregateKind, g: seq<Point>, prev: AggregateResult, p: Point, r: AggregateResult)
    requires Adds(kind, prev, p, r) && prev.count == |g|
    requires if g == [] then prev.value == p.value else Running(kind, Values(g), prev.value)
    ensures Running(kind, Values(g + [p]), r.value)
  {
    ValuesSnoc(g, p);
    if kind == Min || kind == Max {
      ExtremeSnoc(Values(g), p.value);
    }
  }

  lemma ExtremeSnoc(vs: seq<real>, v: real)
    ensures vs == [] ==> IsLeast(v, vs + [v]) && IsGreatest(v, vs + [v])
    ensures forall x :: IsLeast(x, vs) ==> IsLeast(if v < x then v else x, vs + [v])
    ensures forall x :: IsGreatest(x, vs) ==> IsGreatest(if v > x then v else x, vs + [v])
  {
  }

  lemma AddPoint(s: seq<Point>, req: AggregateRequest, buckets: map<Time, AggregateResult>, p: Point,
                 r: AggregateResult)
    requires Accumulated(s, req, buckets) && InRange(req.start, req.end, p)
    requires Adds(req.kind, BucketFor(req, buckets, p), p, r)
    ensures Accumulated(s + [p], req, buckets[Truncate(p.timestamp, req.bucket) := r])
  {
    var b := Truncate(p.timestamp, req.bucket);
    forall c
      ensures Group(s + [p], req, c) == if c == b then Group(s, req, c) + [p] else Group(s, req, c)
    {
      GroupSnoc(s, req, p, c);
    }
    assert HoldsGroup(s + [p], req, b, r) by {
      AddToGroup(req.kind, Group(s, req, b), BucketFor(req, buckets, p), p, r);
    }
    var after := buckets[b := r];
    forall c ensures c in after <==> Group(s + [p], req, c) != []
             ensures c in after ==> HoldsGroup(s + [p], req, c, after[c])
    {
      if c != b {
        assert Group(s + [p], req, c) == Group(s, req, c);
      }
    }
  }

  function BucketFor(req: AggregateRequest, buckets: map<Time, AggregateResult>, p: Point): AggregateResult {
    var b := Truncate(p.timestamp, req.bucket);
    if b in buckets then buckets[b] else AggregateResult(b, b + req.bucket, p.value, 0)
  }

  function Averaged(r: AggregateResult): AggregateResult {
    if r.count > 0 then r.(value := r.value / r.count as real) else r
  }

  /** Each of the buckets `done` is listed exactly once. */
  ghost predicate Lists(rs: seq<AggregateResult>, buckets: map<Time, AggregateResult>, done: set<Time>) {
    && done <= buckets.Keys
    && (forall b :: b in done ==> buckets[b] in rs)
    && (forall i :: 0 <= i < |rs| ==> rs[i].start in done && rs[i] == buckets[rs[i].start])
    && (forall i, j :: 0 <= i < j < |rs| ==> rs[i].start != rs[j].start)
  }

  lemma ListOne(rs: seq<AggregateResult>, buckets: map<Time, AggregateResult>, done: set<Time>, b: Time)
    requires Lists(rs, buckets, done) && b in buckets && b !in done && buckets[b].start == b
    ensures Lists(rs + [buckets[b]], buckets, done + {b})
  {
    var rs' := rs + [buckets[b]];
    assert rs'[|rs|] == buckets[b];
    forall c | c in done ensures buckets[c] in rs' {
      var i :| 0 <= i < |rs| && rs[i] == buckets[c];
      assert rs'[i] == buckets[c];
    }
  }

  lemma FinishBucket(s: seq<Point>, req: AggregateRequest, total: AggregateResult, r: AggregateResult)
    requires Group(s, req, total.start) != [] && HoldsGroup(s, req, total.start, total)
    requires r == if req.kind == Avg then Averaged(total) else total
    ensures r.start == total.start && IsBucket(s, req, r)
  {
  }

  lemma Finish(s: seq<Point>, req: AggregateRequest, totals: map<Time, AggregateResult>,
               buckets: map<Time, AggregateResult>, listed: seq<AggregateResult>, results: seq<AggregateResult>)
    requires Accumulated(s, req, totals) && buckets.Keys == totals.Keys
    requires forall b :: b in buckets ==> buckets[b] == if req.kind == Avg then Averaged(totals[b]) else totals[b]
    requires Lists(listed, buckets, buckets.Keys)
    requires multiset(results) == multiset(listed) && Sorted(results, StartsFirst)
    ensures IsAggregation(s, req, results)
  {
    DistinctStartsIncrease(listed, results);
    forall r | r in results ensures IsBucket(s, req, r) {
      assert r in multiset(listed);
      var i :| 0 <= i < |listed| && listed[i] == r;
      FinishBucket(s, req, totals[r.start], r);
    }
    forall p | p in s && InRange(req.start, req.end, p)
      ensures exists r :: r in results && r.start == Truncate(p.timestamp, req.bucket)
    {
      var b := Truncate(p.timestamp, req.bucket);
      GroupMember(s, req, b, p);
      FinishBucket(s, req, totals[b], buckets[b]);
      assert buckets[b] in listed;
      assert buckets[b] in multiset(results);
    }
  }

  lemma DistinctStartsIncrease(listed: seq<AggregateResult>, results: seq<AggregateResult>)
    requires multiset(results) == multiset(listed) && Sorted(results, StartsFirst)
    requires forall i, j :: 0 <= i < j < |listed| ==> listed[i].start != listed[j].start
    ensures Increasing(results)
  {
    var start := (r: AggregateResult) => r.start;
    MapPermutation(results, listed, start);
    MultiplicityOne(Map(listed, start));
    forall i, j | 0 <= i < j < |results| ensures results[i].start < results[j].start {
      assert !StartsFirst(results[j], results[i]);
      if results[i].start == results[j].start {
        AtLeastTwice(Map(results, start), i, j);
      }
    }
  }
}
