/** The service in front of the store: validation and request defaults. */
module TimeSeriesService {
  import opened Results
  import opened Sequences
  import opened Sorting
  import opened BoundedSeries
  import opened TimeSeriesModel
  import opened TimeSeriesAggregation
  import opened TimeSeriesGaps
  import opened TimeSeriesLog
  import opened TimeSeriesSums
  import opened TimeSeriesStore

  /** A point the service takes: named, and at most an hour ahead of the clock. */
  predicate Acceptable(now: Time, p: Point) {
    p.deviceId != "" && p.property != "" && Stamped(now, p).timestamp <= now + HOUR
  }

  function Stamped(now: Time, p: Point): Point {
    if p.timestamp == 0 then p.(timestamp := now) else p
  }

  function DefaultStart(now: Time, t: Time): Time { if t == 0 then now - 24 * HOUR else t }
  function DefaultEnd(now: Time, t: Time): Time { if t == 0 then now else t }

  class Service {
    const store: Store

    constructor (store: Store)
      ensures this.store == store
    {
      this.store := store;
    }

    /** All or nothing: one bad point and the batch leaves no trace, otherwise every point of it
        joins the log of its series. */
    method WriteBatch(now: Time, points: seq<Point>) returns (r: Result<()>)
      requires store.Valid()
      modifies store
      ensures store.Valid()
      ensures r.Ok? <==> forall p :: p in points ==> Acceptable(now, p)
      ensures r.Err? ==> r.kind == Invalid && store.points == old(store.points) && store.logs == old(store.logs)
      ensures r.Ok? ==>
                forall k :: At(store.logs, k) ==
                            At(old(store.logs), k) + Filter(Map(points, p => Stamped(now, p)), p => SeriesOf(p) == k)
    {
      if |points| == 0 {
        return Ok(());
      }
      var normalized := [];
      for i := 0 to |points|
        invariant normalized == Map(points[..i], p => Stamped(now, p))
        invariant forall p :: p in points[..i] ==> Acceptable(now, p)
        invariant store.points == old(store.points) && store.logs == old(store.logs) && store.Valid()
      {
        var p := points[i];
        assert points[..i + 1] == points[..i] + [p];
        if p.deviceId == "" || p.property == "" {
          assert p in points && !Acceptable(now, p);
          return Err(Invalid);
        }
        p := Stamped(now, p);
        if p.timestamp > now + HOUR {
          assert points[i] in points && !Acceptable(now, points[i]);
          return Err(Invalid);
        }
        normalized := normalized + [p];
      }
      assert points[..|points|] == points;
      forall k
        ensures At(Logged(store.logs, normalized), k) == At(store.logs, k) + Filter(normalized, p => SeriesOf(p) == k)
      {
        LogOfSeries(store.logs, normalized, k);
      }
      store.Write(normalized);
      r := Ok(());
    }

    static function LimitOf(q: Query): nat { if 0 < q.limit <= 10000 then q.limit else 1000 }

    /** Missing bounds mean the last day, a missing or excessive limit means 1000.  Whichever order
        is asked for, the answer is the oldest points of the range, and so the newest only if the
        limit cuts nothing off or all points are of one time. */
    method Query(now: Time, q: Query) returns (r: Result<seq<Point>>)
      requires store.Valid()
      ensures r.Err? <==> q.deviceId == "" || DefaultEnd(now, q.end) < DefaultStart(now, q.start)
      ensures r.Ok? ==>
                var start, end := DefaultStart(now, q.start), DefaultEnd(now, q.end);
                var key := SeriesKey(q.deviceId, q.property);
                var range := Between(At(store.points, key), start, end);
                IsOldest(range, r.value, LimitOf(q)) && InQueryOrder(q.descending, r.value)
                && (IsNewest(range, r.value, LimitOf(q)) <==> OldestAreNewest(range, LimitOf(q)))
                && (PastHorizon(At(store.points, key), store.limit, start) ==>
                      IsOldest(Between(At(store.logs, key), start, end), r.value, LimitOf(q)))
    {
      var query := q.(start := DefaultStart(now, q.start), end := DefaultEnd(now, q.end));
      if query.deviceId == "" || query.end < query.start {
        return Err(Invalid);
      }
      if query.limit <= 0 || query.limit > 10000 {
        query := query.(limit := 1000);
      }
      var out := store.Query(query);
      r := Ok(out);
    }

    /** The request the store sees: a kind, both bounds, and a bucket of at least a second. */
    static function Completed(now: Time, req: AggregateRequest): AggregateRequest {
      req.(kind := if req.kind == Unset then Avg else req.kind,
           start := DefaultStart(now, req.start), end := DefaultEnd(now, req.end),
           bucket := if req.bucket < SECOND then MINUTE else req.bucket)
    }

    method Aggregate(now: Time, request: AggregateRequest) returns (r: Result<seq<AggregateResult>>)
      requires store.Valid()
      ensures r.Err? <==> request.deviceId == "" || request.property == "" || request.kind.Unsupported?
                          || DefaultEnd(now, request.end) < DefaultStart(now, request.start)
      ensures r.Ok? ==>
                var req := Completed(now, request);
                var s := At(store.points, SeriesKey(req.deviceId, req.property));
                IsAggregation(s, req, r.value)
                && Counts(r.value) == |Between(s, req.start, req.end)|
                && (forall i, j :: 0 <= i < j < |r.value| ==> r.value[i].end <= r.value[j].start)
                && (PastHorizon(s, store.limit, req.start) ==>
                      IsAggregationOfLog(At(store.logs, SeriesKey(req.deviceId, req.property)), req, r.value))
    {
      if request.deviceId == "" || request.property == "" || request.kind.Unsupported? {
        return Err(Invalid);
      }
      var req := Completed(now, request);
      if req.end < req.start {
        return Err(Invalid);
      }
      var results := store.Aggregate(req);
      CountsAreConserved(At(store.points, SeriesKey(req.deviceId, req.property)), req, results);
      BucketsPartitionTime(At(store.points, SeriesKey(req.deviceId, req.property)), req, results);
      r := Ok(results);
    }

    static function CompletedGaps(now: Time, req: GapRequest): GapRequest {
      req.(expectedInterval := if req.expectedInterval <= 0 then MINUTE else req.expectedInterval,
           start := DefaultStart(now, req.start), end := DefaultEnd(now, req.end))
    }

    /** Whatever the request, the reported gaps are exactly the empty stretches between two samples
        longer than one and a half intervals, in order; past the horizon, two samples of all that
        were ever written. */
    method DetectGaps(now: Time, request: GapRequest) returns (r: Result<seq<Gap>>)
      requires store.Valid()
      ensures r.Err? <==> request.deviceId == "" || request.property == ""
                          || DefaultEnd(now, request.end) < DefaultStart(now, request.start)
      ensures r.Ok? ==>
                var req := CompletedGaps(now, request);
                var key := SeriesKey(req.deviceId, req.property);
                var ts := Times(Between(At(store.points, key), req.start, req.end));
                (forall a, b :: MakeGap(req, a, b) in r.value <==> IsGap(req, ts, a, b))
                && (forall g :: g in r.value ==> g == MakeGap(req, g.start, g.end))
                && (forall i, j :: 0 <= i < j < |r.value| ==> r.value[i].end <= r.value[j].start)
                && (PastHorizon(At(store.points, key), store.limit, req.start) ==>
                      forall a, b :: MakeGap(req, a, b) in r.value
                                     <==> IsGap(req, Times(Between(At(store.logs, key), req.start, req.end)), a, b))
    {
      if request.deviceId == "" || request.property == "" {
        return Err(Invalid);
      }
      var req := CompletedGaps(now, request);
      if req.end < req.start {
        return Err(Invalid);
      }
      var gaps := store.DetectGaps(req);
      ghost var ts := Times(Between(At(store.points, SeriesKey(req.deviceId, req.property)), req.start, req.end));
      GapsInOrder(req, ts);
      forall a, b ensures MakeGap(req, a, b) in gaps <==> IsGap(req, ts, a, b) {
        ReportedIffGap(req, ts, a, b);
      }
      var key := SeriesKey(req.deviceId, req.property);
      if PastHorizon(At(store.points, key), store.limit, req.start) {
        forall a, b
          ensures IsGap(req, ts, a, b) <==> IsGap(req, Times(Between(At(store.logs, key), req.start, req.end)), a, b)
        {
          GapOfLog(At(store.logs, key), At(store.points, key), req, a, b);
        }
      }
      r := Ok(gaps);
    }
  }

  // ----- what the service makes of a request -----

  /** A request without bounds is about the last day; a bound that is given stands. */
  lemma OpenBoundsMeanLastDay(now: Time, t: Time)
    ensures DefaultStart(now, 0) == now - 86_400_000_000_000 && DefaultEnd(now, 0) == now
    ensures t != 0 ==> DefaultStart(now, t) == t && DefaultEnd(now, t) == t
  {
  }

  /** A point is taken if it is named and not more than an hour ahead; one without a time gets the
      present one, and nothing else about it changes. */
  lemma AcceptableMeans(now: Time, p: Point)
    ensures Acceptable(now, p) <==> p.deviceId != "" && p.property != ""
                                    && (p.timestamp == 0 || p.timestamp <= now + 3_600_000_000_000)
    ensures Stamped(now, p).timestamp == if p.timestamp == 0 then now else p.timestamp
    ensures Stamped(now, p).(timestamp := p.timestamp) == p
  {
  }

  /** At most 10000 points, 1000 unless asked otherwise; averages over minutes, and gaps against an
      expected minute. */
  lemma RequestDefaults(now: Time, query: Query, req: AggregateRequest, gaps: GapRequest)
    ensures Service.LimitOf(query) == if 1 <= query.limit <= 10000 then query.limit else 1000
    ensures var q := Service.Completed(now, req);
            && q.deviceId == req.deviceId && q.property == req.property
            && q.kind == (if req.kind.Unset? then Avg else req.kind)
            && q.bucket == (if req.bucket >= 1_000_000_000 then req.bucket else 60_000_000_000)
            && q.start == DefaultStart(now, req.start) && q.end == DefaultEnd(now, req.end)
    ensures var q := Service.CompletedGaps(now, gaps);
            && q.deviceId == gaps.deviceId && q.property == gaps.property
            && q.expectedInterval == (if gaps.expectedInterval > 0 then gaps.expectedInterval else 60_000_000_000)
            && q.start == DefaultStart(now, gaps.start) && q.end == DefaultEnd(now, gaps.end)
  {
  }

  // ----- an input on which sums do not roll up -----

  lemma StampedPair(now: Time)
    ensures Filter(Map(PAIR, p => Stamped(now, p)), p => SeriesOf(p) == SeriesOf(PAIR[0])) == PAIR
  {
    assert Map(PAIR, p => Stamped(now, p)) == PAIR;
    FilterPair(PAIR[0], PAIR[1], p => SeriesOf(p) == SeriesOf(PAIR[0]));
  }

  lemma StoredPair(s: seq<Point>)
    requires Reachable(PointLess, PAIR, s, 20000)
    ensures s == PAIR
  {
    SeriesRetention(PAIR, s, 20000);
    NothingDropped(s, PAIR);
    OrderedPair(PAIR[0], PAIR[1], s);
  }

  lemma OrderedPair(p: Point, q: Point, s: seq<Point>)
    requires p.timestamp < q.timestamp && multiset(s) == multiset([p, q]) && Sorted(s, PointLess)
    ensures s == [p, q]
  {
    SameSize(s, [p, q]);
    assert s[0] in multiset(s) && s[1] in multiset(s);
    assert p in multiset(s) && q in multiset(s);
    assert !PointLess(s[1], s[0]);
  }

  const PAIR_KEY := SeriesKey("device", "temperature")

  /** A service that was sent the pair. */
  method WritePair(now: Time) returns (service: Service)
    requires FIRST + SECOND <= now
    ensures service.store.Valid() && At(service.store.points, PAIR_KEY) == PAIR
  {
    var store := new Store(0);
    service := new Service(store);
    forall p | p in PAIR ensures Acceptable(now, p) {
    }
    var written := service.WriteBatch(now, PAIR);
    StampedPair(now);
    assert At(store.logs, PAIR_KEY) == PAIR;
    StoredPair(store.points[PAIR_KEY]);
  }

  method SumPair(service: Service, now: Time, bucket: Duration) returns (rs: seq<AggregateResult>)
    requires service.store.Valid() && At(service.store.points, PAIR_KEY) == PAIR && bucket >= SECOND
    ensures IsAggregation(PAIR, BY_SECOND.(bucket := bucket), rs)
  {
    var r := service.Aggregate(now, BY_SECOND.(bucket := bucket));
    assert Service.Completed(now, BY_SECOND.(bucket := bucket)) == BY_SECOND.(bucket := bucket);
    rs := r.value;
  }

  /** Two samples of 1.0, written and summed through the service: 2.0 for each second, 3.0 for both. */
  method SumsOfPair(now: Time) returns (fine: seq<AggregateResult>, coarse: seq<AggregateResult>)
    requires FIRST + SECOND <= now
    ensures fine == FINE && coarse == COARSE
  {
    var service := WritePair(now);
    fine := SumPair(service, now, SECOND);
    coarse := SumPair(service, now, 2 * SECOND);
    FineOfPair();
    CoarseOfPair();
    AggregationIsUnique(PAIR, BY_SECOND, fine, FINE);
    AggregationIsUnique(PAIR, BY_TWO, coarse, COARSE);
  }
}
