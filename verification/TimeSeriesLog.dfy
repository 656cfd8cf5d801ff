/** What aggregates and gaps of a series say about the full log of its writes, over a range in which
    series and log agree. */
module TimeSeriesLog {
  import opened Sequences
  import opened BoundedSeries
  import opened TimeSeriesModel
  import opened TimeSeriesAggregation
  import opened TimeSeriesGaps

  // ----- groups -----

  /** Agreement over the range is agreement on every bucket. */
  lemma SameGroups(log: seq<Point>, s: seq<Point>, req: AggregateRequest, b: Time)
    requires AgreesWithLog(log, s, req.start, req.end)
    ensures multiset(Group(s, req, b)) == multiset(Group(log, req, b))
  {
    forall p: Point ensures multiset(Group(s, req, b))[p] == multiset(Group(log, req, b))[p] {
      FilterMultiplicity(s, q => InBucket(req, b, q), p);
      FilterMultiplicity(log, q => InBucket(req, b, q), p);
      FilterMultiplicity(s, q => InRange(req.start, req.end, q), p);
      FilterMultiplicity(log, q => InRange(req.start, req.end, q), p);
      assert multiset(Between(s, req.start, req.end))[p] == multiset(Between(log, req.start, req.end))[p];
    }
  }

  lemma SameRange(log: seq<Point>, s: seq<Point>, start: Time, end: Time, p: Point)
    requires AgreesWithLog(log, s, start, end) && InRange(start, end, p)
    ensures p in s <==> p in log
  {
    FilterMember(s, q => InRange(start, end, q), p);
    FilterMember(log, q => InRange(start, end, q), p);
    assert p in multiset(Between(s, start, end)) <==> p in multiset(Between(log, start, end));
  }

  lemma SameMembers<T>(a: seq<T>, b: seq<T>, x: T)
    requires multiset(a) == multiset(b)
    ensures x in a <==> x in b
  {
    assert x in multiset(a) <==> x in multiset(b);
  }

  lemma TotalOneMore(s: seq<real>, x: real)
    ensures Total(s + [x]) == Total(s) + x
  {
    assert (s + [x])[..|s|] == s;
  }

  lemma {:induction false} TotalAround(before: seq<real>, x: real, after: seq<real>)
    ensures Total(before + [x] + after) == Total(before + after) + x
  {
    if after == [] {
      assert before + [x] + after == before + [x] && before + after == before;
      TotalOneMore(before, x);
    } else {
      TotalAround(before, x, after[..|after| - 1]);
      ConcatButLast(before + [x], after);
      ConcatButLast(before, after);
    }
  }

  lemma {:induction false} TotalOfPermutation(a: seq<real>, b: seq<real>)
    requires multiset(a) == multiset(b)
    ensures Total(a) == Total(b)
  {
    SameSize(a, b);
    if a != [] {
      SplitLast(a);
      assert Last(a) in multiset(b);
      var before, after := RemoveOne(b, Last(a));
      TotalOfPermutation(a[..|a| - 1], before + after);
      TotalAround(before, Last(a), after);
    }
  }

  lemma SameExtremes(a: seq<real>, b: seq<real>, x: real)
    requires multiset(a) == multiset(b)
    ensures IsLeast(x, a) <==> IsLeast(x, b)
    ensures IsGreatest(x, a) <==> IsGreatest(x, b)
  {
    forall y ensures y in a <==> y in b {
      SameMembers(a, b, y);
    }
  }

  // ----- buckets about the log -----

  ghost predicate IsEarliest(p: Point, g: seq<Point>) { p in g && forall q :: q in g ==> p.timestamp <= q.timestamp }

  /** What a bucket reports about the points ever written to it, in whatever order they arrived:
      count, least and greatest value, and total, which counts the value of an earliest point twice. */
  ghost predicate SummarisesLog(kind: AggregateKind, g: seq<Point>, value: real)
    requires g != []
  {
    match kind
    case Min => IsLeast(value, Values(g))
    case Max => IsGreatest(value, Values(g))
    case Sum => exists p :: IsEarliest(p, g) && value == Total(Values(g)) + p.value
    case Avg => exists p :: IsEarliest(p, g) && value == (Total(Values(g)) + p.value) / |g| as real
    case Count => value == |g| as real
    case _ => exists p :: IsEarliest(p, g) && value == p.value
  }

  ghost predicate IsBucketOfLog(log: seq<Point>, req: AggregateRequest, r: AggregateResult) {
    var g := Group(log, req, r.start);
    g != [] && r.count == |g| && r.end == r.start + req.bucket && SummarisesLog(req.kind, g, r.value)
  }

  ghost predicate IsAggregationOfLog(log: seq<Point>, req: AggregateRequest, rs: seq<AggregateResult>) {
    && Increasing(rs)
    && (forall r :: r in rs ==> IsBucketOfLog(log, req, r))
    && (forall p :: p in log && InRange(req.start, req.end, p) ==> Starts(rs, Truncate(p.timestamp, req.bucket)))
  }

  lemma FirstIsEarliest(g: seq<Point>, g': seq<Point>)
    requires g != [] && InTimeOrder(g) && multiset(g) == multiset(g')
    ensures IsEarliest(g[0], g')
  {
    SameMembers(g, g', g[0]);
    forall q | q in g' ensures g[0].timestamp <= q.timestamp {
      SameMembers(g, g', q);
      var i :| 0 <= i < |g| && g[i] == q;
      assert i == 0 || g[0].timestamp <= g[i].timestamp;
    }
  }

  lemma SummaryOfPermutation(kind: AggregateKind, g: seq<Point>, g': seq<Point>, value: real)
    requires g != [] && g' != [] && InTimeOrder(g) && multiset(g) == multiset(g')
    requires Summarises(kind, Values(g), value)
    ensures SummarisesLog(kind, g', value)
  {
    SameSize(g, g');
    MapPermutation(g, g', (p: Point) => p.value);
    match kind
    case Min => SameExtremes(Values(g), Values(g'), value);
    case Max => SameExtremes(Values(g), Values(g'), value);
    case Count =>
    case _ =>
      FirstIsEarliest(g, g');
      TotalOfPermutation(Values(g), Values(g'));
      assert Values(g)[0] == g[0].value;
  }

  lemma BucketOfLog(log: seq<Point>, s: seq<Point>, req: AggregateRequest, r: AggregateResult)
    requires AgreesWithLog(log, s, req.start, req.end) && InTimeOrder(s) && IsBucket(s, req, r)
    ensures IsBucketOfLog(log, req, r)
  {
    var g, g' := Group(s, req, r.start), Group(log, req, r.start);
    SameGroups(log, s, req, r.start);
    SameSize(g, g');
    FilterSorted(s, p => InBucket(req, r.start, p));
    assert InTimeOrder(g);
    SummaryOfPermutation(req.kind, g, g', r.value);
  }

  /** Over a range in which series and log agree, the aggregation is one of the log: no bucket is
      missing, and none has lost a point. */
  lemma AggregationOfLog(log: seq<Point>, s: seq<Point>, req: AggregateRequest, rs: seq<AggregateResult>)
    requires AgreesWithLog(log, s, req.start, req.end) && InTimeOrder(s) && IsAggregation(s, req, rs)
    ensures IsAggregationOfLog(log, req, rs)
  {
    forall r | r in rs ensures IsBucketOfLog(log, req, r) {
      BucketOfLog(log, s, req, r);
    }
    forall p | p in log && InRange(req.start, req.end, p) ensures Starts(rs, Truncate(p.timestamp, req.bucket)) {
      SameRange(log, s, req.start, req.end, p);
      var r :| r in rs && r.start == Truncate(p.timestamp, req.bucket);
    }
  }

  // ----- gaps about the log -----

  /** Gaps depend on the sample times only, not on their order or number. */
  lemma GapOfLog(log: seq<Point>, s: seq<Point>, req: GapRequest, a: Time, b: Time)
    requires AgreesWithLog(log, s, req.start, req.end)
    ensures IsGap(req, Times(Between(s, req.start, req.end)), a, b)
       <==> IsGap(req, Times(Between(log, req.start, req.end)), a, b)
  {
    var ts, ts' := Times(Between(s, req.start, req.end)), Times(Between(log, req.start, req.end));
    MapPermutation(Between(s, req.start, req.end), Between(log, req.start, req.end), (p: Point) => p.timestamp);
    forall t ensures t in ts <==> t in ts' {
      SameMembers(ts, ts', t);
    }
  }
}
