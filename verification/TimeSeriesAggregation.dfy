/** Bucketed aggregation as plain grouping, and what rolling up fine buckets preserves. */
module TimeSeriesAggregation {
  import opened Arithmetic
  import opened Sequences
  import opened TimeSeriesModel

  datatype AggregateKind = Avg | Min | Max | Sum | Count | Unset | Unsupported(name: string)

  datatype AggregateRequest = AggregateRequest(deviceId: string, property: string, start: Time, end: Time,
                                               kind: AggregateKind, bucket: Duration)

  datatype AggregateResult = AggregateResult(start: Time, end: Time, value: real, count: nat)

  /** Go's `Time.Truncate`: down to a multiple of d since the zero time. */
  function Truncate(t: Time, d: Duration): Time {
    if d <= 0 then t else t - t % d
  }

  // ----- naive grouping -----

  predicate InBucket(req: AggregateRequest, b: Time, p: Point) {
    InRange(req.start, req.end, p) && Truncate(p.timestamp, req.bucket) == b
  }

  function Group(s: seq<Point>, req: AggregateRequest, b: Time): seq<Point> {
    Filter(s, p => InBucket(req, b, p))
  }

  function Total(g: seq<real>): real {
    if g == [] then 0.0 else Total(g[..|g| - 1]) + Last(g)
  }

  ghost predicate IsLeast(x: real, g: seq<real>) { x in g && forall y :: y in g ==> x <= y }
  ghost predicate IsGreatest(x: real, g: seq<real>) { x in g && forall y :: y in g ==> y <= x }

  function Values(g: seq<Point>): seq<real> { Map(g, (p: Point) => p.value) }

  /** What a bucket reports about its group.  The first value enters a sum twice: it seeds the
      accumulator and is added again, so an average is shifted by first/count too. */
  ghost predicate Summarises(kind: AggregateKind, g: seq<real>, value: real)
    requires g != []
  {
    match kind
    case Min => IsLeast(value, g)
    case Max => IsGreatest(value, g)
    case Sum => value == Total(g) + g[0]
    case Avg => value == (Total(g) + g[0]) / |g| as real
    case Count => value == |g| as real
    case _ => value == g[0]
  }

  ghost predicate IsBucket(s: seq<Point>, req: AggregateRequest, r: AggregateResult) {
    var g := Group(s, req, r.start);
    g != [] && r.count == |g| && r.end == r.start + req.bucket && Summarises(req.kind, Values(g), r.value)
  }

  predicate Increasing(rs: seq<AggregateResult>) {
    forall i, j :: 0 <= i < j < |rs| ==> rs[i].start < rs[j].start
  }

  /** The whole answer: one bucket for every non-empty group, in time order. */
  ghost predicate IsAggregation(s: seq<Point>, req: AggregateRequest, rs: seq<AggregateResult>) {
    && Increasing(rs)
    && (forall r :: r in rs ==> IsBucket(s, req, r))
    && (forall p :: p in s && InRange(req.start, req.end, p) ==>
                      exists r :: r in rs && r.start == Truncate(p.timestamp, req.bucket))
  }

  lemma {:induction false} IncreasingUnique(rs: seq<AggregateResult>, rs': seq<AggregateResult>)
    requires Increasing(rs) && Increasing(rs') && forall r :: r in rs <==> r in rs'
    ensures rs == rs'
  {
    if rs == [] || rs' == [] {
      FirstIsMember(rs);
      FirstIsMember(rs');
    } else {
      SplitLast(rs);
      SplitLast(rs');
      SameLatest(rs, rs');
      var before, before' := rs[..|rs| - 1], rs'[..|rs'| - 1];
      forall r ensures r in before <==> r in before' {
        AllButLatest(rs, r);
        AllButLatest(rs', r);
      }
      IncreasingUnique(before, before');
    }
  }

  lemma SameLatest(rs: seq<AggregateResult>, rs': seq<AggregateResult>)
    requires rs != [] && rs' != [] && Increasing(rs) && Increasing(rs') && Last(rs) in rs' && Last(rs') in rs
    ensures Last(rs) == Last(rs')
  {
    LatestStartsLast(rs, Last(rs'));
    LatestStartsLast(rs', Last(rs));
  }

  lemma LatestStartsLast(rs: seq<AggregateResult>, r: AggregateResult)
    requires Increasing(rs) && r in rs
    ensures r == Last(rs) || r.start < Last(rs).start
  {
    var i :| 0 <= i < |rs| && rs[i] == r;
  }

  lemma AllButLatest(rs: seq<AggregateResult>, r: AggregateResult)
    requires rs != [] && Increasing(rs)
    ensures r in rs[..|rs| - 1] <==> r in rs && r != Last(rs)
  {
    SplitLast(rs);
  }

  /** The answer is determined: whatever the order of a map's buckets, and however `sort.Slice` treats
      ties, there is only one. */
  lemma AggregationIsUnique(s: seq<Point>, req: AggregateRequest, rs: seq<AggregateResult>, rs': seq<AggregateResult>)
    requires IsAggregation(s, req, rs) && IsAggregation(s, req, rs')
    ensures rs == rs'
  {
    forall r ensures r in rs <==> r in rs' {
      if r in rs {
        AlsoIn(s, req, rs, rs', r);
      }
      if r in rs' {
        AlsoIn(s, req, rs', rs, r);
      }
    }
    IncreasingUnique(rs, rs');
  }

  lemma AlsoIn(s: seq<Point>, req: AggregateRequest, rs: seq<AggregateResult>, rs': seq<AggregateResult>,
               r: AggregateResult)
    requires IsAggregation(s, req, rs) && IsAggregation(s, req, rs') && r in rs
    ensures r in rs'
  {
    var p := Group(s, req, r.start)[0];
    GroupMember(s, req, r.start, p);
    var r' :| r' in rs' && r'.start == Truncate(p.timestamp, req.bucket);
    OneBucketPerStart(s, req, r, r');
  }

  lemma OneBucketPerStart(s: seq<Point>, req: AggregateRequest, r: AggregateResult, r': AggregateResult)
    requires IsBucket(s, req, r) && IsBucket(s, req, r') && r.start == r'.start
    ensures r == r'
  {
  }

  lemma GroupMember(s: seq<Point>, req: AggregateRequest, b: Time, p: Point)
    ensures p in Group(s, req, b) <==> p in s && InBucket(req, b, p)
  {
    FilterMember(s, q => InBucket(req, b, q), p);
  }

  /** Buckets are aligned, do not overlap, and every in-range point lies in exactly one. */
  lemma BucketsPartitionTime(s: seq<Point>, req: AggregateRequest, rs: seq<AggregateResult>)
    requires IsAggregation(s, req, rs) && req.bucket > 0
    ensures forall r :: r in rs ==> r.start % req.bucket == 0
    ensures forall i, j :: 0 <= i < j < |rs| ==> rs[i].end <= rs[j].start
    ensures forall p :: p in s && InRange(req.start, req.end, p) ==>
                          exists i :: 0 <= i < |rs| && rs[i].start <= p.timestamp < rs[i].end
  {
    forall r | r in rs ensures r.start % req.bucket == 0 {
      var p := Group(s, req, r.start)[0];
      GroupMember(s, req, r.start, p);
      TruncateAligned(p.timestamp, req.bucket);
    }
    forall i, j | 0 <= i < j < |rs| ensures rs[i].end <= rs[j].start {
      assert rs[i] in rs && rs[j] in rs;
      AlignedApart(rs[i].start, rs[j].start, req.bucket);
    }
    forall p | p in s && InRange(req.start, req.end, p)
      ensures exists i :: 0 <= i < |rs| && rs[i].start <= p.timestamp < rs[i].end
    {
      var r :| r in rs && r.start == Truncate(p.timestamp, req.bucket);
      var i :| 0 <= i < |rs| && rs[i] == r;
      TruncateAligned(p.timestamp, req.bucket);
    }
  }

  lemma DivModUnique(t: int, d: int, q: int, r: int)
    requires d > 0 && t == q * d + r && 0 <= r < d
    ensures q == t / d && r == t % d
  {
    MultipleAway(q - t / d, d);
    assert (q - t / d) * d == t % d - r;
  }

  lemma TruncateBounds(t: Time, d: Duration)
    requires d > 0
    ensures Truncate(t, d) == (t / d) * d
    ensures Truncate(t, d) <= t < Truncate(t, d) + d
  {
  }

  lemma TruncateAligned(t: Time, d: Duration)
    requires d > 0
    ensures Truncate(t, d) % d == 0 && Truncate(t, d) <= t < Truncate(t, d) + d
  {
    TruncateBounds(t, d);
    DivModUnique((t / d) * d, d, t / d, 0);
  }

  lemma AlignedApart(a: Time, b: Time, d: Duration)
    requires d > 0 && a % d == 0 && b % d == 0 && a < b
    ensures a + d <= b
  {
    MultipleAway(b / d - a / d, d);
    assert (b / d - a / d) * d == b - a;
  }

  /** Truncation composes: rounding down finely first changes nothing. */
  lemma TruncateComposes(t: Time, fine: Duration, k: int)
    requires fine > 0 && k > 0
    ensures Truncate(Truncate(t, fine), k * fine) == Truncate(t, k * fine)
  {
    MultipleAway(k, fine);
    var coarse := k * fine;
    var u, v, m := Truncate(t, fine), Truncate(t, coarse), t / coarse;
    TruncateAligned(t, fine);
    TruncateBounds(t, coarse);
    assert v == m * coarse;
    assert m * coarse == (m * k) * fine;
    DivModUnique(v, fine, m * k, 0);
    if u < v {
      AlignedApart(u, v, fine);
    }
    DivModUnique(u, coarse, m, u - m * coarse);
  }

  // ----- summing over buckets -----

  function Counts(rs: seq<AggregateResult>): nat {
    if rs == [] then 0 else Counts(rs[..|rs| - 1]) + Last(rs).count
  }

  ghost predicate Starts(rs: seq<AggregateResult>, t: Time) { exists r :: r in rs && r.start == t }

  lemma {:induction false} FilterDisjointUnion<T>(s: seq<T>, p: T -> bool, q: T -> bool, either: T -> bool)
    requires forall x :: x in s ==> (either(x) <==> p(x) || q(x)) && !(p(x) && q(x))
    ensures |Filter(s, either)| == |Filter(s, p)| + |Filter(s, q)|
  {
    if s != [] {
      FilterDisjointUnion(s[..|s| - 1], p, q, either);
    }
  }

  /** Counts over distinct buckets add up to the number of points those buckets hold. */
  lemma {:induction false} CountsAddUp(s: seq<Point>, req: AggregateRequest, rs: seq<AggregateResult>,
                                       holds: Point -> bool)
    requires Increasing(rs) && forall r :: r in rs ==> r.count == |Group(s, req, r.start)|
    requires forall p :: p in s ==> (holds(p) <==> InRange(req.start, req.end, p)
                                                    && Starts(rs, Truncate(p.timestamp, req.bucket)))
    ensures Counts(rs) == |Filter(s, holds)|
  {
    if rs == [] {
      FilterCongruent(s, holds, p => false);
      FilterNone(s);
    } else {
      var rs', r := rs[..|rs| - 1], Last(rs);
      SplitLast(rs);
      var before := (p: Point) => holds(p) && !InBucket(req, r.start, p);
      forall p | p in s
        ensures before(p) <==> InRange(req.start, req.end, p) && Starts(rs', Truncate(p.timestamp, req.bucket))
      {
        StartsSnoc(rs, Truncate(p.timestamp, req.bucket));
      }
      CountsAddUp(s, req, rs', before);
      forall p | p in s && InBucket(req, r.start, p) ensures holds(p) {
        assert r in rs;
      }
      FilterDisjointUnion(s, before, p => InBucket(req, r.start, p), holds);
    }
  }

  lemma {:induction false} FilterNone<T>(s: seq<T>)
    ensures Filter(s, (x: T) => false) == []
  {
    if s != [] {
      FilterNone(s[..|s| - 1]);
    }
  }

  lemma StartsSnoc(rs: seq<AggregateResult>, t: Time)
    requires rs != [] && Increasing(rs)
    ensures Starts(rs, t) <==> Starts(rs[..|rs| - 1], t) || t == Last(rs).start
    ensures !(Starts(rs[..|rs| - 1], t) && t == Last(rs).start)
  {
    SplitLast(rs);
    if Starts(rs, t) {
      var r :| r in rs && r.start == t;
      var i :| 0 <= i < |rs| && rs[i] == r;
      assert i == |rs| - 1 || rs[..|rs| - 1][i] == r;
    }
    if Starts(rs[..|rs| - 1], t) {
      var r :| r in rs[..|rs| - 1] && r.start == t;
      assert r in rs;
    }
    assert Last(rs) in rs;
  }

  /** Conservation: no in-range point is lost or counted twice. */
  lemma CountsAreConserved(s: seq<Point>, req: AggregateRequest, rs: seq<AggregateResult>)
    requires IsAggregation(s, req, rs)
    ensures Counts(rs) == |Between(s, req.start, req.end)|
  {
    CountsAddUp(s, req, rs, p => InRange(req.start, req.end, p));
  }

  // ----- rolling fine buckets up into a coarse one -----

  /** The fine buckets inside the coarse bucket that starts at b. */
  function Inside(fine: seq<AggregateResult>, coarse: Duration, b: Time): seq<AggregateResult> {
    Filter(fine, (r: AggregateResult) => Truncate(r.start, coarse) == b)
  }

  lemma {:induction false} InsideIncreasing(rs: seq<AggregateResult>, p: AggregateResult -> bool)
    requires Increasing(rs)
    ensures Increasing(Filter(rs, p))
  {
    if rs != [] {
      var rs' := rs[..|rs| - 1];
      InsideIncreasing(rs', p);
      forall i | 0 <= i < |Filter(rs', p)| ensures Filter(rs', p)[i].start < Last(rs).start {
        FilterMember(rs', p, Filter(rs', p)[i]);
        assert Filter(rs', p)[i] in rs';
      }
    }
  }

  /** The fine and the coarse aggregation of one series over one range. */
  ghost predicate Refines(s: seq<Point>, req: AggregateRequest, k: int,
                          fine: seq<AggregateResult>, coarse: seq<AggregateResult>) {
    && req.bucket > 0 && k > 0
    && IsAggregation(s, req, fine)
    && IsAggregation(s, req.(bucket := k * req.bucket), coarse)
  }

  /** A point of a coarse bucket lies in a fine bucket inside it, and conversely. */
  lemma FineInsideCoarse(s: seq<Point>, req: AggregateRequest, k: int,
                         fine: seq<AggregateResult>, coarse: seq<AggregateResult>, b: Time, p: Point)
    requires Refines(s, req, k, fine, coarse) && p in s
    ensures InBucket(req.(bucket := k * req.bucket), b, p)
       <==> InRange(req.start, req.end, p)
            && Starts(Inside(fine, k * req.bucket, b), Truncate(p.timestamp, req.bucket))
  {
    TruncateComposes(p.timestamp, req.bucket, k);
    assert k * req.bucket > 0;
    var inside := (r: AggregateResult) => Truncate(r.start, k * req.bucket) == b;
    if InBucket(req.(bucket := k * req.bucket), b, p) {
      var r :| r in fine && r.start == Truncate(p.timestamp, req.bucket);
      FilterMember(fine, inside, r);
    }
    if Starts(Inside(fine, k * req.bucket, b), Truncate(p.timestamp, req.bucket)) {
      var r :| r in Inside(fine, k * req.bucket, b) && r.start == Truncate(p.timestamp, req.bucket);
      FilterMember(fine, inside, r);
    }
  }

  /** Count of a coarse bucket is the sum of the counts of its fine buckets. */
  lemma RollUpCount(s: seq<Point>, req: AggregateRequest, k: int,
                    fine: seq<AggregateResult>, coarse: seq<AggregateResult>, c: AggregateResult)
    requires Refines(s, req, k, fine, coarse) && c in coarse
    ensures c.count == Counts(Inside(fine, k * req.bucket, c.start))
  {
    var wide := req.(bucket := k * req.bucket);
    var parts := Inside(fine, k * req.bucket, c.start);
    var inside := (r: AggregateResult) => Truncate(r.start, k * req.bucket) == c.start;
    InsideIncreasing(fine, inside);
    forall r | r in parts ensures r.count == |Group(s, req, r.start)| {
      FilterMember(fine, inside, r);
      assert IsBucket(s, req, r);
    }
    var holds := (p: Point) => InBucket(wide, c.start, p);
    forall p | p in s
      ensures holds(p) <==> InRange(req.start, req.end, p) && Starts(parts, Truncate(p.timestamp, req.bucket))
    {
      FineInsideCoarse(s, req, k, fine, coarse, c.start, p);
    }
    CountsAddUp(s, req, parts, holds);
    assert IsBucket(s, wide, c);
  }

  function ResultValues(rs: seq<AggregateResult>): seq<real> { Map(rs, (r: AggregateResult) => r.value) }

  lemma ValuesMember(g: seq<Point>, v: real)
    ensures v in Values(g) <==> exists p :: p in g && p.value == v
  {
    if v in Values(g) {
      var i :| 0 <= i < |g| && Values(g)[i] == v;
      assert g[i] in g;
    }
    if exists p :: p in g && p.value == v {
      var p :| p in g && p.value == v;
      var i :| 0 <= i < |g| && g[i] == p;
      assert Values(g)[i] == v;
    }
  }

  /** Membership of a fine bucket's values in its coarse bucket, both ways. */
  lemma ValuesOfParts(s: seq<Point>, req: AggregateRequest, k: int,
                      fine: seq<AggregateResult>, coarse: seq<AggregateResult>, c: AggregateResult, v: real)
    requires Refines(s, req, k, fine, coarse) && c in coarse
    ensures v in Values(Group(s, req.(bucket := k * req.bucket), c.start))
       <==> exists r :: r in Inside(fine, k * req.bucket, c.start) && v in Values(Group(s, req, r.start))
  {
    var wide, parts := req.(bucket := k * req.bucket), Inside(fine, k * req.bucket, c.start);
    ValuesMember(Group(s, wide, c.start), v);
    if v in Values(Group(s, wide, c.start)) {
      var p :| p in Group(s, wide, c.start) && p.value == v;
      GroupMember(s, wide, c.start, p);
      FineInsideCoarse(s, req, k, fine, coarse, c.start, p);
      var r :| r in parts && r.start == Truncate(p.timestamp, req.bucket);
      GroupMember(s, req, r.start, p);
      ValuesMember(Group(s, req, r.start), v);
      assert r in parts && v in Values(Group(s, req, r.start));
    }
    if exists r :: r in parts && v in Values(Group(s, req, r.start)) {
      var r :| r in parts && v in Values(Group(s, req, r.start));
      ValuesMember(Group(s, req, r.start), v);
      var p :| p in Group(s, req, r.start) && p.value == v;
      GroupMember(s, req, r.start, p);
      FineInsideCoarse(s, req, k, fine, coarse, c.start, p);
      GroupMember(s, wide, c.start, p);
    }
  }

  lemma PartIsBucket(s: seq<Point>, req: AggregateRequest, fine: seq<AggregateResult>, coarse: Duration, b: Time,
                     r: AggregateResult)
    requires IsAggregation(s, req, fine) && r in Inside(fine, coarse, b)
    ensures IsBucket(s, req, r)
  {
    FilterMember(fine, (x: AggregateResult) => Truncate(x.start, coarse) == b, r);
  }

  /** Minimum and maximum roll up: the least of the fine minima is the coarse minimum, and so for
      the greatest. */
  lemma RollUpExtremes(s: seq<Point>, req: AggregateRequest, k: int,
                       fine: seq<AggregateResult>, coarse: seq<AggregateResult>, c: AggregateResult)
    requires Refines(s, req, k, fine, coarse) && c in coarse
    ensures req.kind == Min ==> IsLeast(c.value, ResultValues(Inside(fine, k * req.bucket, c.start)))
    ensures req.kind == Max ==> IsGreatest(c.value, ResultValues(Inside(fine, k * req.bucket, c.start)))
  {
    if req.kind == Min || req.kind == Max {
      var vs := ResultValues(Inside(fine, k * req.bucket, c.start));
      assert IsBucket(s, req.(bucket := k * req.bucket), c);
      forall v | v in vs ensures v in Values(Group(s, req.(bucket := k * req.bucket), c.start)) {
        PartValueInside(s, req, k, fine, coarse, c, v);
      }
      ExtremeIsInSomePart(s, req, k, fine, coarse, c);
    }
  }

  lemma PartValueInside(s: seq<Point>, req: AggregateRequest, k: int,
                        fine: seq<AggregateResult>, coarse: seq<AggregateResult>, c: AggregateResult, v: real)
    requires Refines(s, req, k, fine, coarse) && c in coarse && (req.kind == Min || req.kind == Max)
    requires v in ResultValues(Inside(fine, k * req.bucket, c.start))
    ensures v in Values(Group(s, req.(bucket := k * req.bucket), c.start))
  {
    var parts := Inside(fine, k * req.bucket, c.start);
    var i :| 0 <= i < |parts| && ResultValues(parts)[i] == v;
    PartIsBucket(s, req, fine, k * req.bucket, c.start, parts[i]);
    assert parts[i] in parts && v in Values(Group(s, req, parts[i].start));
    ValuesOfParts(s, req, k, fine, coarse, c, v);
  }

  /** The fine bucket that holds the coarse extreme reports it. */
  lemma ExtremeIsInSomePart(s: seq<Point>, req: AggregateRequest, k: int,
                            fine: seq<AggregateResult>, coarse: seq<AggregateResult>, c: AggregateResult)
    requires Refines(s, req, k, fine, coarse) && c in coarse && (req.kind == Min || req.kind == Max)
    ensures c.value in ResultValues(Inside(fine, k * req.bucket, c.start))
  {
    var parts := Inside(fine, k * req.bucket, c.start);
    assert IsBucket(s, req.(bucket := k * req.bucket), c);
    ValuesOfParts(s, req, k, fine, coarse, c, c.value);
    var r :| r in parts && c.value in Values(Group(s, req, r.start));
    PartIsBucket(s, req, fine, k * req.bucket, c.start, r);
    ValuesOfParts(s, req, k, fine, coarse, c, r.value);
    assert r in parts && r.value in Values(Group(s, req, r.start));
    var i :| 0 <= i < |parts| && parts[i] == r;
    assert ResultValues(parts)[i] == r.value;
  }

  // ----- sums do not roll up -----

  lemma {:induction false} TotalDisjointUnion(s: seq<Point>, p: Point -> bool, q: Point -> bool, either: Point -> bool)
    requires forall x :: x in s ==> (either(x) <==> p(x) || q(x)) && !(p(x) && q(x))
    ensures Total(Values(Filter(s, either))) == Total(Values(Filter(s, p))) + Total(Values(Filter(s, q)))
  {
    if s != [] {
      var s' := s[..|s| - 1];
      TotalDisjointUnion(s', p, q, either);
      TotalSnoc(Filter(s', either), Last(s));
      TotalSnoc(Filter(s', p), Last(s));
      TotalSnoc(Filter(s', q), Last(s));
    }
  }

  lemma TotalSnoc(g: seq<Point>, p: Point)
    ensures Total(Values(g + [p])) == Total(Values(g)) + p.value
    ensures Total(Values(g + [])) == Total(Values(g))
  {
    assert g + [] == g;
    assert Values(g + [p]) == Values(g) + [p.value];
    assert (Values(g) + [p.value])[..|g|] == Values(g);
  }

  /** The group totals of these buckets, added up from the points. */
  function GroupTotals(s: seq<Point>, req: AggregateRequest, rs: seq<AggregateResult>): real {
    if rs == [] then 0.0
    else GroupTotals(s, req, rs[..|rs| - 1]) + Total(Values(Group(s, req, Last(rs).start)))
  }

  lemma {:induction false} TotalsAddUp(s: seq<Point>, req: AggregateRequest, rs: seq<AggregateResult>,
                                       holds: Point -> bool)
    requires Increasing(rs)
    requires forall p :: p in s ==> (holds(p) <==> InRange(req.start, req.end, p)
                                                    && Starts(rs, Truncate(p.timestamp, req.bucket)))
    ensures GroupTotals(s, req, rs) == Total(Values(Filter(s, holds)))
  {
    if rs == [] {
      FilterCongruent(s, holds, p => false);
      FilterNone(s);
    } else {
      var rs', r := rs[..|rs| - 1], Last(rs);
      SplitLast(rs);
      var before := (p: Point) => holds(p) && !InBucket(req, r.start, p);
      forall p | p in s
        ensures before(p) <==> InRange(req.start, req.end, p) && Starts(rs', Truncate(p.timestamp, req.bucket))
      {
        StartsSnoc(rs, Truncate(p.timestamp, req.bucket));
      }
      TotalsAddUp(s, req, rs', before);
      forall p | p in s && InBucket(req, r.start, p) ensures holds(p) {
        assert r in rs;
      }
      TotalDisjointUnion(s, before, p => InBucket(req, r.start, p), holds);
    }
  }

  function FirstValue(s: seq<Point>, req: AggregateRequest, b: Time): real {
    var g := Group(s, req, b);
    if g == [] then 0.0 else g[0].value
  }

  /** The values that open these buckets, added up. */
  function FirstValues(s: seq<Point>, req: AggregateRequest, rs: seq<AggregateResult>): real {
    if rs == [] then 0.0 else FirstValues(s, req, rs[..|rs| - 1]) + FirstValue(s, req, Last(rs).start)
  }

  lemma {:induction false} SumsOfBuckets(s: seq<Point>, req: AggregateRequest, rs: seq<AggregateResult>)
    requires req.kind == Sum && forall r :: r in rs ==> IsBucket(s, req, r)
    ensures Total(ResultValues(rs)) == GroupTotals(s, req, rs) + FirstValues(s, req, rs)
  {
    if rs != [] {
      var rs', r := rs[..|rs| - 1], Last(rs);
      SplitLast(rs);
      SumsOfBuckets(s, req, rs');
      assert ResultValues(rs) == ResultValues(rs') + [r.value];
      assert IsBucket(s, req, r);
      assert Values(Group(s, req, r.start))[0] == FirstValue(s, req, r.start);
    }
  }

  /** Because a sum counts the first value of its bucket twice, fine sums add up to the coarse sum
      if and only if the values that open the fine buckets add up to the one that opens the coarse. */
  lemma RollUpSum(s: seq<Point>, req: AggregateRequest, k: int,
                  fine: seq<AggregateResult>, coarse: seq<AggregateResult>, c: AggregateResult)
    requires Refines(s, req, k, fine, coarse) && c in coarse && req.kind == Sum
    ensures Total(ResultValues(Inside(fine, k * req.bucket, c.start))) == c.value
       <==> FirstValues(s, req, Inside(fine, k * req.bucket, c.start))
            == FirstValue(s, req.(bucket := k * req.bucket), c.start)
  {
    var wide, parts := req.(bucket := k * req.bucket), Inside(fine, k * req.bucket, c.start);
    var inside := (r: AggregateResult) => Truncate(r.start, k * req.bucket) == c.start;
    InsideIncreasing(fine, inside);
    forall r | r in parts ensures IsBucket(s, req, r) {
      PartIsBucket(s, req, fine, k * req.bucket, c.start, r);
    }
    SumsOfBuckets(s, req, parts);
    forall p | p in s
      ensures InBucket(wide, c.start, p) <==>
              InRange(req.start, req.end, p) && Starts(parts, Truncate(p.timestamp, req.bucket))
    {
      FineInsideCoarse(s, req, k, fine, coarse, c.start, p);
    }
    TotalsAddUp(s, req, parts, p => InBucket(wide, c.start, p));
    assert IsBucket(s, wide, c);
    assert Values(Group(s, wide, c.start))[0] == FirstValue(s, wide, c.start);
  }
}
