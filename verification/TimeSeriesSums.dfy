/** Sums and averages of buckets against the totals of their points: when they agree, and inputs on
    which they do not. */
module TimeSeriesSums {
  import opened Sequences
  import opened TimeSeriesModel
  import opened TimeSeriesAggregation

  // ----- one bucket -----

  /** A sum is the total of its bucket's points, and an average their mean, if and only if the first
      point of the bucket has value zero. */
  lemma SumIsTotalIffFirstIsZero(s: seq<Point>, req: AggregateRequest, r: AggregateResult)
    requires IsBucket(s, req, r)
    ensures req.kind == Sum ==>
              (r.value == Total(Values(Group(s, req, r.start))) <==> FirstValue(s, req, r.start) == 0.0)
    ensures req.kind == Avg ==> (r.value == Total(Values(Group(s, req, r.start))) / r.count as real
                                 <==> FirstValue(s, req, r.start) == 0.0)
  {
    assert Values(Group(s, req, r.start))[0] == FirstValue(s, req, r.start);
    if req.kind == Avg {
      MeanIffNoShift(r.value, Total(Values(Group(s, req, r.start))), FirstValue(s, req, r.start), r.count);
    }
  }

  lemma MeanIffNoShift(value: real, total: real, shift: real, n: nat)
    requires n > 0 && value == (total + shift) / n as real
    ensures value == total / n as real <==> shift == 0.0
  {
    assert value * n as real == total + shift;
  }

  lemma GroupOfOne(p: Point, req: AggregateRequest, b: Time)
    ensures Group([p], req, b) == if InBucket(req, b, p) then [p] else []
  {
    var none: seq<Point> := [p][..0];
    assert Filter(none, q => InBucket(req, b, q)) == [];
  }

  lemma TotalOfOne(x: real)
    ensures Total([x]) == x
  {
    var none: seq<real> := [x][..0];
    assert Total(none) == 0.0;
  }

  lemma BucketOfOne(p: Point, req: AggregateRequest, r: AggregateResult)
    requires IsBucket([p], req, r) && (req.kind == Sum || req.kind == Avg)
    ensures r.start == Truncate(p.timestamp, req.bucket) && r.count == 1 && r.value == p.value + p.value
  {
    GroupOfOne(p, req, r.start);
    assert Values([p]) == [p.value];
    TotalOfOne(p.value);
  }

  /** A bucket that holds one point reports twice its value, as its sum and as its average. */
  lemma AverageOfOneIsDouble(p: Point, req: AggregateRequest, rs: seq<AggregateResult>)
    requires IsAggregation([p], req, rs) && InRange(req.start, req.end, p) && (req.kind == Sum || req.kind == Avg)
    ensures |rs| == 1 && rs[0].count == 1 && rs[0].value == p.value + p.value
  {
    assert p in [p];
    var r :| r in rs && r.start == Truncate(p.timestamp, req.bucket);
    assert |rs| >= 2 ==> rs[0].start < rs[1].start;
    BucketOfOne(p, req, rs[0]);
    if |rs| >= 2 {
      BucketOfOne(p, req, rs[1]);
    }
  }

  // ----- fine sums and coarse sums -----

  lemma {:induction false} FilterFirst<T>(s: seq<T>, p: T -> bool)
    requires s != [] && p(s[0])
    ensures Filter(s, p) != [] && Filter(s, p)[0] == s[0]
  {
    if |s| > 1 {
      FilterFirst(s[..|s| - 1], p);
    }
  }

  lemma TruncateMonotone(a: Time, b: Time, d: Duration)
    requires d > 0 && a <= b
    ensures Truncate(a, d) <= Truncate(b, d)
  {
    TruncateAligned(a, d);
    TruncateAligned(b, d);
    if Truncate(b, d) < Truncate(a, d) {
      AlignedApart(Truncate(b, d), Truncate(a, d), d);
    }
  }

  lemma {:induction false} FirstValuesFromFirst(s: seq<Point>, req: AggregateRequest, rs: seq<AggregateResult>)
    requires rs != []
    ensures FirstValues(s, req, rs) == FirstValue(s, req, rs[0].start) + FirstValues(s, req, rs[1..])
  {
    var rs' := rs[..|rs| - 1];
    if rs' == [] {
      assert rs[1..] == [];
      assert FirstValues(s, req, rs') == 0.0;
    } else {
      FirstValuesFromFirst(s, req, rs');
      assert rs[1..][..|rs[1..]| - 1] == rs'[1..];
    }
  }

  /** In a time-ordered series the first fine bucket and the coarse bucket open with one point. */
  lemma SameOpening(s: seq<Point>, req: AggregateRequest, k: int,
                    fine: seq<AggregateResult>, coarse: seq<AggregateResult>, c: AggregateResult)
    requires Refines(s, req, k, fine, coarse) && c in coarse && InTimeOrder(s)
    ensures var parts := Inside(fine, k * req.bucket, c.start);
            parts != [] && FirstValue(s, req, parts[0].start) == FirstValue(s, req.(bucket := k * req.bucket), c.start)
  {
    var wide, parts := req.(bucket := k * req.bucket), Inside(fine, k * req.bucket, c.start);
    var g := Group(s, wide, c.start);
    assert IsBucket(s, wide, c);
    var first := g[0];
    GroupMember(s, wide, c.start, first);
    FineInsideCoarse(s, req, k, fine, coarse, c.start, first);
    InsideIncreasing(fine, (r: AggregateResult) => Truncate(r.start, k * req.bucket) == c.start);
    assert Starts(parts, Truncate(first.timestamp, req.bucket));
    OpeningIsFirst(s, req, k, fine, coarse, c, first);
    var b := parts[0].start;
    forall p | p in s ensures InBucket(req, b, p) <==> InBucket(wide, c.start, p) && InBucket(req, b, p) {
      assert parts[0] in parts;
      FineInsideCoarse(s, req, k, fine, coarse, c.start, p);
    }
    FilterTwice(s, p => InBucket(wide, c.start, p), p => InBucket(req, b, p), p => InBucket(req, b, p));
    FilterFirst(g, p => InBucket(req, b, p));
  }

  lemma FirstStartsLeast(rs: seq<AggregateResult>, r: AggregateResult)
    requires Increasing(rs) && r in rs
    ensures rs[0].start <= r.start
  {
    var i :| 0 <= i < |rs| && rs[i] == r;
    assert i == 0 || rs[0].start < rs[i].start;
  }

  lemma GroupOpensEarliest(s: seq<Point>, req: AggregateRequest, b: Time, p: Point)
    requires InTimeOrder(s) && p in Group(s, req, b)
    ensures Group(s, req, b)[0].timestamp <= p.timestamp
  {
    FilterSorted(s, q => InBucket(req, b, q));
    var g := Group(s, req, b);
    assert g == Filter(s, q => InBucket(req, b, q));
    var i :| 0 <= i < |g| && g[i] == p;
    assert i == 0 || g[0].timestamp <= g[i].timestamp;
  }

  /** Some point of the fine bucket, also in the coarse one. */
  lemma PointOfPart(s: seq<Point>, req: AggregateRequest, k: int, fine: seq<AggregateResult>,
                    coarse: seq<AggregateResult>, c: AggregateResult, r: AggregateResult) returns (p: Point)
    requires Refines(s, req, k, fine, coarse) && c in coarse && r in Inside(fine, k * req.bucket, c.start)
    ensures p in Group(s, req.(bucket := k * req.bucket), c.start) && Truncate(p.timestamp, req.bucket) == r.start
  {
    PartIsBucket(s, req, fine, k * req.bucket, c.start, r);
    p := Group(s, req, r.start)[0];
    GroupMember(s, req, r.start, p);
    FineInsideCoarse(s, req, k, fine, coarse, c.start, p);
    GroupMember(s, req.(bucket := k * req.bucket), c.start, p);
  }

  lemma OpeningIsFirst(s: seq<Point>, req: AggregateRequest, k: int,
                       fine: seq<AggregateResult>, coarse: seq<AggregateResult>, c: AggregateResult, first: Point)
    requires Refines(s, req, k, fine, coarse) && c in coarse && InTimeOrder(s)
    requires var g := Group(s, req.(bucket := k * req.bucket), c.start); g != [] && first == g[0]
    requires var parts := Inside(fine, k * req.bucket, c.start);
             Increasing(parts) && Starts(parts, Truncate(first.timestamp, req.bucket))
    ensures Inside(fine, k * req.bucket, c.start) != []
    ensures Truncate(first.timestamp, req.bucket) == Inside(fine, k * req.bucket, c.start)[0].start
  {
    var parts := Inside(fine, k * req.bucket, c.start);
    var r :| r in parts && r.start == Truncate(first.timestamp, req.bucket);
    FirstStartsLeast(parts, r);
    assert parts[0] in parts;
    var p := PointOfPart(s, req, k, fine, coarse, c, parts[0]);
    GroupOpensEarliest(s, req.(bucket := k * req.bucket), c.start, p);
    TruncateMonotone(first.timestamp, p.timestamp, req.bucket);
  }

  /** In a time-ordered series, as the store keeps them, fine sums add up to the coarse sum if and
      only if the values that open the fine buckets after the first add up to zero. */
  lemma RollUpSumInOrder(s: seq<Point>, req: AggregateRequest, k: int,
                         fine: seq<AggregateResult>, coarse: seq<AggregateResult>, c: AggregateResult)
    requires Refines(s, req, k, fine, coarse) && c in coarse && req.kind == Sum && InTimeOrder(s)
    ensures var parts := Inside(fine, k * req.bucket, c.start);
            parts != []
            && (Total(ResultValues(parts)) == c.value <==> FirstValues(s, req, parts[1..]) == 0.0)
  {
    RollUpSum(s, req, k, fine, coarse, c);
    SameOpening(s, req, k, fine, coarse, c);
    FirstValuesFromFirst(s, req, Inside(fine, k * req.bucket, c.start));
  }

  // ----- an input on which sums do not roll up -----

  function Sample(t: Time): Point { Point("device", "temperature", t, 1.0, "", false, "float", "C") }

  /** Two samples of 1.0, one second apart. */
  const FIRST: Time := HOUR
  const PAIR := [Sample(FIRST), Sample(FIRST + SECOND)]

  const BY_SECOND := AggregateRequest("device", "temperature", FIRST, FIRST + SECOND, Sum, SECOND)
  const BY_TWO := BY_SECOND.(bucket := 2 * SECOND)

  lemma GroupOfPair(req: AggregateRequest, b: Time)
    ensures Group(PAIR, req, b) == (if InBucket(req, b, PAIR[0]) then [PAIR[0]] else [])
                                   + (if InBucket(req, b, PAIR[1]) then [PAIR[1]] else [])
  {
    GroupOfOne(PAIR[0], req, b);
    assert PAIR == [PAIR[0]] + [PAIR[1]];
    FilterSnoc([PAIR[0]], PAIR[1], q => InBucket(req, b, q));
  }

  lemma TotalOfTwo(x: real, y: real)
    ensures Total([x, y]) == x + y
  {
    TotalOfOne(x);
    assert [x, y][..1] == [x];
  }

  /** What the three buckets of the pair hold. */
  lemma PairIsBucket(req: AggregateRequest, r: AggregateResult)
    requires req == BY_SECOND || req == BY_TWO
    requires r.end == r.start + req.bucket
    requires if req == BY_SECOND then r.value == 2.0 && r.count == 1 && (r.start == FIRST || r.start == FIRST + SECOND)
             else r.value == 3.0 && r.count == 2 && r.start == FIRST
    ensures IsBucket(PAIR, req, r)
  {
    GroupOfPair(req, r.start);
    var g := Group(PAIR, req, r.start);
    TotalOfOne(1.0);
    TotalOfTwo(1.0, 1.0);
    assert Values(g) == if req == BY_SECOND then [1.0] else [1.0, 1.0];
  }

  lemma PairTruncates()
    ensures Truncate(FIRST, SECOND) == FIRST && Truncate(FIRST + SECOND, SECOND) == FIRST + SECOND
    ensures Truncate(FIRST, 2 * SECOND) == FIRST && Truncate(FIRST + SECOND, 2 * SECOND) == FIRST
  {
  }

  const FINE := [AggregateResult(FIRST, FIRST + SECOND, 2.0, 1),
                 AggregateResult(FIRST + SECOND, FIRST + 2 * SECOND, 2.0, 1)]
  const COARSE := [AggregateResult(FIRST, FIRST + 2 * SECOND, 3.0, 2)]

  lemma FineOfPair()
    ensures IsAggregation(PAIR, BY_SECOND, FINE)
  {
    PairTruncates();
    assert Increasing(FINE) && FINE[0] in FINE && FINE[1] in FINE;
    assert Starts(FINE, FIRST) && Starts(FINE, FIRST + SECOND);
    forall r | r in FINE ensures IsBucket(PAIR, BY_SECOND, r) {
      PairIsBucket(BY_SECOND, r);
    }
    forall p | p in PAIR ensures Starts(FINE, Truncate(p.timestamp, SECOND)) {
    }
  }

  lemma CoarseOfPair()
    ensures IsAggregation(PAIR, BY_TWO, COARSE)
  {
    PairTruncates();
    assert Increasing(COARSE) && COARSE[0] in COARSE;
    assert Starts(COARSE, FIRST);
    PairIsBucket(BY_TWO, COARSE[0]);
    forall p | p in PAIR ensures Starts(COARSE, Truncate(p.timestamp, 2 * SECOND)) {
    }
  }

  /** Two samples of 1.0: the seconds report 2.0 each, the two seconds together 3.0. */
  lemma SumsDoNotRollUp()
    ensures Refines(PAIR, BY_SECOND, 2, FINE, COARSE)
    ensures Total(ResultValues(FINE)) == 4.0 && COARSE[0].value == 3.0
  {
    FineOfPair();
    CoarseOfPair();
    assert ResultValues(FINE) == [2.0, 2.0];
    TotalOfTwo(2.0, 2.0);
  }
}
