/** What the answers of the rule engine mean: which points make a condition trigger, and when a
    triggered rule acts. */
module RuleVerdicts {
  import opened Results
  import opened Sequences
  import opened TimeSeriesModel
  import opened RuleWindow
  import opened RuleEngine
  import TimeSeriesAggregation

  const TOLERANCE := 0.000000001

  ghost predicate InFloatRange(points: seq<Point>) { AtMost(points, MAX_FLOAT64) && AtLeast(points, -MAX_FLOAT64) }

  /** How each operator reads an aggregate that is above the threshold, has reached it, or is within
      the tolerance of it.  An operator the platform does not know never triggers. */
  ghost predicate Reads(op: Operator, above: bool, reached: bool, near: bool, triggered: bool) {
    && (op == GT ==> triggered == above)
    && (op == GTE ==> triggered == reached)
    && (op == LT ==> triggered == !reached)
    && (op == LTE ==> triggered == !above)
    && (op == EQ ==> triggered == near)
    && (op == NE ==> triggered == !near)
    && (op == NoOperator || op.OtherOperator? ==> !triggered)
  }

  ghost predicate Sampled(buffer: seq<Point>, c: Condition) { buffer != [] && |buffer| >= c.minSamples }

  /** The verdict on an aggregate x. */
  lemma VerdictOnValue(buffer: seq<Point>, c: Condition, x: real)
    requires Sampled(buffer, c) && AggregateOf(buffer, c.aggregate) == Ok(x)
    ensures Judge(buffer, c).Judged? && Judge(buffer, c).value == x
    ensures Reads(c.operator, x > c.threshold, x >= c.threshold,
                  c.threshold - TOLERANCE < x < c.threshold + TOLERANCE, Judge(buffer, c).triggered)
  {
  }

  ghost predicate SomeAbove(points: seq<Point>, t: real) { exists p :: p in points && p.value > t }
  ghost predicate SomeReach(points: seq<Point>, t: real) { exists p :: p in points && p.value >= t }
  ghost predicate SomeBelow(points: seq<Point>, t: real) { exists p :: p in points && p.value < t }
  ghost predicate AllAbove(points: seq<Point>, t: real) { forall p :: p in points ==> p.value > t }
  ghost predicate AllReach(points: seq<Point>, t: real) { forall p :: p in points ==> p.value >= t }
  ghost predicate AllBelow(points: seq<Point>, t: real) { forall p :: p in points ==> p.value < t }

  /** The greatest value is above t if and only if some value is, and so on. */
  lemma GreatestAgainst(points: seq<Point>, x: real, t: real)
    requires IsGreatestOf(points, x)
    ensures (x > t <==> SomeAbove(points, t)) && (x >= t <==> SomeReach(points, t)) && (x < t <==> AllBelow(points, t))
  {
    var q :| q in points && q.value == x;
  }

  lemma LeastAgainst(points: seq<Point>, x: real, t: real)
    requires IsLeastOf(points, x)
    ensures (x > t <==> AllAbove(points, t)) && (x >= t <==> AllReach(points, t)) && (x < t <==> SomeBelow(points, t))
  {
    var q :| q in points && q.value == x;
  }

  lemma GreatestReads(points: seq<Point>, x: real, op: Operator, t: real, triggered: bool)
    requires IsGreatestOf(points, x)
    requires Reads(op, x > t, x >= t, t - TOLERANCE < x < t + TOLERANCE, triggered)
    ensures Reads(op, SomeAbove(points, t), SomeReach(points, t),
                  SomeAbove(points, t - TOLERANCE) && AllBelow(points, t + TOLERANCE), triggered)
  {
    GreatestAgainst(points, x, t);
    GreatestAgainst(points, x, t - TOLERANCE);
    GreatestAgainst(points, x, t + TOLERANCE);
  }

  lemma LeastReads(points: seq<Point>, x: real, op: Operator, t: real, triggered: bool)
    requires IsLeastOf(points, x)
    requires Reads(op, x > t, x >= t, t - TOLERANCE < x < t + TOLERANCE, triggered)
    ensures Reads(op, AllAbove(points, t), AllReach(points, t),
                  SomeBelow(points, t + TOLERANCE) && AllAbove(points, t - TOLERANCE), triggered)
  {
    LeastAgainst(points, x, t);
    LeastAgainst(points, x, t - TOLERANCE);
    LeastAgainst(points, x, t + TOLERANCE);
  }

  /** A condition on the greatest value is one on some point or on all of them. */
  lemma MaxVerdict(buffer: seq<Point>, c: Condition)
    requires Sampled(buffer, c) && c.aggregate == Max && InFloatRange(buffer)
    ensures Judge(buffer, c).Judged?
    ensures var t := c.threshold;
            Reads(c.operator, SomeAbove(buffer, t), SomeReach(buffer, t),
                  SomeAbove(buffer, t - TOLERANCE) && AllBelow(buffer, t + TOLERANCE), Judge(buffer, c).triggered)
  {
    var x := GreatestValue(buffer);
    VerdictOnValue(buffer, c, x);
    GreatestReads(buffer, x, c.operator, c.threshold, Judge(buffer, c).triggered);
  }

  lemma GreatestValue(buffer: seq<Point>) returns (x: real)
    requires buffer != [] && InFloatRange(buffer)
    ensures AggregateOf(buffer, Max) == Ok(x) && IsGreatestOf(buffer, x)
  {
    FloatExtremesAreExact(buffer);
    x := AggregateOf(buffer, Max).value;
  }

  lemma LeastValue(buffer: seq<Point>) returns (x: real)
    requires buffer != [] && InFloatRange(buffer)
    ensures AggregateOf(buffer, Min) == Ok(x) && IsLeastOf(buffer, x)
  {
    FloatExtremesAreExact(buffer);
    x := AggregateOf(buffer, Min).value;
  }

  lemma MinVerdict(buffer: seq<Point>, c: Condition)
    requires Sampled(buffer, c) && c.aggregate == Min && InFloatRange(buffer)
    ensures Judge(buffer, c).Judged?
    ensures var t := c.threshold;
            Reads(c.operator, AllAbove(buffer, t), AllReach(buffer, t),
                  SomeBelow(buffer, t + TOLERANCE) && AllAbove(buffer, t - TOLERANCE), Judge(buffer, c).triggered)
  {
    var x := LeastValue(buffer);
    VerdictOnValue(buffer, c, x);
    LeastReads(buffer, x, c.operator, c.threshold, Judge(buffer, c).triggered);
  }

  /** Conditions on the newest value and on the number of samples. */
  lemma LastAndCountVerdict(buffer: seq<Point>, c: Condition)
    requires Sampled(buffer, c) && (c.aggregate == RuleEngine.Last || c.aggregate == Count)
    ensures Judge(buffer, c).Judged?
    ensures var t, x := c.threshold,
                        if c.aggregate == Count then |buffer| as real else buffer[|buffer| - 1].value;
            Reads(c.operator, x > t, x >= t, t - TOLERANCE < x < t + TOLERANCE, Judge(buffer, c).triggered)
  {
    VerdictOnValue(buffer, c, AggregateOf(buffer, c.aggregate).value);
  }

  /** Conditions on the sum and the average, both as conditions on the total: against the threshold,
      and against the threshold for every sample. */
  lemma TotalVerdict(buffer: seq<Point>, c: Condition)
    requires Sampled(buffer, c) && (c.aggregate == Sum || c.aggregate == Avg)
    ensures Judge(buffer, c).Judged?
    ensures var total := TimeSeriesAggregation.Total(TimeSeriesAggregation.Values(buffer));
            TotalReads(total, if c.aggregate == Sum then 1.0 else |buffer| as real, c.operator, c.threshold,
                       Judge(buffer, c).triggered)
  {
    var total := TimeSeriesAggregation.Total(TimeSeriesAggregation.Values(buffer));
    var n := if c.aggregate == Sum then 1.0 else |buffer| as real;
    VerdictOnValue(buffer, c, total / n);
    QuotientReads(total, n, c.operator, c.threshold, Judge(buffer, c).triggered);
  }

  ghost predicate TotalReads(total: real, n: real, op: Operator, t: real, triggered: bool) {
    Reads(op, total > t * n, total >= t * n, (t - TOLERANCE) * n < total < (t + TOLERANCE) * n, triggered)
  }

  lemma QuotientReads(total: real, n: real, op: Operator, t: real, triggered: bool)
    requires n > 0.0
    requires Reads(op, total / n > t, total / n >= t, t - TOLERANCE < total / n < t + TOLERANCE, triggered)
    ensures TotalReads(total, n, op, t, triggered)
  {
    QuotientAgainst(total, n, t);
    QuotientAgainst(total, n, t - TOLERANCE);
    QuotientAgainst(total, n, t + TOLERANCE);
  }

  lemma QuotientAgainst(total: real, n: real, t: real)
    requires n > 0.0
    ensures (total / n > t <==> total > t * n) && (total / n >= t <==> total >= t * n)
  {
    var d := total / n - t;
    assert d * n == total - t * n by {
      assert total / n * n == total;
    }
    SignOfProduct(d, n);
    assert d > 0.0 <==> total / n > t;
    assert d * n > 0.0 <==> total > t * n;
    assert d >= 0.0 <==> total / n >= t;
    assert d * n >= 0.0 <==> total >= t * n;
  }

  lemma SignOfProduct(x: real, n: real)
    requires n > 0.0
    ensures (x > 0.0 <==> x * n > 0.0) && (x >= 0.0 <==> x * n >= 0.0)
  {
    if x > 0.0 {
      assert x * n > 0.0;
    } else if x < 0.0 {
      assert (-x) * n > 0.0;
    }
  }

  /** Too few samples never trigger, and an aggregate the platform does not know is an error. */
  lemma NoVerdict(buffer: seq<Point>, c: Condition)
    ensures |buffer| < c.minSamples ==> Judge(buffer, c) == TooFew
    ensures |buffer| >= c.minSamples && (c.aggregate == NoKind || c.aggregate.OtherKind?) ==>
              Judge(buffer, c) == Unsupported
  {
  }

  ghost predicate AllBetween(g: seq<real>, lo: real, hi: real) { forall i :: 0 <= i < |g| ==> lo <= g[i] <= hi }

  lemma {:induction false} TotalBetween(g: seq<real>, lo: real, hi: real)
    requires AllBetween(g, lo, hi)
    ensures lo * |g| as real <= TimeSeriesAggregation.Total(g) <= hi * |g| as real
  {
    if g != [] {
      var before := g[..|g| - 1];
      TotalBetween(before, lo, hi);
      OneMoreBetween(TimeSeriesAggregation.Total(before), Sequences.Last(g), |before|, lo, hi);
    }
  }

  lemma OneMoreBetween(total: real, x: real, n: nat, lo: real, hi: real)
    requires lo * n as real <= total <= hi * n as real && lo <= x <= hi
    ensures lo * (n + 1) as real <= total + x <= hi * (n + 1) as real
  {
    assert (n + 1) as real == n as real + 1.0;
  }

  lemma QuotientBetween(total: real, n: real, lo: real, hi: real)
    requires n > 0.0 && lo * n <= total <= hi * n
    ensures lo <= total / n <= hi
  {
    QuotientAgainst(total, n, lo);
    QuotientAgainst(total, n, hi);
  }

  lemma ValuesBetween(points: seq<Point>, lo: real, hi: real)
    requires AtLeast(points, lo) && AtMost(points, hi)
    ensures AllBetween(TimeSeriesAggregation.Values(points), lo, hi)
  {
    forall i | 0 <= i < |points| ensures lo <= TimeSeriesAggregation.Values(points)[i] <= hi {
      assert points[i] in points;
    }
  }

  /** The average lies between the least and the greatest value. */
  lemma AverageBetween(points: seq<Point>, lo: real, hi: real)
    requires points != [] && AtLeast(points, lo) && AtMost(points, hi)
    ensures AggregateOf(points, Avg).Ok? && lo <= AggregateOf(points, Avg).value <= hi
  {
    var g := TimeSeriesAggregation.Values(points);
    ValuesBetween(points, lo, hi);
    TotalBetween(g, lo, hi);
    QuotientBetween(TimeSeriesAggregation.Total(g), |points| as real, lo, hi);
  }

  // ----- when a triggered rule acts -----

  /** When the rule acted, since it was last deleted. */
  ghost function Acted(next: Buffering, events: seq<Event>, ruleId: string): seq<Time> {
    if events == [] then []
    else
      var before, s := Acted(next, events[..|events| - 1], ruleId), Run(next, INITIAL, events[..|events| - 1]);
      match Sequences.Last(events)
      case DeleteRule(id) => if id == ruleId then [] else before
      case Evaluate(rule, point, at) =>
        if rule.id == ruleId && Step(next, s, Sequences.Last(events)).firings != s.firings then before + [at.stampAt]
        else before
  }

  /** The cooldown table holds the rule's latest action, and nothing if there was none. */
  ghost predicate Tabled(s: State, ts: seq<Time>, ruleId: string) {
    if ts == [] then ruleId !in s.cooldown
    else ruleId in s.cooldown && s.cooldown[ruleId] == Sequences.Last(ts)
  }

  lemma {:induction false} RunIsTabled(next: Buffering, events: seq<Event>, ruleId: string)
    ensures Tabled(Run(next, INITIAL, events), Acted(next, events, ruleId), ruleId)
  {
    if events != [] {
      var before := events[..|events| - 1];
      RunIsTabled(next, before, ruleId);
      StepKeepsTabled(next, Run(next, INITIAL, before), Sequences.Last(events), Acted(next, before, ruleId), ruleId);
    }
  }

  lemma StepKeepsTabled(next: Buffering, s: State, e: Event, ts: seq<Time>, ruleId: string)
    requires Tabled(s, ts, ruleId)
    ensures match e
            case DeleteRule(id) => Tabled(Step(next, s, e), if id == ruleId then [] else ts, ruleId)
            case Evaluate(rule, point, at) =>
              Tabled(Step(next, s, e),
                     if rule.id == ruleId && Step(next, s, e).firings != s.firings then ts + [at.stampAt] else ts,
                     ruleId)
  {
    if e.Evaluate? {
      assert |s.firings + [Firing(e.rule.id, e.at.stampAt)]| == |s.firings| + 1;
    }
  }

  /** After any run, an evaluation acts if and only if its condition triggers and the rule's latest
      action since it was deleted, if there was any, is at least the cooldown ago.  What was judged is
      recorded. */
  lemma ActsIffTriggeredAndCool(next: Buffering, events: seq<Event>, rule: Rule, point: Point, at: Readings)
    ensures var s, ts := Run(next, INITIAL, events), Acted(next, events, rule.id);
            var s' := Step(next, s, Evaluate(rule, point, at));
            var v := Judge(At(s'.buffers, rule.id), rule.condition);
            && s'.firings == (if v.Judged? && v.triggered
                                 && (ts == [] || Sequences.Last(ts) + rule.cooldown <= at.checkAt)
                              then s.firings + [Firing(rule.id, at.stampAt)] else s.firings)
            && (v.Judged? ==>
                  s'.executions != []
                  && Sequences.Last(s'.executions) == Execution(rule.id, rule.name, point.deviceId, point.property,
                                                                At(s'.buffers, rule.id), v.value, v.triggered,
                                                                at.executedAt))
            && (!v.Judged? ==> s'.executions == s.executions)
  {
    RunIsTabled(next, events, rule.id);
  }

  /** A listed rule has its turn if and only if it is enabled and not bound to another device or
      property; otherwise the point leaves no trace of it. */
  lemma TurnMeans(s: State, listed: Rule, point: Point, at: Readings)
    ensures var meant := listed.enabled && (listed.deviceId == "" || listed.deviceId == point.deviceId)
                         && (listed.property == "" || listed.property == point.property);
            Turn(s, listed, point, at)
            == if meant then Step(NextBuffer, s, Evaluate(Normalized(listed), point, at)) else s
  {
  }

  /** What a rule that leaves everything open asks for: an average above the threshold, over at least
      one sample of the last minute, with a minute's cooldown where a negative one is given. */
  lemma DefaultsOfRule(r: Rule)
    ensures var n := Normalized(r);
            && n.id == r.id && n.name == r.name && n.enabled == r.enabled && n.deviceId == r.deviceId
            && n.property == r.property && n.condition.threshold == r.condition.threshold
            && n.window == (if r.window <= 0 then 60_000_000_000 else r.window)
            && n.cooldown == (if r.cooldown < 0 then 60_000_000_000 else r.cooldown)
            && n.condition.minSamples == (if r.condition.minSamples <= 0 then 1 else r.condition.minSamples)
            && n.condition.operator == (if r.condition.operator.NoOperator? then GT else r.condition.operator)
            && n.condition.aggregate == (if r.condition.aggregate.NoKind? then Avg else r.condition.aggregate)
            && Normalized(n) == n
  {
  }

  /** The window of a rule reaches back to and includes its cutoff, and keeps at most 1000 points. */
  lemma WindowMeans(points: seq<Point>, cutoff: Time, p: Point)
    ensures p in Window(points, cutoff) <==> p in points && p.timestamp >= cutoff
    ensures BUFFER_LIMIT == 1000 && EXECUTION_LIMIT == 5000
  {
    FilterMember(points, q => Fresh(cutoff, q), p);
  }
}
