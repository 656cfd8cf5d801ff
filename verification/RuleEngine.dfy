/** The rule engine: buffers, conditions and the cooldown that bounds how often actions run. */
module RuleEngine {
  import opened Arithmetic
  import opened Results
  import opened Sequences
  import opened TimeSeriesModel
  import opened RuleWindow
  import TimeSeriesAggregation

  datatype Operator = NoOperator | GT | GTE | LT | LTE | EQ | NE | OtherOperator(name: string)
  datatype AggregateKind = NoKind | Avg | Min | Max | Sum | Count | Last | OtherKind(name: string)

  datatype Condition = Condition(operator: Operator, threshold: real, aggregate: AggregateKind, minSamples: int)

  datatype Rule = Rule(id: string, name: string, enabled: bool, deviceId: string, property: string,
                       condition: Condition, window: Duration, cooldown: Duration)

  function Normalized(r: Rule): Rule {
    r.(window := if r.window <= 0 then MINUTE else r.window,
       cooldown := if r.cooldown < 0 then MINUTE else r.cooldown,
       condition := r.condition.(
         minSamples := if r.condition.minSamples <= 0 then 1 else r.condition.minSamples,
         operator := if r.condition.operator == NoOperator then GT else r.condition.operator,
         aggregate := if r.condition.aggregate == NoKind then Avg else r.condition.aggregate))
  }

  // ----- aggregate and compare -----

  const TWO_TO_64: int := 0x1_0000_0000_0000_0000
  const TWO_TO_256: int := TWO_TO_64 * TWO_TO_64 * TWO_TO_64 * TWO_TO_64
  const TWO_TO_971: int := TWO_TO_256 * TWO_TO_256 * TWO_TO_256 * TWO_TO_64 * TWO_TO_64 * TWO_TO_64 * 0x800

  /** Go's `math.MaxFloat64`: (2^53 - 1) * 2^971. */
  const MAX_FLOAT64: real := (0x1F_FFFF_FFFF_FFFF * TWO_TO_971) as real

  function TotalOf(points: seq<Point>): real { TimeSeriesAggregation.Total(TimeSeriesAggregation.Values(points)) }

  /** The running minimum, seeded with the greatest float. */
  function LeastOf(points: seq<Point>, seed: real): real {
    if points == [] then seed
    else
      var least, v := LeastOf(points[..|points| - 1], seed), Sequences.Last(points).value;
      if v < least then v else least
  }

  function GreatestOf(points: seq<Point>, seed: real): real {
    if points == [] then seed
    else
      var greatest, v := GreatestOf(points[..|points| - 1], seed), Sequences.Last(points).value;
      if v > greatest then v else greatest
  }

  ghost predicate AtMost(points: seq<Point>, x: real) { forall p :: p in points ==> p.value <= x }
  ghost predicate AtLeast(points: seq<Point>, x: real) { forall p :: p in points ==> x <= p.value }

  ghost predicate IsLeastOf(points: seq<Point>, x: real) {
    (exists p :: p in points && p.value == x) && AtLeast(points, x)
  }

  ghost predicate IsGreatestOf(points: seq<Point>, x: real) {
    (exists p :: p in points && p.value == x) && AtMost(points, x)
  }

  lemma {:induction false} LeastIsExact(points: seq<Point>, seed: real)
    requires points != [] && AtMost(points, seed)
    ensures IsLeastOf(points, LeastOf(points, seed))
  {
    SplitLast(points);
    var before, last := points[..|points| - 1], Sequences.Last(points);
    assert last in points;
    if before == [] {
      assert LeastOf(before, seed) == seed && last.value == LeastOf(points, seed);
    } else {
      LeastIsExact(before, seed);
      var p :| p in before && p.value == LeastOf(before, seed);
      assert p in points;
      assert LeastOf(points, seed) == if last.value < p.value then last.value else p.value;
    }
  }

  lemma {:induction false} GreatestIsExact(points: seq<Point>, seed: real)
    requires points != [] && AtLeast(points, seed)
    ensures IsGreatestOf(points, GreatestOf(points, seed))
  {
    SplitLast(points);
    var before, last := points[..|points| - 1], Sequences.Last(points);
    assert last in points;
    if before == [] {
      assert GreatestOf(before, seed) == seed && last.value == GreatestOf(points, seed);
    } else {
      GreatestIsExact(before, seed);
      var p :| p in before && p.value == GreatestOf(before, seed);
      assert p in points;
      assert GreatestOf(points, seed) == if last.value > p.value then last.value else p.value;
    }
  }

  /** Seeding with the extremes of the float range does no harm to values inside the range. */
  lemma ExtremesAreExact(points: seq<Point>, seed: real)
    requires points != []
    ensures AtMost(points, seed) ==> IsLeastOf(points, LeastOf(points, seed))
    ensures AtLeast(points, -seed) ==> IsGreatestOf(points, GreatestOf(points, -seed))
  {
    if AtMost(points, seed) {
      LeastIsExact(points, seed);
    }
    if AtLeast(points, -seed) {
      GreatestIsExact(points, -seed);
    }
  }

  function AggregateOf(points: seq<Point>, kind: AggregateKind): Result<real> {
    if points == [] then Err(Internal)
    else
      match kind
      case Avg => Ok(TotalOf(points) / |points| as real)
      case Min => Ok(LeastOf(points, MAX_FLOAT64))
      case Max => Ok(GreatestOf(points, -MAX_FLOAT64))
      case Sum => Ok(TotalOf(points))
      case Count => Ok(|points| as real)
      case Last => Ok(Sequences.Last(points).value)
      case _ => Err(Internal)
  }

  /** So on values in the range of a float, minimum and maximum are those of the points. */
  lemma FloatExtremesAreExact(points: seq<Point>)
    requires points != [] && AtMost(points, MAX_FLOAT64) && AtLeast(points, -MAX_FLOAT64)
    ensures AggregateOf(points, Min).Ok? && IsLeastOf(points, AggregateOf(points, Min).value)
    ensures AggregateOf(points, Max).Ok? && IsGreatestOf(points, AggregateOf(points, Max).value)
  {
    ExtremesAreExact(points, MAX_FLOAT64);
  }

  method Aggregate(points: seq<Point>, kind: AggregateKind) returns (r: Result<real>)
    ensures r == AggregateOf(points, kind)
  {
    if |points| == 0 {
      return Err(Internal);
    }
    match kind {
      case Avg =>
        var sum := Total(points);
        r := Ok(sum / |points| as real);
      case Min =>
        var value := MAX_FLOAT64;
        for i := 0 to |points|
          invariant value == LeastOf(points[..i], MAX_FLOAT64)
        {
          assert points[..i + 1][..i] == points[..i];
          if points[i].value < value { value := points[i].value; }
        }
        assert points[..|points|] == points;
        r := Ok(value);
      case Max =>
        var value := -MAX_FLOAT64;
        for i := 0 to |points|
          invariant value == GreatestOf(points[..i], -MAX_FLOAT64)
        {
          assert points[..i + 1][..i] == points[..i];
          if points[i].value > value { value := points[i].value; }
        }
        assert points[..|points|] == points;
        r := Ok(value);
      case Sum =>
        var sum := Total(points);
        r := Ok(sum);
      case Count => r := Ok(|points| as real);
      case Last => r := Ok(points[|points| - 1].value);
      case _ => r := Err(Internal);
    }
  }

  method Total(points: seq<Point>) returns (sum: real)
    ensures sum == TotalOf(points)
  {
    sum := 0.0;
    for i := 0 to |points|
      invariant sum == TotalOf(points[..i])
    {
      assert points[..i + 1] == points[..i] + [points[i]];
      TimeSeriesAggregation.TotalSnoc(points[..i], points[i]);
      sum := sum + points[i].value;
    }
    assert points[..|points|] == points;
  }

  function Abs(x: real): real { if x < 0.0 then -x else x }

  predicate Compare(value: real, operator: Operator, threshold: real) {
    match operator
    case GT => value > threshold
    case GTE => value >= threshold
    case LT => value < threshold
    case LTE => value <= threshold
    case EQ => Abs(value - threshold) < 0.000000001
    case NE => Abs(value - threshold) >= 0.000000001
    case _ => false
  }

  // ----- the engine -----

  /** The clock readings of one evaluation, in the order they are taken. */
  datatype Readings = Readings(cutoffAt: Time, executedAt: Time, checkAt: Time, stampAt: Time)

  predicate Forward(at: Readings) { at.cutoffAt <= at.executedAt <= at.checkAt <= at.stampAt }

  datatype Execution = Execution(ruleId: string, ruleName: string, deviceId: string, property: string,
                                 inputs: seq<Point>, aggregate: real, triggered: bool, executedAt: Time)

  /** The actions of a rule, handed to the executor and stamped in the cooldown table. */
  datatype Firing = Firing(ruleId: string, at: Time)

  datatype State = State(buffers: map<string, seq<Point>>, cooldown: map<string, Time>,
                         executions: seq<Execution>, firings: seq<Firing>)

  const INITIAL := State(map[], map[], [], [])

  /** The executions the in-memory repository keeps. */
  const EXECUTION_LIMIT: nat := 5000

  /** What the condition makes of a buffer: too few samples, an unsupported aggregate, or an
      aggregate that does or does not trigger. */
  datatype Verdict = TooFew | Unsupported | Judged(value: real, triggered: bool)

  function Judge(buffer: seq<Point>, c: Condition): Verdict {
    var value := AggregateOf(buffer, c.aggregate);
    if |buffer| < c.minSamples then TooFew
    else if value.Err? then Unsupported
    else Judged(value.value, Compare(value.value, c.operator, c.threshold))
  }

  predicate Cooling(s: State, rule: Rule, at: Readings) {
    rule.id in s.cooldown && at.checkAt < s.cooldown[rule.id] + rule.cooldown
  }

  predicate Fires(s: State, rule: Rule, at: Readings, v: Verdict) {
    v.Judged? && v.triggered && !Cooling(s, rule, at)
  }

  function Settle(s: State, rule: Rule, point: Point, at: Readings, buffer: seq<Point>, v: Verdict): State {
    State(
      s.buffers[rule.id := buffer],
      if Fires(s, rule, at, v) then s.cooldown[rule.id := at.stampAt] else s.cooldown,
      if v.Judged? then
        LastUpTo(s.executions + [Execution(rule.id, rule.name, point.deviceId, point.property, buffer, v.value,
                                           v.triggered, at.executedAt)], EXECUTION_LIMIT)
      else s.executions,
      if Fires(s, rule, at, v) then s.firings + [Firing(rule.id, at.stampAt)] else s.firings)
  }

  function Evaluated(next: Buffering, s: State, rule: Rule, point: Point, at: Readings): State {
    var buffer := next(At(s.buffers, rule.id), Arrival(point, at.cutoffAt - rule.window));
    Settle(s, rule, point, at, buffer, Judge(buffer, rule.condition))
  }

  function Deleted(s: State, ruleId: string): State {
    s.(buffers := s.buffers - {ruleId}, cooldown := s.cooldown - {ruleId})
  }

  // ----- runs -----

  datatype Event =
    | Evaluate(rule: Rule, point: Point, at: Readings)
    | DeleteRule(ruleId: string)

  function Step(next: Buffering, s: State, e: Event): State {
    match e
    case Evaluate(rule, point, at) => Evaluated(next, s, rule, point, at)
    case DeleteRule(id) => Deleted(s, id)
  }

  /** A run under any way of buffering; the engine's own is `NextBuffer`. */
  function Run(next: Buffering, s: State, events: seq<Event>): State {
    if events == [] then s else Step(next, Run(next, s, events[..|events| - 1]), Sequences.Last(events))
  }

  /** The points that reached one rule since it was last deleted. */
  function Arrivals(events: seq<Event>, ruleId: string): seq<Arrival> {
    if events == [] then []
    else
      var before := Arrivals(events[..|events| - 1], ruleId);
      match Sequences.Last(events)
      case Evaluate(rule, point, at) =>
        if rule.id == ruleId then before + [Arrival(point, at.cutoffAt - rule.window)] else before
      case DeleteRule(id) => if id == ruleId then [] else before
  }

  /** Storing the buffer first makes no difference to how an evaluation settles. */
  lemma SettleAfterStore(s: State, rule: Rule, point: Point, at: Readings, buffer: seq<Point>, v: Verdict)
    ensures Settle(s.(buffers := s.buffers[rule.id := buffer]), rule, point, at, buffer, v)
         == Settle(s, rule, point, at, buffer, v)
  {
  }

  /** However rules are interleaved, a rule's buffer depends on its own arrivals only. */
  lemma {:induction false} BufferIsOwn(next: Buffering, events: seq<Event>, ruleId: string)
    ensures At(Run(next, INITIAL, events).buffers, ruleId) == Buffer(next, Arrivals(events, ruleId))
  {
    if events != [] {
      var before, e := events[..|events| - 1], Sequences.Last(events);
      BufferIsOwn(next, before, ruleId);
      match e
      case Evaluate(rule, point, at) =>
        BufferSnoc(next, Arrivals(before, ruleId), Arrival(point, at.cutoffAt - rule.window));
      case DeleteRule(id) =>
    }
  }

  /** The engine's window over whole runs: if a rule's points arrive in time order and its cutoff
      never moves back, its buffer is the window computed from scratch. */
  lemma EngineRefinesWindow(events: seq<Event>, ruleId: string)
    requires Arrivals(events, ruleId) != [] && InOrder(Arrivals(events, ruleId))
    ensures At(Run(NextBuffer, INITIAL, events).buffers, ruleId)
         == LastUpTo(Window(Points(Arrivals(events, ruleId)), Sequences.Last(Arrivals(events, ruleId)).cutoff),
                     BUFFER_LIMIT)
  {
    BufferIsOwn(NextBuffer, events, ruleId);
    BufferIsWindow(Arrivals(events, ruleId));
  }

  // ----- the cooldown -----

  function FiringTimes(firings: seq<Firing>, ruleId: string): seq<Time> {
    if firings == [] then []
    else FiringTimes(firings[..|firings| - 1], ruleId)
         + if Sequences.Last(firings).ruleId == ruleId then [Sequences.Last(firings).at] else []
  }

  lemma FiringSnoc(firings: seq<Firing>, f: Firing, ruleId: string)
    ensures FiringTimes(firings + [f], ruleId)
         == FiringTimes(firings, ruleId) + if f.ruleId == ruleId then [f.at] else []
  {
    assert (firings + [f])[..|firings|] == firings;
  }

  ghost predicate Apart(ts: seq<Time>, gap: Duration) {
    forall i, j :: 0 <= i < j < |ts| ==> ts[j] - ts[i] >= gap
  }

  /** The rule is not deleted, and its cooldown is at least `gap` when it is evaluated. */
  predicate KeepsCooldown(e: Event, ruleId: string, gap: Duration) {
    match e
    case Evaluate(rule, _, at) => Forward(at) && (rule.id == ruleId ==> rule.cooldown >= gap)
    case DeleteRule(id) => id != ruleId
  }

  ghost predicate AllKeepCooldown(events: seq<Event>, ruleId: string, gap: Duration) {
    forall e :: e in events ==> KeepsCooldown(e, ruleId, gap)
  }

  /** The cooldown table holds the latest firing, and firings are apart. */
  ghost predicate Spaced(s: State, ruleId: string, gap: Duration) {
    var ts := FiringTimes(s.firings, ruleId);
    && Apart(ts, gap)
    && (ts != [] ==> ruleId in s.cooldown && s.cooldown[ruleId] == Sequences.Last(ts))
  }

  lemma ApartSnoc(ts: seq<Time>, gap: Duration, t: Time)
    requires gap >= 0 && Apart(ts, gap) && (ts != [] ==> t >= Sequences.Last(ts) + gap)
    ensures Apart(ts + [t], gap)
  {
    forall i | 0 <= i < |ts| ensures t - ts[i] >= gap {
      assert i == |ts| - 1 || ts[|ts| - 1] - ts[i] >= gap;
    }
  }

  lemma SettleKeepsSpaced(s: State, rule: Rule, point: Point, at: Readings, buffer: seq<Point>, v: Verdict,
                          ruleId: string, gap: Duration)
    requires gap >= 0 && Spaced(s, ruleId, gap) && Forward(at) && (rule.id == ruleId ==> rule.cooldown >= gap)
    ensures Spaced(Settle(s, rule, point, at, buffer, v), ruleId, gap)
  {
    if Fires(s, rule, at, v) {
      FiringSnoc(s.firings, Firing(rule.id, at.stampAt), ruleId);
      if rule.id == ruleId {
        ApartSnoc(FiringTimes(s.firings, ruleId), gap, at.stampAt);
      }
    }
  }

  lemma StepKeepsSpaced(next: Buffering, s: State, e: Event, ruleId: string, gap: Duration)
    requires gap >= 0 && Spaced(s, ruleId, gap) && KeepsCooldown(e, ruleId, gap)
    ensures Spaced(Step(next, s, e), ruleId, gap)
  {
    if e.Evaluate? {
      var buffer := next(At(s.buffers, e.rule.id), Arrival(e.point, e.at.cutoffAt - e.rule.window));
      SettleKeepsSpaced(s, e.rule, e.point, e.at, buffer, Judge(buffer, e.rule.condition), ruleId, gap);
    }
  }

  /** Over every run, consecutive executions of a rule's actions are at least its cooldown apart. */
  lemma {:induction false} FiringsAreSpaced(next: Buffering, events: seq<Event>, ruleId: string, gap: Duration)
    requires gap >= 0 && AllKeepCooldown(events, ruleId, gap)
    ensures Spaced(Run(next, INITIAL, events), ruleId, gap)
  {
    if events != [] {
      SplitLast(events);
      FiringsAreSpaced(next, events[..|events| - 1], ruleId, gap);
      StepKeepsSpaced(next, Run(next, INITIAL, events[..|events| - 1]), Sequences.Last(events), ruleId, gap);
    }
  }

  function Within(ts: seq<Time>, start: Time, length: Duration): seq<Time> {
    Filter(ts, t => start <= t <= start + length)
  }

  lemma {:induction false} WithinApart(ts: seq<Time>, p: Time -> bool, gap: Duration)
    requires Apart(ts, gap)
    ensures Apart(Filter(ts, p), gap)
  {
    if ts != [] {
      var ts' := ts[..|ts| - 1];
      WithinApart(ts', p, gap);
      var f := Filter(ts', p);
      forall i | 0 <= i < |f| ensures Sequences.Last(ts) - f[i] >= gap {
        FilterMember(ts', p, f[i]);
        assert f[i] in ts';
      }
    }
  }

  lemma {:induction false} SpanOfApart(ts: seq<Time>, gap: Duration)
    requires gap > 0 && Apart(ts, gap) && ts != []
    ensures Sequences.Last(ts) - ts[0] >= (|ts| - 1) * gap
  {
    if |ts| > 1 {
      SpanOfApart(ts[..|ts| - 1], gap);
      assert ts[|ts| - 1] - ts[|ts| - 2] >= gap;
    }
  }

  lemma ApartWithin(ts: seq<Time>, gap: Duration, start: Time, length: Duration)
    requires gap > 0 && length >= 0 && Apart(ts, gap)
    ensures |Within(ts, start, length)| <= length / gap + 1
  {
    var p := (t: Time) => start <= t <= start + length;
    WithinApart(ts, p, gap);
    var w := Filter(ts, p);
    if w != [] {
      SpanOfApart(w, gap);
      FilterMember(ts, p, w[0]);
      FilterMember(ts, p, Sequences.Last(w));
      QuotientAtLeast(|w| - 1, length, gap);
    }
    assert w == Within(ts, start, length);
  }

  /** Rate bound: any interval of length T holds at most T / cooldown + 1 executions. */
  lemma CooldownBoundsRate(next: Buffering, events: seq<Event>, ruleId: string, gap: Duration,
                           start: Time, length: Duration)
    requires gap > 0 && length >= 0 && AllKeepCooldown(events, ruleId, gap)
    ensures |Within(FiringTimes(Run(next, INITIAL, events).firings, ruleId), start, length)| <= length / gap + 1
  {
    FiringsAreSpaced(next, events, ruleId, gap);
    ApartWithin(FiringTimes(Run(next, INITIAL, events).firings, ruleId), gap, start, length);
  }

  // ----- the methods -----

  method CheckCondition(buffer: seq<Point>, c: Condition) returns (v: Verdict)
    ensures v == Judge(buffer, c)
  {
    if |buffer| < c.minSamples {
      return TooFew;
    }
    var value := Aggregate(buffer, c.aggregate);
    if value.Err? {
      return Unsupported;
    }
    v := Judged(value.value, Compare(value.value, c.operator, c.threshold));
  }

  class Engine {
    var buffers: map<string, seq<Point>>
    var cooldown: map<string, Time>
    /** The repository's executions, and every hand-over to the executor. */
    var executions: seq<Execution>
    ghost var firings: seq<Firing>

    ghost function Abstract(): State
      reads this
    {
      State(buffers, cooldown, executions, firings)
    }

    constructor ()
      ensures Abstract() == INITIAL
    {
      buffers, cooldown, executions, firings := map[], map[], [], [];
    }

    /** `evaluateRule`; `executorFails` is the executor's answer, should it be asked. */
    method EvaluateRule(rule: Rule, point: Point, at: Readings, executorFails: bool) returns (r: Result<()>)
      modifies this
      ensures Abstract() == Evaluated(NextBuffer, old(Abstract()), rule, point, at)
      ensures r.Err? <==> EvaluationFails(old(Abstract()), rule, point, at, executorFails)
    {
      ghost var before := Abstract();
      var buffer := Receive(rule, point, at);
      r := Conclude(rule, point, at, buffer, executorFails);
      SettleAfterStore(before, rule, point, at, buffer, Judge(buffer, rule.condition));
    }

    /** The rest of `evaluateRule`: judge the buffer, then act on the verdict. */
    method Conclude(rule: Rule, point: Point, at: Readings, buffer: seq<Point>, executorFails: bool)
      returns (r: Result<()>)
      requires rule.id in buffers && buffers[rule.id] == buffer
      modifies this
      ensures Abstract() == Settle(old(Abstract()), rule, point, at, buffer, Judge(buffer, rule.condition))
      ensures r.Err? <==> Judge(buffer, rule.condition).Unsupported?
                          || (executorFails && Fires(old(Abstract()), rule, at, Judge(buffer, rule.condition)))
    {
      assert buffers == buffers[rule.id := buffer];
      var v := CheckCondition(buffer, rule.condition);
      match v {
        case TooFew => r := Ok(());
        case Unsupported => r := Err(Internal);
        case Judged(value, triggered) =>
          r := RecordExecution(rule, point, at, buffer, value, triggered, executorFails);
      }
    }

    /** The start of `evaluateRule`: append, prune, cut, store. */
    method Receive(rule: Rule, point: Point, at: Readings) returns (buffer: seq<Point>)
      modifies `buffers
      ensures buffer == NextBuffer(At(old(buffers), rule.id), Arrival(point, at.cutoffAt - rule.window))
      ensures buffers == old(buffers)[rule.id := buffer]
    {
      buffer := if rule.id in buffers then buffers[rule.id] else [];
      buffer := PrunePoints(buffer + [point], at.cutoffAt - rule.window);
      if |buffer| > 1000 {
        buffer := buffer[|buffer| - 1000..];
      }
      buffers := buffers[rule.id := buffer];
    }

    /** The end of `evaluateRule`: save the execution, then fire unless cooling down. */
    method RecordExecution(rule: Rule, point: Point, at: Readings, buffer: seq<Point>, value: real, triggered: bool,
                           executorFails: bool) returns (r: Result<()>)
      requires rule.id in buffers && buffers[rule.id] == buffer
      modifies this
      ensures Abstract() == Settle(old(Abstract()), rule, point, at, buffer, Judged(value, triggered))
      ensures r.Err? <==> executorFails && Fires(old(Abstract()), rule, at, Judged(value, triggered))
    {
      assert buffers == buffers[rule.id := buffer];
      executions := executions + [Execution(rule.id, rule.name, point.deviceId, point.property, buffer, value,
                                            triggered, at.executedAt)];
      if |executions| > 5000 {
        executions := executions[|executions| - 5000..];
      }
      if triggered {
        if rule.id in cooldown && at.checkAt < cooldown[rule.id] + rule.cooldown {
          return Ok(());
        }
        cooldown := cooldown[rule.id := at.stampAt];
        firings := firings + [Firing(rule.id, at.stampAt)];
        if executorFails {
          return Err(Internal);
        }
      }
      r := Ok(());
    }

    /** `DeleteRule` after the repository has dropped the rule. */
    method Forget(ruleId: string)
      modifies this
      ensures Abstract() == Deleted(old(Abstract()), ruleId)
    {
      buffers := buffers - {ruleId};
      cooldown := cooldown - {ruleId};
    }

    /** `HandleTelemetry` over the rules the repository lists, with the readings and executor
        answers of each evaluation; `turns` counts the rules that had their turn. */
    method HandleTelemetry(point: Point, rules: seq<Rule>, ats: seq<Readings>, fails: seq<bool>)
      returns (r: Result<()>, ghost turns: nat)
      requires |ats| == |fails| == |rules|
      modifies this
      ensures point.deviceId == "" || point.property == "" ==> r == Err(Invalid) && Abstract() == old(Abstract())
      ensures point.deviceId != "" && point.property != "" ==>
                StopsAfter(old(Abstract()), rules, point, ats, fails, turns, r.Err?, Abstract())
    {
      turns := 0;
      if point.deviceId == "" || point.property == "" {
        return Err(Invalid), 0;
      }
      ghost var start := Abstract();
      ghost var s := start;
      for i := 0 to |rules|
        invariant turns == i && Abstract() == s && Reached(start, rules, point, ats, fails, i, s)
      {
        r := HandleRule(point, rules[i], ats[i], fails[i]);
        OneTurn(start, rules, point, ats, fails, i, s);
        s, turns := Abstract(), i + 1;
        if r.Err? {
          return;
        }
      }
      r := Ok(());
      AllTurns(start, rules, point, ats, fails, s);
    }

    /** One turn of the loop over the rules. */
    method HandleRule(point: Point, listed: Rule, at: Readings, executorFails: bool) returns (r: Result<()>)
      modifies this
      ensures Abstract() == Turn(old(Abstract()), listed, point, at)
      ensures r.Err? <==> TurnFails(old(Abstract()), listed, point, at, executorFails)
    {
      if !listed.enabled {
        return Ok(());
      }
      var rule := Normalized(listed);
      if rule.deviceId != "" && rule.deviceId != point.deviceId {
        return Ok(());
      }
      if rule.property != "" && rule.property != point.property {
        return Ok(());
      }
      r := EvaluateRule(rule, point, at, executorFails);
    }
  }

  predicate EvaluationFails(s: State, rule: Rule, point: Point, at: Readings, executorFails: bool) {
    var v := Judge(NextBuffer(At(s.buffers, rule.id), Arrival(point, at.cutoffAt - rule.window)), rule.condition);
    v.Unsupported? || (executorFails && Fires(s, rule, at, v))
  }

  predicate Concerns(rule: Rule, point: Point) {
    rule.enabled && (rule.deviceId == "" || rule.deviceId == point.deviceId)
    && (rule.property == "" || rule.property == point.property)
  }

  /** The evaluations a point causes, one per rule that concerns it. */
  function Evaluations(rules: seq<Rule>, point: Point, ats: seq<Readings>): seq<Event>
    requires |ats| == |rules|
  {
    if rules == [] then []
    else
      var n := |rules| - 1;
      Evaluations(rules[..n], point, ats[..n])
      + if Concerns(rules[n], point) then [Evaluate(Normalized(rules[n]), point, ats[n])] else []
  }

  lemma EvaluationsSnoc(next: Buffering, rules: seq<Rule>, point: Point, ats: seq<Readings>, i: nat, s: State)
    requires |ats| == |rules| && i < |rules|
    ensures Run(next, s, Evaluations(rules[..i + 1], point, ats[..i + 1])) ==
            if Concerns(rules[i], point)
            then Evaluated(next, Run(next, s, Evaluations(rules[..i], point, ats[..i])), Normalized(rules[i]), point,
                           ats[i])
            else Run(next, s, Evaluations(rules[..i], point, ats[..i]))
  {
    assert rules[..i + 1][..i] == rules[..i] && ats[..i + 1][..i] == ats[..i];
    var es := Evaluations(rules[..i], point, ats[..i]);
    if Concerns(rules[i], point) {
      var e := Evaluate(Normalized(rules[i]), point, ats[i]);
      assert (es + [e])[..|es|] == es;
    } else {
      assert es + [] == es;
    }
  }

  // ----- one point against all rules -----

  ghost function Turn(s: State, listed: Rule, point: Point, at: Readings): State {
    if Concerns(listed, point) then Evaluated(NextBuffer, s, Normalized(listed), point, at) else s
  }

  /** The rule concerns the point, and its evaluation reports an error. */
  predicate TurnFails(s: State, listed: Rule, point: Point, at: Readings, executorFails: bool) {
    Concerns(listed, point) && EvaluationFails(s, Normalized(listed), point, at, executorFails)
  }

  /** The state once the first n listed rules have had their turn. */
  ghost function After(s: State, rules: seq<Rule>, point: Point, ats: seq<Readings>, n: nat): State
    requires |ats| == |rules| && n <= |rules|
  {
    Run(NextBuffer, s, Evaluations(rules[..n], point, ats[..n]))
  }

  lemma AfterOne(s: State, rules: seq<Rule>, point: Point, ats: seq<Readings>, n: nat)
    requires |ats| == |rules| && n < |rules|
    ensures After(s, rules, point, ats, n + 1) == Turn(After(s, rules, point, ats, n), rules[n], point, ats[n])
  {
    EvaluationsSnoc(NextBuffer, rules, point, ats, n, s);
  }

  ghost predicate FailsAt(s: State, rules: seq<Rule>, point: Point, ats: seq<Readings>, fails: seq<bool>, n: nat)
    requires |ats| == |fails| == |rules| && n < |rules|
  {
    TurnFails(After(s, rules, point, ats, n), rules[n], point, ats[n], fails[n])
  }

  ghost predicate NoneFails(s: State, rules: seq<Rule>, point: Point, ats: seq<Readings>, fails: seq<bool>, n: nat)
    requires |ats| == |fails| == |rules| && n <= |rules|
  {
    forall j :: 0 <= j < n ==> !FailsAt(s, rules, point, ats, fails, j)
  }

  /** After n turns, none of which failed, the state is s. */
  ghost predicate Reached(start: State, rules: seq<Rule>, point: Point, ats: seq<Readings>, fails: seq<bool>, n: nat,
                          s: State)
    requires |ats| == |fails| == |rules| && n <= |rules|
  {
    s == After(start, rules, point, ats, n) && NoneFails(start, rules, point, ats, fails, n)
  }

  /** The loop ends after n turns in state s: the last turn failed and none before, or all rules had
      their turn and none failed. */
  ghost predicate StopsAfter(start: State, rules: seq<Rule>, point: Point, ats: seq<Readings>, fails: seq<bool>, n: nat,
                             failed: bool, s: State)
    requires |ats| == |fails| == |rules|
  {
    n <= |rules| && s == After(start, rules, point, ats, n)
    && if failed then n > 0 && NoneFails(start, rules, point, ats, fails, n - 1)
                      && FailsAt(start, rules, point, ats, fails, n - 1)
       else n == |rules| && NoneFails(start, rules, point, ats, fails, n)
  }

  lemma OneTurn(start: State, rules: seq<Rule>, point: Point, ats: seq<Readings>, fails: seq<bool>, n: nat, s: State)
    requires |ats| == |fails| == |rules| && n < |rules| && Reached(start, rules, point, ats, fails, n, s)
    ensures var s' := Turn(s, rules[n], point, ats[n]);
            if TurnFails(s, rules[n], point, ats[n], fails[n])
            then StopsAfter(start, rules, point, ats, fails, n + 1, true, s')
            else Reached(start, rules, point, ats, fails, n + 1, s')
  {
    AfterOne(start, rules, point, ats, n);
  }

  lemma AllTurns(start: State, rules: seq<Rule>, point: Point, ats: seq<Readings>, fails: seq<bool>, s: State)
    requires |ats| == |fails| == |rules| && Reached(start, rules, point, ats, fails, |rules|, s)
    ensures StopsAfter(start, rules, point, ats, fails, |rules|, false, s)
  {
  }
}
