/** The fixed-window rate gate in front of authentication. */
module Authentication {
  import opened Results
  import opened Sequences

  /** Nanoseconds since Go's zero time: 0 is the time whose `IsZero` holds. */
  type Time = int
  type Duration = int

  datatype RateBucket = RateBucket(window: Time, count: int)

  datatype Principal = Principal(deviceId: string, productId: string, credentialType: string, credential: string,
                                 scopes: seq<string>, createdAt: Time, updatedAt: Time)

  type Rates = map<string, RateBucket>

  // ----- one step -----

  /** The counter after one more attempt: a missing or expired window starts anew. */
  function Incremented(rates: Rates, key: string, window: Duration, now: Time): RateBucket {
    var b := if key in rates then rates[key] else RateBucket(0, 0);
    if b.window == 0 || now - b.window >= window then RateBucket(now, 1) else RateBucket(b.window, b.count + 1)
  }

  function RateKey(deviceId: string): string { "auth:" + deviceId }

  lemma RateKeyInjective(a: string, b: string)
    requires RateKey(a) == RateKey(b)
    ensures a == b
  {
    assert RateKey(a)[5..] == a && RateKey(b)[5..] == b;
  }

  /** The gate's settings: at most `limit` attempts of a device in a window. */
  datatype Gate = Gate(limit: nat, window: Duration)

  predicate Usable(g: Gate) { g.limit > 0 && g.window > 0 }

  datatype Event = Attempt(deviceId: string, at: Time) | Revoke(deviceId: string, at: Time)

  function Step(g: Gate, rates: Rates, e: Event): Rates {
    match e
    case Attempt(d, at) => rates[RateKey(d) := Incremented(rates, RateKey(d), g.window, at)]
    case Revoke(d, _) => rates - {RateKey(d)}
  }

  function Run(g: Gate, rates: Rates, events: seq<Event>): Rates {
    if events == [] then rates else Step(g, Run(g, rates, events[..|events| - 1]), Last(events))
  }

  function PassesNow(g: Gate, rates: Rates, e: Event, deviceId: string): nat {
    if e.Attempt? && e.deviceId == deviceId && Incremented(rates, RateKey(deviceId), g.window, e.at).count <= g.limit
    then 1 else 0
  }

  /** The attempts of a device that get through the gate. */
  function Passed(g: Gate, rates: Rates, events: seq<Event>, deviceId: string): nat {
    if events == [] then 0
    else Passed(g, rates, events[..|events| - 1], deviceId)
         + PassesNow(g, Run(g, rates, events[..|events| - 1]), Last(events), deviceId)
  }

  function RevokesNow(e: Event, deviceId: string): nat { if e.Revoke? && e.deviceId == deviceId then 1 else 0 }

  function Revocations(events: seq<Event>, deviceId: string): nat {
    if events == [] then 0 else Revocations(events[..|events| - 1], deviceId) + RevokesNow(Last(events), deviceId)
  }

  // ----- the bound -----

  /** All times lie in [from, to), in order. */
  ghost predicate Within(events: seq<Event>, from: Time, to: Time) {
    && (forall e :: e in events ==> from <= e.at < to)
    && (forall i, j :: 0 <= i < j < |events| ==> events[i].at <= events[j].at)
  }

  /** Counters started in the past and have counted at least the attempt that started them. */
  ghost predicate RatesOk(rates: Rates, now: Time) {
    forall k :: k in rates ==> 0 < rates[k].window <= now && rates[k].count >= 1
  }

  /** What a window from before an interval can add to it: all of its budget but the attempt that
      opened it, if there is time for any. */
  function Spare(g: Gate): int { if g.window >= 2 then g.limit - 1 else 0 }

  /** n * limit, added up one by one. */
  function Budgets(n: nat, limit: nat): nat { if n == 0 then 0 else Budgets(n - 1, limit) + limit }

  /** The most that passes in an interval of the window's length with r revocations in it: the spare
      of the window before, and one budget for each counter started. */
  function Most(g: Gate, r: nat): int { Budgets(r + 1, g.limit) + Spare(g) }

  lemma {:induction false} BudgetsMultiply(n: nat, limit: nat)
    ensures Budgets(n, limit) == n * limit
  {
    if n > 0 {
      BudgetsMultiply(n - 1, limit);
    }
  }

  lemma MostInNumbers(g: Gate, r: nat)
    ensures Most(g, r) == if g.window >= 2 then (2 + r) * g.limit - 1 else (1 + r) * g.limit
  {
    BudgetsMultiply(r + 1, g.limit);
  }

  /** How many attempts may have passed since `from`, by the state of the device's counter: none;
      still the one from before `from`; or one that was started since. */
  ghost predicate Spent(g: Gate, rates: Rates, deviceId: string, from: Time, passed: nat, revoked: nat) {
    var k := RateKey(deviceId);
    if k !in rates then passed <= Budgets(revoked, g.limit) + Spare(g)
    else if rates[k].window < from then
      if g.window >= 2 then passed + 1 <= Min(rates[k].count, g.limit) else passed == 0
    else passed <= Budgets(revoked, g.limit) + Spare(g) + Min(rates[k].count, g.limit)
  }

  lemma StepSpends(g: Gate, rates: Rates, e: Event, deviceId: string, from: Time, passed: nat, revoked: nat)
    requires Usable(g) && 0 < from <= e.at < from + g.window && RatesOk(rates, e.at)
    requires Spent(g, rates, deviceId, from, passed, revoked)
    ensures Spent(g, Step(g, rates, e), deviceId, from, passed + PassesNow(g, rates, e, deviceId),
                  revoked + RevokesNow(e, deviceId))
  {
    if e.deviceId != deviceId {
      assert RateKey(e.deviceId) != RateKey(deviceId) by {
        if RateKey(e.deviceId) == RateKey(deviceId) {
          RateKeyInjective(e.deviceId, deviceId);
        }
      }
    }
  }

  function End(from: Time, events: seq<Event>): Time { if events == [] then from else Last(events).at }

  lemma WithinPrefix(events: seq<Event>, from: Time, to: Time)
    requires events != [] && Within(events, from, to)
    ensures Within(events[..|events| - 1], from, to)
    ensures from <= End(from, events[..|events| - 1]) <= Last(events).at < to
  {
    SplitLast(events);
  }

  lemma RunSnoc(g: Gate, rates: Rates, events: seq<Event>, deviceId: string)
    requires events != []
    ensures Run(g, rates, events) == Step(g, Run(g, rates, events[..|events| - 1]), Last(events))
    ensures Passed(g, rates, events, deviceId) == Passed(g, rates, events[..|events| - 1], deviceId)
              + PassesNow(g, Run(g, rates, events[..|events| - 1]), Last(events), deviceId)
    ensures Revocations(events, deviceId)
         == Revocations(events[..|events| - 1], deviceId) + RevokesNow(Last(events), deviceId)
  {
  }

  lemma LaterOk(rates: Rates, now: Time, later: Time)
    requires RatesOk(rates, now) && now <= later
    ensures RatesOk(rates, later)
  {
  }

  lemma {:induction false} RunKeepsRatesOk(g: Gate, rates: Rates, events: seq<Event>, from: Time, to: Time)
    requires 0 < from && RatesOk(rates, from) && Within(events, from, to)
    ensures RatesOk(Run(g, rates, events), End(from, events))
    ensures events != [] ==> RatesOk(Run(g, rates, events[..|events| - 1]), Last(events).at)
  {
    if events != [] {
      var before := events[..|events| - 1];
      WithinPrefix(events, from, to);
      RunKeepsRatesOk(g, rates, before, from, to);
      LaterOk(Run(g, rates, before), End(from, before), Last(events).at);
    }
  }

  lemma SpendsSnoc(g: Gate, rates: Rates, events: seq<Event>, deviceId: string, from: Time)
    requires Usable(g) && 0 < from && events != [] && from <= Last(events).at < from + g.window
    requires RatesOk(Run(g, rates, events[..|events| - 1]), Last(events).at)
    requires SpentBy(g, rates, events[..|events| - 1], deviceId, from)
    ensures SpentBy(g, rates, events, deviceId, from)
  {
    var before := events[..|events| - 1];
    StepSpends(g, Run(g, rates, before), Last(events), deviceId, from, Passed(g, rates, before, deviceId),
               Revocations(before, deviceId));
    RunSnoc(g, rates, events, deviceId);
  }

  ghost predicate SpentBy(g: Gate, rates: Rates, events: seq<Event>, deviceId: string, from: Time) {
    Spent(g, Run(g, rates, events), deviceId, from, Passed(g, rates, events, deviceId), Revocations(events, deviceId))
  }

  /** An interval shorter than the window: what the counter says bounds what has passed. */
  lemma {:induction false} RunSpends(g: Gate, rates: Rates, events: seq<Event>, deviceId: string, from: Time)
    requires Usable(g) && 0 < from && RatesOk(rates, from) && Within(events, from, from + g.window)
    requires RateKey(deviceId) in rates ==> rates[RateKey(deviceId)].window < from
    ensures SpentBy(g, rates, events, deviceId, from)
  {
    if events != [] {
      WithinPrefix(events, from, from + g.window);
      RunSpends(g, rates, events[..|events| - 1], deviceId, from);
      RunKeepsRatesOk(g, rates, events, from, from + g.window);
      SpendsSnoc(g, rates, events, deviceId, from);
    }
  }

  /** Fixed-window bound, with r revocations of the device in between: over any interval of the
      length of the window, at most (2 + r) * limit - 1 attempts pass; without revocation, at most
      2 * limit - 1.  In a window of a single tick there is no time for a second budget. */
  lemma PassedWithinWindow(g: Gate, past: seq<Event>, start: Time, events: seq<Event>, deviceId: string, from: Time)
    requires Usable(g) && 0 < start && Within(past, start, from) && start <= from
    requires Within(events, from, from + g.window)
    ensures Passed(g, Run(g, map[], past), events, deviceId) <= Most(g, Revocations(events, deviceId))
  {
    PastIsOk(g, past, start, from);
    var rates := Run(g, map[], past);
    RunSpends(g, rates, events, deviceId, from);
  }

  lemma {:induction false} PastIsOk(g: Gate, past: seq<Event>, start: Time, from: Time)
    requires 0 < start <= from && Within(past, start, from)
    ensures RatesOk(Run(g, map[], past), from)
    ensures forall k :: k in Run(g, map[], past) ==> Run(g, map[], past)[k].window < from
  {
    if past != [] {
      SplitLast(past);
      PastIsOk(g, past[..|past| - 1], start, from);
    }
  }

  // ----- inside one counter window -----

  function Attempts(events: seq<Event>, deviceId: string): nat {
    if events == [] then 0
    else Attempts(events[..|events| - 1], deviceId)
         + if Last(events).Attempt? && Last(events).deviceId == deviceId then 1 else 0
  }

  /** The device's counter is running and stays so: no event is late enough to end its window, and
      none revokes the device. */
  ghost predicate CounterRuns(g: Gate, rates: Rates, events: seq<Event>, deviceId: string) {
    var k := RateKey(deviceId);
    && k in rates && rates[k].window != 0
    && forall e :: e in events ==> e.at - rates[k].window < g.window && !(e.Revoke? && e.deviceId == deviceId)
  }

  /** Within one counter window every attempt is counted and exactly the first `limit` pass,
      whatever other devices do. */
  lemma {:induction false} InsideWindow(g: Gate, rates: Rates, events: seq<Event>, deviceId: string)
    requires CounterRuns(g, rates, events, deviceId)
    ensures RateKey(deviceId) in Run(g, rates, events)
    ensures var b, n := rates[RateKey(deviceId)], Attempts(events, deviceId);
            Run(g, rates, events)[RateKey(deviceId)] == RateBucket(b.window, b.count + n)
            && Passed(g, rates, events, deviceId) == Min(b.count + n, g.limit) - Min(b.count, g.limit)
  {
    if events != [] {
      SplitLast(events);
      InsideWindow(g, rates, events[..|events| - 1], deviceId);
      if Last(events).deviceId != deviceId && RateKey(Last(events).deviceId) == RateKey(deviceId) {
        RateKeyInjective(Last(events).deviceId, deviceId);
      }
    }
  }

  // ----- the bound is exact -----

  function Repeat(n: nat, deviceId: string, at: Time): seq<Event> { seq(n, _ => Attempt(deviceId, at)) }

  /** n attempts at one moment inside a window. */
  lemma RepeatInWindow(g: Gate, rates: Rates, deviceId: string, at: Time, n: nat)
    requires CounterRuns(g, rates, Repeat(n, deviceId, at), deviceId)
    ensures var b, after := rates[RateKey(deviceId)], Run(g, rates, Repeat(n, deviceId, at));
            RateKey(deviceId) in after && after[RateKey(deviceId)] == RateBucket(b.window, b.count + n)
            && Passed(g, rates, Repeat(n, deviceId, at), deviceId)
               == Min(b.count + n, g.limit) - Min(b.count, g.limit)
  {
    InsideWindow(g, rates, Repeat(n, deviceId, at), deviceId);
    RepeatAttempts(n, deviceId, at);
  }

  lemma {:induction false} RepeatAttempts(n: nat, deviceId: string, at: Time)
    ensures Attempts(Repeat(n, deviceId, at), deviceId) == n
  {
    if n > 0 {
      RepeatAttempts(n - 1, deviceId, at);
      assert Repeat(n, deviceId, at)[..n - 1] == Repeat(n - 1, deviceId, at);
    }
  }

  lemma {:induction false} RunConcat(g: Gate, rates: Rates, a: seq<Event>, b: seq<Event>, deviceId: string)
    ensures Run(g, rates, a + b) == Run(g, Run(g, rates, a), b)
    ensures Passed(g, rates, a + b, deviceId)
         == Passed(g, rates, a, deviceId) + Passed(g, Run(g, rates, a), b, deviceId)
  {
    if b == [] {
      assert a + b == a;
    } else {
      RunConcat(g, rates, a, b[..|b| - 1], deviceId);
      ConcatButLast(a, b);
    }
  }

  /** An attempt that opens a new window. */
  lemma OpensWindow(g: Gate, rates: Rates, deviceId: string, at: Time)
    requires Usable(g)
    requires RateKey(deviceId) in rates ==>
               rates[RateKey(deviceId)].window == 0 || at - rates[RateKey(deviceId)].window >= g.window
    ensures var one := [Attempt(deviceId, at)];
            Run(g, rates, one) == rates[RateKey(deviceId) := RateBucket(at, 1)] && Passed(g, rates, one, deviceId) == 1
  {
    var one := [Attempt(deviceId, at)];
    assert one[..0] == [] && Run(g, rates, one[..0]) == rates;
    RunSnoc(g, rates, one, deviceId);
  }

  /** n attempts at one moment that opens a new window. */
  lemma RepeatInNewWindow(g: Gate, rates: Rates, deviceId: string, at: Time, n: nat)
    requires Usable(g) && at > 0 && n > 0
    requires RateKey(deviceId) in rates ==>
               rates[RateKey(deviceId)].window == 0 || at - rates[RateKey(deviceId)].window >= g.window
    ensures var after := Run(g, rates, Repeat(n, deviceId, at));
            RateKey(deviceId) in after && after[RateKey(deviceId)] == RateBucket(at, n)
            && Passed(g, rates, Repeat(n, deviceId, at), deviceId) == Min(n, g.limit)
  {
    var one, rest := [Attempt(deviceId, at)], Repeat(n - 1, deviceId, at);
    assert Repeat(n, deviceId, at) == one + rest;
    OpensWindow(g, rates, deviceId, at);
    RunConcat(g, rates, one, rest, deviceId);
    RepeatInWindow(g, rates[RateKey(deviceId) := RateBucket(at, 1)], deviceId, at, n - 1);
  }

  lemma {:induction false} RevocationsConcat(a: seq<Event>, b: seq<Event>, deviceId: string)
    ensures Revocations(a + b, deviceId) == Revocations(a, deviceId) + Revocations(b, deviceId)
  {
    if b == [] {
      assert a + b == a;
    } else {
      RevocationsConcat(a, b[..|b| - 1], deviceId);
      ConcatButLast(a, b);
    }
  }

  lemma {:induction false} NoRevocations(n: nat, deviceId: string, at: Time)
    ensures Revocations(Repeat(n, deviceId, at), deviceId) == 0
  {
    if n > 0 {
      NoRevocations(n - 1, deviceId, at);
      assert Repeat(n, deviceId, at)[..n - 1] == Repeat(n - 1, deviceId, at);
    }
  }

  ghost predicate AllAt(events: seq<Event>, at: Time) { forall e :: e in events ==> e.at == at }

  /** What a run of these events comes to for the device. */
  ghost predicate Comes(g: Gate, rates: Rates, events: seq<Event>, deviceId: string, passed: int, revoked: nat) {
    Passed(g, rates, events, deviceId) == passed && Revocations(events, deviceId) == revoked
  }

  lemma ComesConcat(g: Gate, rates: Rates, a: seq<Event>, b: seq<Event>, deviceId: string,
                    p: int, m: nat, q: int, n: nat)
    requires Comes(g, rates, a, deviceId, p, m) && Comes(g, Run(g, rates, a), b, deviceId, q, n)
    ensures Comes(g, rates, a + b, deviceId, p + q, m + n)
  {
    RunConcat(g, rates, a, b, deviceId);
    RevocationsConcat(a, b, deviceId);
  }

  lemma RevokeComes(g: Gate, rates: Rates, deviceId: string, at: Time)
    ensures var revoke := [Revoke(deviceId, at)];
            Comes(g, rates, revoke, deviceId, 0, 1) && Run(g, rates, revoke) == rates - {RateKey(deviceId)}
  {
    var revoke := [Revoke(deviceId, at)];
    assert revoke[..0] == [] && Run(g, rates, revoke[..0]) == rates;
  }

  /** A budget spent in a new window, at one moment. */
  lemma BudgetComes(g: Gate, rates: Rates, deviceId: string, at: Time)
    requires Usable(g) && at > 0
    requires RateKey(deviceId) in rates ==>
               rates[RateKey(deviceId)].window == 0 || at - rates[RateKey(deviceId)].window >= g.window
    ensures Comes(g, rates, Repeat(g.limit, deviceId, at), deviceId, g.limit, 0)
  {
    RepeatInNewWindow(g, rates, deviceId, at, g.limit);
    NoRevocations(g.limit, deviceId, at);
  }

  /** A budget, and one more after each of r revocations, at one moment. */
  lemma {:induction false} Burst(g: Gate, rates: Rates, deviceId: string, at: Time, r: nat) returns (events: seq<Event>)
    requires Usable(g) && at > 0
    requires RateKey(deviceId) in rates ==>
               rates[RateKey(deviceId)].window == 0 || at - rates[RateKey(deviceId)].window >= g.window
    ensures AllAt(events, at) && Comes(g, rates, events, deviceId, Budgets(r + 1, g.limit), r)
  {
    if r == 0 {
      BudgetComes(g, rates, deviceId, at);
      events := Repeat(g.limit, deviceId, at);
    } else {
      var before := Burst(g, rates, deviceId, at, r - 1);
      var round := Round(g, Run(g, rates, before), deviceId, at);
      ComesConcat(g, rates, before, round, deviceId, Budgets(r, g.limit), r - 1, g.limit, 1);
      events := before + round;
    }
  }

  lemma Round(g: Gate, rates: Rates, deviceId: string, at: Time) returns (events: seq<Event>)
    requires Usable(g) && at > 0
    ensures AllAt(events, at) && Comes(g, rates, events, deviceId, g.limit, 1)
  {
    var revoke := [Revoke(deviceId, at)];
    RevokeComes(g, rates, deviceId, at);
    BudgetComes(g, Run(g, rates, revoke), deviceId, at);
    ComesConcat(g, rates, revoke, Repeat(g.limit, deviceId, at), deviceId, 0, 1, g.limit, 0);
    events := revoke + Repeat(g.limit, deviceId, at);
  }

  /** The rest of a window's budget at its last moment, and right after it a burst. */
  lemma LateThenBurst(g: Gate, rates: Rates, deviceId: string, r: nat) returns (late: seq<Event>, burst: seq<Event>)
    requires Usable(g) && g.window >= 2
    requires RateKey(deviceId) in rates && rates[RateKey(deviceId)] == RateBucket(1, 1)
    ensures AllAt(late, g.window) && AllAt(burst, g.window + 1)
    ensures Comes(g, rates, late + burst, deviceId, Most(g, r), r)
  {
    late := Repeat(g.limit - 1, deviceId, g.window);
    RepeatInWindow(g, rates, deviceId, g.window, g.limit - 1);
    NoRevocations(g.limit - 1, deviceId, g.window);
    burst := Burst(g, Run(g, rates, late), deviceId, g.window + 1, r);
    ComesConcat(g, rates, late, burst, deviceId, g.limit - 1, 0, Budgets(r + 1, g.limit), r);
  }

  lemma TwoMoments(a: seq<Event>, b: seq<Event>, from: Time, to: Time)
    requires AllAt(a, from) && AllAt(b, from + 1) && from + 1 < to
    ensures Within(a + b, from, to)
  {
    forall i | 0 <= i < |a + b| ensures (a + b)[i].at == if i < |a| then from else from + 1 {
      assert if i < |a| then (a + b)[i] in a else (a + b)[i] in b;
    }
  }

  /** An interval of the window's length in some run, with r revocations of the device in it.  No
      clock reads Go's zero time, so runs begin at 1. */
  ghost predicate IsInterval(g: Gate, past: seq<Event>, events: seq<Event>, deviceId: string, from: Time, r: nat) {
    && 1 <= from && Within(past, 1, from) && Within(events, from, from + g.window)
    && Revocations(events, deviceId) == r
  }

  /** That most is reached, for every gate and every number of revocations: one attempt opens a
      window, the rest of its budget goes at the end, the next budget right after, and one more
      after every revocation, all of it within two ticks. */
  lemma BoundIsReached(g: Gate, deviceId: string, r: nat)
    returns (past: seq<Event>, events: seq<Event>, from: Time)
    requires Usable(g)
    ensures IsInterval(g, past, events, deviceId, from, r)
    ensures Passed(g, Run(g, map[], past), events, deviceId) == Most(g, r)
  {
    if g.window >= 2 {
      past, from := [Attempt(deviceId, 1)], g.window;
      assert past[..0] == [] && Run(g, map[], past[..0]) == map[];
      var late, burst := LateThenBurst(g, Run(g, map[], past), deviceId, r);
      TwoMoments(late, burst, from, from + g.window);
      events := late + burst;
    } else {
      past, from := [], 1;
      events := Burst(g, map[], deviceId, 1, r);
    }
  }

  /** The most is the limit itself for these settings only. */
  lemma MostIsLimitIff(g: Gate, r: nat)
    requires Usable(g)
    ensures Most(g, r) <= g.limit <==> r == 0 && (g.limit == 1 || g.window == 1)
  {
    if r == 0 {
      assert Budgets(1, g.limit) == Budgets(0, g.limit) + g.limit == g.limit;
    } else {
      assert Budgets(r + 1, g.limit) == Budgets(r - 1, g.limit) + g.limit + g.limit;
    }
  }

  /** Over every interval of the window's length in every run at most `limit` attempts of a device
      pass, if and only if the device is not revoked in it and either the limit is one or the window
      a single tick. */
  lemma LimitIsKeptIff(g: Gate, deviceId: string, r: nat)
    requires Usable(g)
    ensures (forall past: seq<Event>, events: seq<Event>, from: Time ::
               IsInterval(g, past, events, deviceId, from, r) ==>
                 Passed(g, Run(g, map[], past), events, deviceId) <= g.limit)
       <==> r == 0 && (g.limit == 1 || g.window == 1)
  {
    MostIsLimitIff(g, r);
    if Most(g, r) <= g.limit {
      forall past: seq<Event>, events: seq<Event>, from: Time | IsInterval(g, past, events, deviceId, from, r)
        ensures Passed(g, Run(g, map[], past), events, deviceId) <= g.limit
      {
        PassedWithinWindow(g, past, 1, events, deviceId, from);
      }
    } else {
      var past, events, from := BoundIsReached(g, deviceId, r);
    }
  }

  // ----- the repository and the service -----

  datatype RateRecord = RateRecord(key: string, window: Time, count: int, limit: int)

  class Repository {
    var principals: map<string, Principal>
    var rates: Rates

    constructor ()
      ensures principals == map[] && rates == map[]
    {
      principals, rates := map[], map[];
    }

    method UpsertPrincipal(principal: Principal)
      modifies this
      ensures principals == old(principals)[principal.deviceId := principal] && rates == old(rates)
    {
      principals := principals[principal.deviceId := principal];
    }

    method DeletePrincipal(deviceId: string)
      modifies this
      ensures principals == old(principals) - {deviceId} && rates == old(rates) - {RateKey(deviceId)}
    {
      principals := principals - {deviceId};
      rates := rates - {"auth:" + deviceId};
    }

    method IncrementRate(key: string, window: Duration, limit: int, now: Time) returns (r: RateRecord)
      modifies this
      ensures rates == old(rates)[key := Incremented(old(rates), key, window, now)] && principals == old(principals)
      ensures r == RateRecord(key, rates[key].window, rates[key].count, limit)
    {
      var bucket := if key in rates then rates[key] else RateBucket(0, 0);
      if bucket.window == 0 || now - bucket.window >= window {
        bucket := RateBucket(now, 0);
      }
      bucket := bucket.(count := bucket.count + 1);
      rates := rates[key := bucket];
      r := RateRecord(key, bucket.window, bucket.count, limit);
    }
  }

  /** The device registry's answer, where one is configured. */
  datatype Lookup = NotConfigured | Unavailable | Found(enabled: bool)

  class Service {
    const repo: Repository
    const gate: Gate

    constructor (repo: Repository, rateLimit: int, rateWindow: Duration)
      ensures this.repo == repo && Usable(gate)
      ensures gate == Gate(if rateLimit <= 0 then 120 else rateLimit,
                           if rateWindow <= 0 then 60_000_000_000 else rateWindow)
    {
      this.repo := repo;
      gate := Gate(if rateLimit <= 0 then 120 else rateLimit, if rateWindow <= 0 then 60_000_000_000 else rateWindow);
    }

    /** Registering again replaces the principal but not the device's counter. */
    method RegisterDevice(principal: Principal) returns (r: Result<()>)
      modifies repo
      ensures r.Err? <==> principal.deviceId == "" || principal.credential == ""
      ensures repo.rates == old(repo.rates)
      ensures repo.principals == if r.Ok? then old(repo.principals)[principal.deviceId := principal]
                                 else old(repo.principals)
    {
      if principal.deviceId == "" || principal.credential == "" {
        return Err(Invalid);
      }
      repo.UpsertPrincipal(principal);
      r := Ok(());
    }

    method RevokeDevice(deviceId: string, ghost now: Time) returns (r: Result<()>)
      modifies repo
      ensures r.Err? <==> deviceId == ""
      ensures r.Ok? ==> repo.rates == Step(gate, old(repo.rates), Revoke(deviceId, now))
                        && repo.principals == old(repo.principals) - {deviceId}
      ensures r.Err? ==> repo.rates == old(repo.rates) && repo.principals == old(repo.principals)
    {
      if deviceId == "" {
        return Err(Invalid);
      }
      repo.DeletePrincipal(deviceId);
      r := Ok(());
    }

    /** Every attempt counts, also for unknown devices and wrong credentials; an empty credential
        type accepts any.  Past the gate, only the registered credential of an enabled device
        authenticates. */
    method Authenticate(deviceId: string, credential: string, credentialType: string, lookup: Lookup, now: Time)
      returns (r: Result<Principal>)
      modifies repo
      ensures repo.rates == Step(gate, old(repo.rates), Attempt(deviceId, now))
      ensures repo.principals == old(repo.principals)
      ensures r == Err(RateLimited) <==> PassesNow(gate, old(repo.rates), Attempt(deviceId, now), deviceId) == 0
      ensures r.Ok? <==> PassesNow(gate, old(repo.rates), Attempt(deviceId, now), deviceId) == 1
                         && deviceId in repo.principals && repo.principals[deviceId].credential == credential
                         && (credentialType == "" || repo.principals[deviceId].credentialType == credentialType)
                         && (lookup.NotConfigured? || (lookup.Found? && lookup.enabled))
      ensures r.Ok? ==> r.value == repo.principals[deviceId]
      ensures r == Err(Forbidden) <==>
                PassesNow(gate, old(repo.rates), Attempt(deviceId, now), deviceId) == 1
                && deviceId in repo.principals && repo.principals[deviceId].credential == credential
                && (credentialType == "" || repo.principals[deviceId].credentialType == credentialType)
                && lookup.Found? && !lookup.enabled
      ensures r.Err? ==> r.kind == RateLimited || r.kind == Forbidden || r.kind == Unauthorized
    {
      var record := repo.IncrementRate("auth:" + deviceId, gate.window, gate.limit, now);
      if record.count > record.limit {
        return Err(RateLimited);
      }
      if deviceId !in repo.principals {
        return Err(Unauthorized);
      }
      var principal := repo.principals[deviceId];
      if principal.credential != credential {
        return Err(Unauthorized);
      }
      if credentialType != "" && principal.credentialType != credentialType {
        return Err(Unauthorized);
      }
      match lookup {
        case NotConfigured =>
        case Unavailable => return Err(Unauthorized);
        case Found(enabled) =>
          if !enabled {
            return Err(Forbidden);
          }
      }
      r := Ok(principal);
    }
  }
}
