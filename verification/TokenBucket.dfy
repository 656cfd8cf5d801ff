/** The token-bucket limiter. */
module TokenBucket {
  import opened Arithmetic
  import opened Sequences

  /** Nanoseconds. */
  type Time = int
  type Duration = int

  datatype Bucket = Bucket(tokens: real, last: Time)

  const CAPACITY := 1.0

  function Seconds(d: Duration): real { d as real / 1000000000.0 }

  /** Refill for the time that has passed, up to the capacity. */
  function Refilled(b: Bucket, rate: real, now: Time): real {
    var tokens := b.tokens + Seconds(now - b.last) * rate;
    if tokens > CAPACITY then CAPACITY else tokens
  }

  // ----- one call -----

  type Buckets = map<string, Bucket>

  /** A first call is allowed and leaves the bucket full: the token it used is not taken out. */
  function Allowed(buckets: Buckets, rate: real, key: string, now: Time): bool {
    key !in buckets || Refilled(buckets[key], rate, now) >= 1.0
  }

  function AfterCall(buckets: Buckets, rate: real, key: string, now: Time): Buckets {
    buckets[key :=
      if key !in buckets then Bucket(CAPACITY, now)
      else
        var tokens := Refilled(buckets[key], rate, now);
        Bucket(if tokens < 1.0 then tokens else tokens - 1.0, now)]
  }

  /** A pruning tick drops the buckets unused for longer than `olderThan`. */
  function Pruned(buckets: Buckets, now: Time, olderThan: Duration): Buckets {
    map k | k in buckets && buckets[k].last >= now - olderThan :: buckets[k]
  }

  // ----- runs -----

  datatype Event = Call(key: string, at: Time) | Prune(at: Time, olderThan: Duration)

  function Step(buckets: Buckets, rate: real, e: Event): Buckets {
    match e
    case Call(key, at) => AfterCall(buckets, rate, key, at)
    case Prune(at, olderThan) => Pruned(buckets, at, olderThan)
  }

  function Run(buckets: Buckets, rate: real, events: seq<Event>): Buckets {
    if events == [] then buckets else Step(Run(buckets, rate, events[..|events| - 1]), rate, Last(events))
  }

  /** Time does not run backwards, starting from `from`. */
  ghost predicate Forward(from: Time, events: seq<Event>) {
    && (forall e :: e in events ==> from <= e.at)
    && (forall i, j :: 0 <= i < j < |events| ==> events[i].at <= events[j].at)
  }

  function PassedNow(buckets: Buckets, rate: real, e: Event, key: string): nat {
    if e.Call? && e.key == key && Allowed(buckets, rate, key, e.at) then 1 else 0
  }

  function CreatedNow(buckets: Buckets, e: Event, key: string): nat {
    if e.Call? && e.key == key && key !in buckets then 1 else 0
  }

  /** The calls for `key` that are let through. */
  function Passed(buckets: Buckets, rate: real, events: seq<Event>, key: string): nat {
    if events == [] then 0
    else
      var before := events[..|events| - 1];
      Passed(buckets, rate, before, key) + PassedNow(Run(buckets, rate, before), rate, Last(events), key)
  }

  /** The calls for `key` that find no bucket and create one. */
  function Created(buckets: Buckets, rate: real, events: seq<Event>, key: string): nat {
    if events == [] then 0
    else
      var before := events[..|events| - 1];
      Created(buckets, rate, before, key) + CreatedNow(Run(buckets, rate, before), Last(events), key)
  }

  // ----- the bound -----

  ghost predicate BucketOk(b: Bucket, now: Time) { 0.0 <= b.tokens <= CAPACITY && b.last <= now }

  ghost predicate Ok(buckets: Buckets, now: Time) { forall k :: k in buckets ==> BucketOk(buckets[k], now) }

  lemma RateTimesTime(rate: real, a: Time, b: Time, c: Time)
    requires rate >= 0.0 && a <= b <= c
    ensures Seconds(b - a) * rate >= 0.0
    ensures Seconds(c - a) * rate == Seconds(b - a) * rate + Seconds(c - b) * rate
  {
    assert Seconds(c - a) == Seconds(b - a) + Seconds(c - b);
  }

  /** Tokens stay between 0 and 1. */
  lemma StepKeepsOk(buckets: Buckets, rate: real, e: Event, from: Time)
    requires rate >= 0.0 && Ok(buckets, from) && from <= e.at
    ensures Ok(Step(buckets, rate, e), e.at)
  {
    if e.Call? && e.key in buckets {
      assert BucketOk(buckets[e.key], from);
      RateTimesTime(rate, buckets[e.key].last, e.at, e.at);
    }
  }

  function End(from: Time, events: seq<Event>): Time { if events == [] then from else Last(events).at }

  lemma PrefixForward(from: Time, events: seq<Event>)
    requires events != [] && Forward(from, events)
    ensures Forward(from, events[..|events| - 1]) && from <= End(from, events[..|events| - 1]) <= Last(events).at
  {
    SplitLast(events);
  }

  lemma {:induction false} RunKeepsOk(buckets: Buckets, rate: real, events: seq<Event>, from: Time)
    requires rate >= 0.0 && Ok(buckets, from) && Forward(from, events)
    ensures Ok(Run(buckets, rate, events), End(from, events))
  {
    if events != [] {
      var before := events[..|events| - 1];
      PrefixForward(from, events);
      RunKeepsOk(buckets, rate, before, from);
      StepKeepsOk(Run(buckets, rate, before), rate, Last(events), End(from, before));
    }
  }

  /** What a key could spend at time t; a key without a bucket has nothing saved up. */
  function Credit(buckets: Buckets, rate: real, key: string, t: Time): real {
    if key in buckets then Refilled(buckets[key], rate, t) else 0.0
  }

  /** One event pays for what it lets through: out of the credit, or with the two calls a new
      bucket is worth. */
  lemma StepPays(buckets: Buckets, rate: real, e: Event, from: Time, key: string)
    requires rate >= 0.0 && Ok(buckets, from) && from <= e.at
    ensures PassedNow(buckets, rate, e, key) as real + Credit(Step(buckets, rate, e), rate, key, e.at)
         <= Credit(buckets, rate, key, e.at) + 2.0 * CreatedNow(buckets, e, key) as real
  {
    if key in buckets {
      assert BucketOk(buckets[key], from);
      RateTimesTime(rate, buckets[key].last, e.at, e.at);
    }
  }

  /** Credit grows no faster than the rate, and never beyond the capacity. */
  lemma CreditGrows(buckets: Buckets, rate: real, key: string, from: Time, t: Time)
    requires rate >= 0.0 && Ok(buckets, from) && from <= t
    ensures 0.0 <= Credit(buckets, rate, key, t) <= 1.0
    ensures Credit(buckets, rate, key, t) <= Credit(buckets, rate, key, from) + Seconds(t - from) * rate
  {
    RateTimesTime(rate, from, t, t);
    if key in buckets {
      assert BucketOk(buckets[key], from);
      RateTimesTime(rate, buckets[key].last, from, t);
    }
  }

  lemma RefillAdds(rate: real, a: Time, b: Time, c: Time)
    requires rate >= 0.0 && a <= b <= c
    ensures Refill(rate, a, c) == Refill(rate, a, b) + Refill(rate, b, c)
  {
    RateTimesTime(rate, a, b, c);
  }

  lemma CreditRefills(mid: Buckets, rate: real, key: string, at: Time, t: Time)
    requires rate >= 0.0 && Ok(mid, at) && at <= t
    ensures Credit(mid, rate, key, t) <= Credit(mid, rate, key, at) + Refill(rate, at, t)
  {
    CreditGrows(mid, rate, key, at, t);
  }

  /** Calls let through and credit left, against credit at the start, buckets created and refill. */
  ghost predicate Balanced(passed: nat, left: real, start: real, created: nat, refill: real) {
    passed as real + left <= start + 2.0 * created as real + refill
  }

  /** rate * T, for the time T between from and to. */
  function Refill(rate: real, from: Time, to: Time): real { Seconds(to - from) * rate }

  /** What one event does to the books: the credit grows by the refill y, then pays. */
  ghost predicate Pays(left: real, grown: real, rest: real, passed: nat, created: nat, x: real, y: real, refill: real) {
    grown <= left + y && passed as real + rest <= grown + 2.0 * created as real && refill == x + y
  }

  lemma AddUp(p: nat, p1: nat, c: nat, c1: nat, start: real, left: real, grown: real, rest: real,
              x: real, y: real, refill: real)
    requires Balanced(p, left, start, c, x) && Pays(left, grown, rest, p1, c1, x, y, refill)
    ensures Balanced(p + p1, rest, start, c + c1, refill)
  {
  }

  lemma EventPays(mid: Buckets, rate: real, e: Event, key: string, from: Time, at: Time)
    requires rate >= 0.0 && Ok(mid, at) && from <= at <= e.at
    ensures Pays(Credit(mid, rate, key, at), Credit(mid, rate, key, e.at), Credit(Step(mid, rate, e), rate, key, e.at),
                 PassedNow(mid, rate, e, key), CreatedNow(mid, e, key),
                 Refill(rate, from, at), Refill(rate, at, e.at), Refill(rate, from, e.at))
  {
    RefillAdds(rate, from, at, e.at);
    CreditRefills(mid, rate, key, at, e.at);
    StepPays(mid, rate, e, at, key);
  }

  /** The books balance over every run: what passes, plus what is left, is covered by the credit
      at the start, two calls for every bucket created, and the refill of the time that passed. */
  lemma {:induction false} BooksBalance(buckets: Buckets, rate: real, events: seq<Event>, from: Time, key: string)
    requires rate >= 0.0 && Ok(buckets, from) && Forward(from, events)
    ensures Balanced(Passed(buckets, rate, events, key),
                     Credit(Run(buckets, rate, events), rate, key, End(from, events)),
                     Credit(buckets, rate, key, from), Created(buckets, rate, events, key),
                     Refill(rate, from, End(from, events)))
  {
    if events == [] {
      RateTimesTime(rate, from, from, from);
    } else {
      var before, e := events[..|events| - 1], Last(events);
      PrefixForward(from, events);
      BooksBalance(buckets, rate, before, from, key);
      RunKeepsOk(buckets, rate, before, from);
      var mid := Run(buckets, rate, before);
      var at := End(from, before);
      EventPays(mid, rate, e, key, from, at);
      AddUp(Passed(buckets, rate, before, key), PassedNow(mid, rate, e, key),
            Created(buckets, rate, before, key), CreatedNow(mid, e, key), Credit(buckets, rate, key, from),
            Credit(mid, rate, key, at), Credit(mid, rate, key, e.at), Credit(Step(mid, rate, e), rate, key, e.at),
            Refill(rate, from, at), Refill(rate, at, e.at), Refill(rate, from, e.at));
      RunSnoc(buckets, rate, events, key);
    }
  }

  lemma RunSnoc(buckets: Buckets, rate: real, events: seq<Event>, key: string)
    requires events != []
    ensures Run(buckets, rate, events) == Step(Run(buckets, rate, events[..|events| - 1]), rate, Last(events))
    ensures Passed(buckets, rate, events, key) == Passed(buckets, rate, events[..|events| - 1], key)
              + PassedNow(Run(buckets, rate, events[..|events| - 1]), rate, Last(events), key)
    ensures Created(buckets, rate, events, key) == Created(buckets, rate, events[..|events| - 1], key)
              + CreatedNow(Run(buckets, rate, events[..|events| - 1]), Last(events), key)
  {
  }

  /** The books of a run, read as a bound on what passed. */
  lemma PassedAtMost(buckets: Buckets, rate: real, events: seq<Event>, from: Time, key: string)
    requires rate >= 0.0 && Ok(buckets, from) && Forward(from, events)
    ensures Passed(buckets, rate, events, key) as real
         <= Credit(buckets, rate, key, from) + 2.0 * Created(buckets, rate, events, key) as real
            + Refill(rate, from, End(from, events))
  {
    BooksBalance(buckets, rate, events, from, key);
    RunKeepsOk(buckets, rate, events, from);
    CreditGrows(Run(buckets, rate, events), rate, key, End(from, events), End(from, events));
  }

  /** Whatever is pruned in between: from a fresh limiter, at most two calls per bucket created and
      rate * T more get through in time T. */
  lemma PassedOverall(rate: real, events: seq<Event>, from: Time, key: string)
    requires rate >= 0.0 && Forward(from, events)
    ensures Passed(map[], rate, events, key) as real
         <= 2.0 * Created(map[], rate, events, key) as real + Refill(rate, from, End(from, events))
  {
    PassedAtMost(map[], rate, events, from, key);
  }

  /** All pruning, if any, is for buckets unused for longer than `olderThan`, as in one limiter. */
  ghost predicate PrunesAfter(events: seq<Event>, olderThan: Duration) {
    forall e :: e in events ==> e.Prune? ==> e.olderThan == olderThan
  }

  lemma DivLater(a: int, b: int, d: int)
    requires 0 <= a <= b && d > 0
    ensures 0 <= a / d <= b / d
    ensures a + d <= b ==> a / d + 1 <= b / d
  {
    assert (a / d) * d <= a;
    QuotientAtLeast(0, a, d);
    QuotientAtLeast(a / d, b, d);
    if a + d <= b {
      assert (a / d + 1) * d == (a / d) * d + d;
      QuotientAtLeast(a / d + 1, b, d);
    }
  }

  /** n buckets of one key, each created after the one before was old enough to be pruned. */
  ghost predicate CreatedApart(buckets: Buckets, key: string, n: nat, from: Time, to: Time, olderThan: Duration)
    requires olderThan > 0
  {
    from <= to
    && if key in buckets then from <= buckets[key].last <= to && 1 <= n <= 1 + (buckets[key].last - from) / olderThan
       else n <= (to - from) / olderThan
  }

  lemma StepApart(buckets: Buckets, rate: real, e: Event, key: string, n: nat, from: Time, at: Time,
                  olderThan: Duration)
    requires olderThan > 0 && at <= e.at && (e.Prune? ==> e.olderThan == olderThan)
    requires CreatedApart(buckets, key, n, from, at, olderThan)
    ensures CreatedApart(Step(buckets, rate, e), key, n + CreatedNow(buckets, e, key), from, e.at, olderThan)
  {
    DivLater(at - from, e.at - from, olderThan);
    if key in buckets {
      DivLater(buckets[key].last - from, e.at - from, olderThan);
    }
  }

  lemma {:induction false} BucketsApart(rate: real, events: seq<Event>, from: Time, key: string, olderThan: Duration)
    requires olderThan > 0 && Forward(from, events) && PrunesAfter(events, olderThan)
    ensures CreatedApart(Run(map[], rate, events), key, Created(map[], rate, events, key), from, End(from, events),
                         olderThan)
  {
    if events != [] {
      var before := events[..|events| - 1];
      SplitLast(events);
      PrefixForward(from, events);
      BucketsApart(rate, before, from, key, olderThan);
      StepApart(Run(map[], rate, before), rate, Last(events), key, Created(map[], rate, before, key), from,
                End(from, before), olderThan);
      RunSnoc(map[], rate, events, key);
    }
  }

  /** One limiter creates at most one bucket for a key per period of `olderThan` begun. */
  lemma CreatedRarely(rate: real, events: seq<Event>, from: Time, key: string, olderThan: Duration)
    requires olderThan > 0 && Forward(from, events) && PrunesAfter(events, olderThan)
    ensures from <= End(from, events)
    ensures Created(map[], rate, events, key) <= 1 + (End(from, events) - from) / olderThan
  {
    BucketsApart(rate, events, from, key, olderThan);
    var buckets := Run(map[], rate, events);
    if key in buckets {
      DivLater(buckets[key].last - from, End(from, events) - from, olderThan);
    }
  }

  lemma MoreBuckets(passed: nat, n: nat, m: nat, refill: real)
    requires passed as real <= 2.0 * n as real + refill && n <= m
    ensures passed as real <= 2.0 * m as real + refill
  {
  }

  /** With pruning, over every run of one limiter: in time T at most two calls for every period of
      `olderThan` begun, and rate * T more, get through. */
  lemma PassedThroughPrunings(rate: real, events: seq<Event>, from: Time, key: string, olderThan: Duration)
    requires rate >= 0.0 && olderThan > 0 && Forward(from, events) && PrunesAfter(events, olderThan)
    ensures var t := End(from, events) - from;
            t >= 0 && Passed(map[], rate, events, key) as real
                      <= 2.0 * (1 + t / olderThan) as real + Refill(rate, from, End(from, events))
  {
    PassedOverall(rate, events, from, key);
    CreatedRarely(rate, events, from, key, olderThan);
    DivLater(0, End(from, events) - from, olderThan);
    MoreBuckets(Passed(map[], rate, events, key), Created(map[], rate, events, key),
                1 + (End(from, events) - from) / olderThan, Refill(rate, from, End(from, events)));
  }

  ghost predicate Unpruned(events: seq<Event>) { forall e :: e in events ==> e.Call? }

  lemma {:induction false} OneBucket(buckets: Buckets, rate: real, events: seq<Event>, key: string)
    requires Unpruned(events)
    ensures Created(buckets, rate, events, key) <= if key in buckets then 0 else 1
    ensures key in buckets || Created(buckets, rate, events, key) > 0 ==> key in Run(buckets, rate, events)
  {
    if events != [] {
      SplitLast(events);
      OneBucket(buckets, rate, events[..|events| - 1], key);
    }
  }

  /** Between prunings, at most 2 + rate * T calls of a key pass in the time T since its first. */
  lemma PassedSinceFirst(rate: real, events: seq<Event>, from: Time, key: string)
    requires rate >= 0.0 && Forward(from, events) && Unpruned(events)
    ensures Passed(map[], rate, events, key) as real <= 2.0 + Refill(rate, from, End(from, events))
  {
    PassedOverall(rate, events, from, key);
    OneBucket(map[], rate, events, key);
    MoreBuckets(Passed(map[], rate, events, key), Created(map[], rate, events, key), 1,
                Refill(rate, from, End(from, events)));
  }

  /** Over any stretch of a run after the key's first call, at most 1 + rate * T calls pass. */
  lemma PassedLater(rate: real, past: seq<Event>, start: Time, events: seq<Event>, from: Time, key: string)
    requires rate >= 0.0 && Forward(start, past) && End(start, past) <= from
    requires Forward(from, events) && Unpruned(events)
    requires key in Run(map[], rate, past)
    ensures Passed(Run(map[], rate, past), rate, events, key) as real <= 1.0 + Refill(rate, from, End(from, events))
  {
    var buckets := Run(map[], rate, past);
    RunKeepsOk(map[], rate, past, start);
    assert Ok(buckets, from) by {
      forall k | k in buckets ensures BucketOk(buckets[k], from) {
        assert BucketOk(buckets[k], End(start, past));
      }
    }
    PassedWithBucket(buckets, rate, events, from, key);
  }

  lemma PassedWithBucket(buckets: Buckets, rate: real, events: seq<Event>, from: Time, key: string)
    requires rate >= 0.0 && Ok(buckets, from) && Forward(from, events) && Unpruned(events) && key in buckets
    ensures KeepsRate(buckets, rate, events, from, key)
  {
    PassedAtMost(buckets, rate, events, from, key);
    OneBucket(buckets, rate, events, key);
    CreditGrows(buckets, rate, key, from, from);
  }

  /** The extra call is real: whatever else the limiter holds, two calls at the same instant on a key
      without a bucket both pass. */
  lemma TwoAtOnce(buckets: Buckets, rate: real, key: string, at: Time)
    requires key !in buckets
    ensures Passed(buckets, rate, [Call(key, at), Call(key, at)], key) == 2
  {
    var es := [Call(key, at), Call(key, at)];
    var once: seq<Event> := es[..1];
    assert once[..0] == [];
    assert Passed(buckets, rate, once, key) == 1;
    assert Run(buckets, rate, once) == buckets[key := Bucket(CAPACITY, at)];
    assert Seconds(at - at) * rate == 0.0;
    assert PassedNow(Run(buckets, rate, once), rate, es[1], key) == 1;
    assert es[..|es| - 1] == once && Last(es) == es[1];
  }

  /** At most 1 + rate * T calls of the key pass in this run. */
  ghost predicate KeepsRate(buckets: Buckets, rate: real, events: seq<Event>, from: Time, key: string) {
    Passed(buckets, rate, events, key) as real <= 1.0 + Refill(rate, from, End(from, events))
  }

  /** In any state of a limiter, the bound 1 + rate * T holds of every run between prunings, if and
      only if the key has a bucket. */
  lemma KeepsRateIffBucket(buckets: Buckets, rate: real, from: Time, key: string)
    requires rate >= 0.0 && Ok(buckets, from)
    ensures (forall events: seq<Event> :: Forward(from, events) && Unpruned(events) ==>
                                            KeepsRate(buckets, rate, events, from, key))
       <==> key in buckets
  {
    if key in buckets {
      forall events: seq<Event> | Forward(from, events) && Unpruned(events)
        ensures KeepsRate(buckets, rate, events, from, key)
      {
        PassedWithBucket(buckets, rate, events, from, key);
      }
    } else {
      var twice := [Call(key, from), Call(key, from)];
      TwoAtOnce(buckets, rate, key, from);
      RateTimesTime(rate, from, from, from);
      assert Forward(from, twice) && Unpruned(twice) && End(from, twice) == from;
      assert Refill(rate, from, from) == 0.0;
      assert !KeepsRate(buckets, rate, twice, from, key);
    }
  }

  // ----- what is let through -----

  /** Long enough to earn a call. */
  ghost predicate Rested(rate: real, last: Time, now: Time) { Refill(rate, last, now) >= 1.0 }

  /** A key that has rested long enough to earn a call gets it. */
  lemma RestedPasses(buckets: Buckets, rate: real, key: string, from: Time, now: Time)
    requires Ok(buckets, from) && (key in buckets ==> Rested(rate, buckets[key].last, now))
    ensures Allowed(buckets, rate, key, now)
  {
    if key in buckets {
      assert BucketOk(buckets[key], from);
    }
  }

  predicate CallAt(events: seq<Event>, key: string, i: int) {
    0 <= i < |events| && events[i].Call? && events[i].key == key
  }

  function Calls(events: seq<Event>, key: string): nat {
    if events == [] then 0
    else Calls(events[..|events| - 1], key) + if CallAt(events, key, |events| - 1) then 1 else 0
  }

  /** Every two calls of the key, and its last use before the run, are far enough apart. */
  ghost predicate Unhurried(buckets: Buckets, rate: real, events: seq<Event>, key: string) {
    && (forall i, j :: i < j && CallAt(events, key, i) && CallAt(events, key, j) ==>
                         Rested(rate, events[i].at, events[j].at))
    && (key in buckets ==>
          forall i :: CallAt(events, key, i) ==> Rested(rate, buckets[key].last, events[i].at))
  }

  lemma UnhurriedBefore(buckets: Buckets, rate: real, events: seq<Event>, key: string)
    requires events != [] && Unhurried(buckets, rate, events, key)
    ensures Unhurried(buckets, rate, events[..|events| - 1], key)
  {
    var before := events[..|events| - 1];
    forall i | CallAt(before, key, i) ensures CallAt(events, key, i) && before[i] == events[i] {
    }
  }

  /** A bucket was last used by some call of its key, or is the one from before. */
  ghost predicate UsedAt(buckets: Buckets, events: seq<Event>, key: string, last: Time) {
    (key in buckets && last == buckets[key].last) || exists i :: CallAt(events, key, i) && events[i].at == last
  }

  lemma UsedAtSnoc(buckets: Buckets, events: seq<Event>, key: string, last: Time)
    requires events != [] && UsedAt(buckets, events[..|events| - 1], key, last)
    ensures UsedAt(buckets, events, key, last)
  {
    var before := events[..|events| - 1];
    if !(key in buckets && last == buckets[key].last) {
      var i :| CallAt(before, key, i) && before[i].at == last;
      assert CallAt(events, key, i) && events[i] == before[i];
    }
  }

  lemma {:induction false} LastUse(buckets: Buckets, rate: real, events: seq<Event>, key: string)
    requires key in Run(buckets, rate, events)
    ensures UsedAt(buckets, events, key, Run(buckets, rate, events)[key].last)
  {
    if events != [] {
      var before := events[..|events| - 1];
      if CallAt(events, key, |events| - 1) {
        assert events[|events| - 1].at == Run(buckets, rate, events)[key].last;
      } else {
        LastUse(buckets, rate, before, key);
        UsedAtSnoc(buckets, events, key, Run(buckets, rate, before)[key].last);
      }
    }
  }

  lemma EarnedByRest(buckets: Buckets, rate: real, events: seq<Event>, key: string)
    requires events != [] && CallAt(events, key, |events| - 1) && Unhurried(buckets, rate, events, key)
    ensures var mid := Run(buckets, rate, events[..|events| - 1]);
            key in mid ==> Rested(rate, mid[key].last, Last(events).at)
  {
    var before := events[..|events| - 1];
    var mid := Run(buckets, rate, before);
    if key in mid {
      LastUse(buckets, rate, before, key);
      if i :| CallAt(before, key, i) && before[i].at == mid[key].last {
        assert CallAt(events, key, i) && events[i] == before[i];
      }
    }
  }

  /** Calls that leave enough time to earn one another all get through, whatever other keys do and
      whatever is pruned in between. */
  lemma {:induction false} UnhurriedCallsPass(buckets: Buckets, rate: real, events: seq<Event>, from: Time,
                                              key: string)
    requires rate >= 0.0 && Ok(buckets, from) && Forward(from, events) && Unhurried(buckets, rate, events, key)
    ensures Passed(buckets, rate, events, key) == Calls(events, key)
  {
    if events != [] {
      var before, e := events[..|events| - 1], Last(events);
      PrefixForward(from, events);
      UnhurriedBefore(buckets, rate, events, key);
      UnhurriedCallsPass(buckets, rate, before, from, key);
      RunSnoc(buckets, rate, events, key);
      if CallAt(events, key, |events| - 1) {
        RunKeepsOk(buckets, rate, before, from);
        EarnedByRest(buckets, rate, events, key);
        RestedPasses(Run(buckets, rate, before), rate, key, End(from, before), e.at);
      }
    }
  }

  // ----- exact books -----

  /** What a call cannot take up because its bucket is full. */
  function SpilledNow(buckets: Buckets, rate: real, e: Event, key: string): real {
    if e.Call? && e.key == key && key in buckets then
      var tokens := buckets[key].tokens + Refill(rate, buckets[key].last, e.at);
      if tokens > 1.0 then tokens - 1.0 else 0.0
    else 0.0
  }

  function Spilled(buckets: Buckets, rate: real, events: seq<Event>, key: string): real {
    if events == [] then 0.0
    else
      var before := events[..|events| - 1];
      Spilled(buckets, rate, before, key) + SpilledNow(Run(buckets, rate, before), rate, Last(events), key)
  }

  lemma RefillSplits(rate: real, a: Time, b: Time, c: Time)
    ensures Refill(rate, a, c) == Refill(rate, a, b) + Refill(rate, b, c) && Refill(rate, a, a) == 0.0
  {
    assert Seconds(c - a) == Seconds(b - a) + Seconds(c - b);
  }

  lemma StepBooks(buckets: Buckets, rate: real, e: Event, key: string)
    requires key in buckets && e.Call?
    ensures var b, c := buckets[key], Step(buckets, rate, e)[key];
            PassedNow(buckets, rate, e, key) as real + c.tokens + SpilledNow(buckets, rate, e, key)
            == b.tokens + Refill(rate, b.last, c.last)
  {
    RefillSplits(rate, buckets[key].last, buckets[key].last, buckets[key].last);
  }

  /** Between prunings the books of a key with a bucket balance to the token: what passed, what is
      left and what spilled over is what it had and what it earned. */
  lemma {:induction false} ExactBooks(buckets: Buckets, rate: real, events: seq<Event>, key: string)
    requires key in buckets && Unpruned(events)
    ensures key in Run(buckets, rate, events)
    ensures var b, c := buckets[key], Run(buckets, rate, events)[key];
            Passed(buckets, rate, events, key) as real + c.tokens + Spilled(buckets, rate, events, key)
            == b.tokens + Refill(rate, b.last, c.last)
  {
    if events == [] {
      RefillSplits(rate, buckets[key].last, buckets[key].last, buckets[key].last);
    } else {
      var before, e := events[..|events| - 1], Last(events);
      SplitLast(events);
      ExactBooks(buckets, rate, before, key);
      var mid := Run(buckets, rate, before);
      StepBooks(mid, rate, e, key);
      RefillSplits(rate, buckets[key].last, mid[key].last, Step(mid, rate, e)[key].last);
      RunSnoc(buckets, rate, events, key);
    }
  }

  /** A key is refused only when what it had and earned, less what passed and spilled, is below one. */
  lemma RefusedIffSpent(buckets: Buckets, rate: real, events: seq<Event>, key: string, now: Time)
    requires key in buckets && Unpruned(events)
    ensures var credit := buckets[key].tokens + Refill(rate, buckets[key].last, now)
                          - Passed(buckets, rate, events, key) as real - Spilled(buckets, rate, events, key);
            Allowed(Run(buckets, rate, events), rate, key, now) <==> credit >= 1.0
  {
    ExactBooks(buckets, rate, events, key);
    var b, c := buckets[key], Run(buckets, rate, events)[key];
    RefillSplits(rate, b.last, c.last, now);
    RefilledEnough(c, rate, now);
    Owed(Passed(buckets, rate, events, key) as real, c.tokens, Spilled(buckets, rate, events, key), b.tokens,
         Refill(rate, b.last, c.last), Refill(rate, c.last, now), Refill(rate, b.last, now));
  }

  lemma RefilledEnough(c: Bucket, rate: real, now: Time)
    ensures Refilled(c, rate, now) >= 1.0 <==> c.tokens + Refill(rate, c.last, now) >= 1.0
  {
  }

  lemma Owed(passed: real, left: real, spilled: real, start: real, x: real, y: real, z: real)
    requires passed + left + spilled == start + x && z == x + y
    ensures left + y == start + z - passed - spilled
  {
  }

  // ----- the limiter -----

  lemma QuotientTimes(a: real, b: real)
    requires b != 0.0
    ensures b * (a / b) == a
  {
  }

  class MemoryLimiter {
    var buckets: Buckets
    const rate: real

    /** A rate is calls per window, in calls per second: a window earns that many. */
    constructor (ratePerWindow: int, window: Duration)
      requires window != 0
      ensures buckets == map[] && rate == ratePerWindow as real / Seconds(window)
      ensures Refill(rate, 0, window) == ratePerWindow as real
    {
      buckets := map[];
      rate := ratePerWindow as real / Seconds(window);
      new;
      QuotientTimes(ratePerWindow as real, Seconds(window));
    }

    method Allow(key: string, now: Time) returns (allowed: bool)
      modifies this
      ensures allowed == Allowed(old(buckets), rate, key, now)
      ensures buckets == Step(old(buckets), rate, Call(key, now))
    {
      if key !in buckets {
        buckets := buckets[key := Bucket(1.0, now)];
        return true;
      }
      var bucket := buckets[key];
      var elapsed := Seconds(now - bucket.last);
      var tokens := bucket.tokens + elapsed * rate;
      if tokens > 1.0 {
        tokens := 1.0;
      }
      assert tokens == Refilled(bucket, rate, now);
      if tokens < 1.0 {
        buckets := buckets[key := Bucket(tokens, now)];
        return false;
      }
      buckets := buckets[key := Bucket(tokens - 1.0, now)];
      return true;
    }

    /** One tick of the pruning loop. */
    method PruneTick(now: Time, olderThan: Duration)
      modifies this
      ensures buckets == Step(old(buckets), rate, Prune(now, olderThan))
      ensures forall k :: k in buckets <==> k in old(buckets) && now - old(buckets)[k].last <= olderThan
      ensures forall k :: k in buckets ==> buckets[k] == old(buckets)[k]
    {
      var cutoff := now - olderThan;
      var todo := buckets.Keys;
      ghost var was := buckets;
      while todo != {}
        invariant todo <= was.Keys && buckets.Keys <= was.Keys
        invariant forall k :: k in was ==> (k in buckets <==> k in todo || was[k].last >= cutoff)
        invariant forall k :: k in buckets ==> buckets[k] == was[k]
      {
        var key :| key in todo;
        if buckets[key].last < cutoff {
          buckets := buckets - {key};
        }
        todo := todo - {key};
      }
    }
  }
}
