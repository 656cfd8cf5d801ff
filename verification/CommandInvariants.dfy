/** What every run of the command service keeps, and what it can never do. */
module CommandInvariants {
  import opened Sequences
  import opened CommandModel

  // ----- the invariant -----

  /** The audit trail tells the whole story: enqueued, retried at most once, ended at most once. */
  ghost predicate WellFormed(c: Command) {
    && 0 <= c.retryCount <= 1 && c.retryCount <= c.maxRetries <= 20
    && |c.audit| == 1 + c.retryCount + (if Terminal(c) then 1 else 0)
    && c.audit[0].status == Pending
    && (c.retryCount == 1 ==> c.audit[1].status == Retrying)
    && Last(c.audit).status == c.status
    && Last(c.audit).at == c.updatedAt
    && c.status != Expired
  }

  /** Commands and index are in bijection. */
  ghost predicate Indexed(s: Store) {
    && "" !in s.commands
    && (forall id :: id in s.commands ==>
          s.commands[id].id == id && KeyOf(s.commands[id]) in s.byIdempotency
          && s.byIdempotency[KeyOf(s.commands[id])] == id)
    && (forall k :: k in s.byIdempotency ==>
          s.byIdempotency[k] in s.commands && KeyOf(s.commands[s.byIdempotency[k]]) == k)
  }

  ghost predicate Inv(s: Store) {
    Indexed(s) && All(WellFormed, s.commands)
  }

  ghost predicate All<V>(ok: V -> bool, m: map<string, V>) { forall id :: id in m ==> ok(m[id]) }

  ghost predicate AllLater<V>(later: (V, V) -> bool, m: map<string, V>, n: map<string, V>) {
    forall id :: id in m ==> id in n && later(m[id], n[id])
  }

  lemma UpdateKeepsAll<V>(ok: V -> bool, m: map<string, V>, id: string, v: V)
    requires All(ok, m) && ok(v)
    ensures All(ok, m[id := v])
  {
  }

  lemma UpdateEvolves<V>(later: (V, V) -> bool, m: map<string, V>, id: string, v: V)
    requires forall k :: k in m ==> later(m[k], m[k])
    requires id in m ==> later(m[id], v)
    ensures AllLater(later, m, m[id := v])
  {
  }

  lemma AllLaterTransitive<V>(later: (V, V) -> bool, m: map<string, V>, n: map<string, V>, o: map<string, V>)
    requires AllLater(later, m, n) && AllLater(later, n, o)
    requires forall a, b, c :: later(a, b) && later(b, c) ==> later(a, c)
    ensures AllLater(later, m, o)
  {
  }

  // ----- how a command may change -----

  function Rank(c: Command): nat {
    if c.status == Pending then 2 else if c.status == Retrying then 1 else 0
  }

  /** d is c later on: same identity, a longer trail, a lower rank if anything changed at all. */
  ghost predicate Later(c: Command, d: Command) {
    && d.id == c.id && d.deviceId == c.deviceId && d.name == c.name && d.payload == c.payload
    && d.idempotencyKey == c.idempotencyKey && d.maxRetries == c.maxRetries && d.timeout == c.timeout
    && d.createdAt == c.createdAt
    && c.audit <= d.audit
    && (d == c || Rank(d) < Rank(c))
  }

  lemma LaterTransitive(a: Command, b: Command, c: Command)
    requires Later(a, b) && Later(b, c)
    ensures Later(a, c)
  {
  }

  /** From s to t nothing is lost: every command and every index entry survives. */
  ghost predicate Evolves(s: Store, t: Store) {
    && AllLater(Later, s.commands, t.commands)
    && (forall k :: k in s.byIdempotency ==> k in t.byIdempotency && t.byIdempotency[k] == s.byIdempotency[k])
  }

  // ----- each call keeps it -----

  lemma NewIsWellFormed(input: EnqueueInput, freshKey: string, id: string, now: Time, trace: string)
    ensures WellFormed(NewCommand(Completed(input, freshKey), id, now, trace))
  {
  }

  lemma AcknowledgedKeeps(c: Command, input: AckInput, now: Time, trace: string)
    requires WellFormed(c) && !Terminal(c)
    ensures WellFormed(Acknowledged(c, input, now, trace)) && Later(c, Acknowledged(c, input, now, trace))
    ensures Rank(Acknowledged(c, input, now, trace)) == 0
  {
  }

  lemma ReapedKeeps(c: Command, now: Time, trace: string)
    requires WellFormed(c) && c.status == Pending
    ensures WellFormed(Reaped(c, now, trace)) && Later(c, Reaped(c, now, trace))
    ensures Rank(Reaped(c, now, trace)) < Rank(c)
  {
  }

  lemma SaveLaterIndexed(s: Store, c: Command)
    requires Indexed(s) && c.id in s.commands && KeyOf(c) == KeyOf(s.commands[c.id])
    ensures Indexed(Saved(s, c)) && Saved(s, c).byIdempotency == s.byIdempotency
  {
  }

  /** Replacing a command by its later self. */
  lemma SaveLaterKeeps(s: Store, c: Command)
    requires Inv(s) && c.id in s.commands && Later(s.commands[c.id], c) && WellFormed(c)
    ensures Inv(Saved(s, c)) && Evolves(s, Saved(s, c))
  {
    SaveLaterIndexed(s, c);
    UpdateKeepsAll(WellFormed, s.commands, c.id, c);
    UpdateEvolves(Later, s.commands, c.id, c);
  }

  lemma SaveNewIndexed(s: Store, c: Command)
    requires Indexed(s) && c.id != "" && c.id !in s.commands && KeyOf(c) !in s.byIdempotency
    ensures Indexed(Saved(s, c))
  {
  }

  lemma SaveNewKeeps(s: Store, c: Command)
    requires Inv(s) && c.id != "" && c.id !in s.commands && KeyOf(c) !in s.byIdempotency && WellFormed(c)
    ensures Inv(Saved(s, c)) && Evolves(s, Saved(s, c))
  {
    SaveNewIndexed(s, c);
    UpdateKeepsAll(WellFormed, s.commands, c.id, c);
    UpdateEvolves(Later, s.commands, c.id, c);
  }

  lemma EnqueueKeeps(s: Store, op: Op)
    requires Inv(s) && Admissible(s, op) && op.Enqueue?
    ensures Inv(Step(s, op)) && Evolves(s, Step(s, op))
  {
    var outcome := EnqueueOutcome(s, op.input, op.freshKey, op.freshId, op.now, op.trace);
    if outcome.Created? {
      NewIsWellFormed(op.input, op.freshKey, op.freshId, op.now, op.trace);
      SaveNewKeeps(s, outcome.command);
    }
  }

  lemma AckKeeps(s: Store, op: Op)
    requires Inv(s) && op.Ack?
    ensures Inv(Step(s, op)) && Evolves(s, Step(s, op))
  {
    if Acknowledgeable(s, op.ack) {
      var c := s.commands[op.ack.commandId];
      AcknowledgedKeeps(c, op.ack, op.now, op.trace);
      SaveLaterKeeps(s, Acknowledged(c, op.ack, op.now, op.trace));
    }
  }

  lemma SweepKeeps(s: Store, op: Op)
    requires Inv(s) && Admissible(s, op) && op.Sweep?
    ensures Inv(Step(s, op)) && Evolves(s, Step(s, op))
  {
    SweptAll(s.commands, op.now, op.trace, op.batch);
    SameKeysIndexed(s, Step(s, op));
  }

  lemma SweptAll(commands: map<string, Command>, now: Time, trace: string, batch: set<string>)
    requires batch <= Due(commands, now) && All(WellFormed, commands)
    ensures All(WellFormed, Swept(commands, now, trace, batch))
    ensures AllLater(Later, commands, Swept(commands, now, trace, batch))
  {
    var swept := Swept(commands, now, trace, batch);
    forall id | id in commands ensures WellFormed(swept[id]) && Later(commands[id], swept[id]) {
      SweptOne(commands, now, trace, batch, id);
    }
  }

  lemma SweptOne(commands: map<string, Command>, now: Time, trace: string, batch: set<string>, id: string)
    requires batch <= Due(commands, now) && id in commands && WellFormed(commands[id])
    ensures var d := Swept(commands, now, trace, batch)[id]; WellFormed(d) && Later(commands[id], d)
  {
    if id in batch {
      assert id in Due(commands, now);
      ReapedKeeps(commands[id], now, trace);
    }
  }

  lemma SameKeysIndexed(s: Store, t: Store)
    requires Indexed(s) && t.byIdempotency == s.byIdempotency && t.commands.Keys == s.commands.Keys
    requires AllLater(Later, s.commands, t.commands)
    ensures Indexed(t)
  {
  }

  lemma StepKeeps(s: Store, op: Op)
    requires Inv(s) && Admissible(s, op)
    ensures Inv(Step(s, op)) && Evolves(s, Step(s, op))
  {
    match op
    case Enqueue(_, _, _, _, _) => EnqueueKeeps(s, op);
    case Ack(_, _, _) => AckKeeps(s, op);
    case Sweep(_, _, _) => SweepKeeps(s, op);
  }

  lemma EvolvesTransitive(a: Store, b: Store, c: Store)
    requires Evolves(a, b) && Evolves(b, c)
    ensures Evolves(a, c)
  {
    forall x, y, z | Later(x, y) && Later(y, z) ensures Later(x, z) {
      LaterTransitive(x, y, z);
    }
    AllLaterTransitive(Later, a.commands, b.commands, c.commands);
  }

  // ----- whole runs -----

  lemma PrefixAdmissible(s: Store, ops: seq<Op>)
    requires AdmissibleRun(s, ops) && ops != []
    ensures AdmissibleRun(s, ops[..|ops| - 1]) && Admissible(Run(s, ops[..|ops| - 1]), Last(ops))
  {
    var before := ops[..|ops| - 1];
    assert forall i :: 0 <= i < |before| ==> before[..i] == ops[..i];
  }

  /** Every run keeps the invariant, loses nothing, and only moves commands forward. */
  lemma {:induction false} RunKeeps(s: Store, ops: seq<Op>)
    requires Inv(s) && AdmissibleRun(s, ops)
    ensures Inv(Run(s, ops)) && Evolves(s, Run(s, ops))
  {
    if ops != [] {
      var before := ops[..|ops| - 1];
      PrefixAdmissible(s, ops);
      RunKeeps(s, before);
      StepKeeps(Run(s, before), Last(ops));
      EvolvesTransitive(s, Run(s, before), Run(s, ops));
    }
  }

  lemma EmptyIsValid()
    ensures Inv(EMPTY)
  {
  }

  function Retries(audit: seq<AuditEntry>): nat {
    |Filter(audit, (e: AuditEntry) => e.status == Retrying)|
  }

  lemma {:induction false} RetriesTake(audit: seq<AuditEntry>, n: nat)
    requires n < |audit|
    ensures Retries(audit[..n + 1]) == Retries(audit[..n]) + if audit[n].status == Retrying then 1 else 0
  {
    assert audit[..n + 1] == audit[..n] + [audit[n]];
    FilterSnoc(audit[..n], audit[n], (e: AuditEntry) => e.status == Retrying);
  }

  lemma RetriesOfWellFormed(c: Command)
    requires WellFormed(c)
    ensures Retries(c.audit) == c.retryCount
  {
    assert Retries(c.audit[..0]) == 0;
    RetriesTake(c.audit, 0);
    if |c.audit| >= 2 {
      RetriesTake(c.audit, 1);
    }
    if |c.audit| >= 3 {
      RetriesTake(c.audit, 2);
    }
    assert c.audit[..|c.audit|] == c.audit;
  }

  /** From the empty store on: the audit starts with pending and ends with the current status, the
      retry count is the number of retrying entries and within the budget, which is at most 20. */
  lemma AuditTellsTheStory(ops: seq<Op>, id: string)
    requires AdmissibleRun(EMPTY, ops) && id in Run(EMPTY, ops).commands
    ensures WellFormed(Run(EMPTY, ops).commands[id])
    ensures Retries(Run(EMPTY, ops).commands[id].audit) == Run(EMPTY, ops).commands[id].retryCount
  {
    EmptyIsValid();
    RunKeeps(EMPTY, ops);
    RetriesOfWellFormed(Run(EMPTY, ops).commands[id]);
  }

  lemma LaterAfterRun(s: Store, ops: seq<Op>, id: string)
    requires Inv(s) && AdmissibleRun(s, ops) && id in s.commands
    ensures id in Run(s, ops).commands && Later(s.commands[id], Run(s, ops).commands[id])
  {
    RunKeeps(s, ops);
  }

  /** A terminal command never changes again. */
  lemma TerminalIsFinal(s: Store, ops: seq<Op>, id: string)
    requires Inv(s) && AdmissibleRun(s, ops) && id in s.commands && Terminal(s.commands[id])
    ensures id in Run(s, ops).commands && Run(s, ops).commands[id] == s.commands[id]
  {
    LaterAfterRun(s, ops, id);
  }

  /** The times a stored command is changed by a run. */
  ghost function Changes(s: Store, ops: seq<Op>, id: string): nat {
    if ops == [] then 0
    else
      var before := Run(s, ops[..|ops| - 1]);
      Changes(s, ops[..|ops| - 1], id)
      + if id in before.commands && id in Run(s, ops).commands && before.commands[id] != Run(s, ops).commands[id] then 1
        else 0
  }

  /** Every change costs rank, so a command changes at most twice after it was created. */
  lemma {:induction false} ChangesCostRank(s: Store, ops: seq<Op>, id: string)
    requires Inv(s) && AdmissibleRun(s, ops) && id in s.commands
    ensures id in Run(s, ops).commands
    ensures Changes(s, ops, id) <= Rank(s.commands[id]) - Rank(Run(s, ops).commands[id])
    ensures Changes(s, ops, id) <= 2
  {
    LaterAfterRun(s, ops, id);
    if ops != [] {
      var before := ops[..|ops| - 1];
      PrefixAdmissible(s, ops);
      RunKeeps(s, before);
      ChangesCostRank(s, before, id);
      LaterAfterStep(Run(s, before), Last(ops), id);
    }
  }

  lemma LaterAfterStep(s: Store, op: Op, id: string)
    requires Inv(s) && Admissible(s, op) && id in s.commands
    ensures id in Step(s, op).commands && Later(s.commands[id], Step(s, op).commands[id])
  {
    StepKeeps(s, op);
  }

  // ----- idempotency -----

  lemma {:induction false} RunConcat(s: Store, a: seq<Op>, b: seq<Op>)
    ensures Run(s, a + b) == Run(Run(s, a), b)
  {
    if b == [] {
      assert a + b == a;
    } else {
      RunConcat(s, a, b[..|b| - 1]);
      ConcatButLast(a, b);
    }
  }

  function OutcomeOf(s: Store, op: Op): Outcome
    requires op.Enqueue?
  {
    EnqueueOutcome(s, op.input, op.freshKey, op.freshId, op.now, op.trace)
  }

  /** Enqueues with one device and key, however far apart and whatever happens in between, are all
      answered with one command, and only the first of them creates it. */
  lemma OneCommandPerKey(s: Store, first: Op, between: seq<Op>, second: Op)
    requires Inv(s) && first.Enqueue? && second.Enqueue?
    requires Enqueuable(first.input) && Enqueuable(second.input)
    requires first.input.deviceId == second.input.deviceId
    requires first.input.idempotencyKey == second.input.idempotencyKey != ""
    requires Admissible(s, first) && AdmissibleRun(Step(s, first), between)
    ensures var t := Run(Step(s, first), between);
            var answer := OutcomeOf(t, second);
            (answer.Existing? || answer.AlreadyUsed?)
            && answer.command.id == OutcomeOf(s, first).command.id
            && Step(t, second) == t
  {
    StepKeeps(s, first);
    RunKeeps(Step(s, first), between);
    FirstIsIndexed(s, first);
    AnsweredFromIndex(Run(Step(s, first), between), second);
  }

  lemma FirstIsIndexed(s: Store, op: Op)
    requires Indexed(s) && op.Enqueue? && Enqueuable(op.input) && op.input.idempotencyKey != ""
    ensures var key := (op.input.deviceId, op.input.idempotencyKey);
            key in Step(s, op).byIdempotency && Step(s, op).byIdempotency[key] == OutcomeOf(s, op).command.id
  {
  }

  lemma AnsweredFromIndex(s: Store, op: Op)
    requires Indexed(s) && op.Enqueue? && Enqueuable(op.input) && op.input.idempotencyKey != ""
    requires (op.input.deviceId, op.input.idempotencyKey) in s.byIdempotency
    ensures OutcomeOf(s, op).Existing? || OutcomeOf(s, op).AlreadyUsed?
    ensures OutcomeOf(s, op).command.id == s.byIdempotency[(op.input.deviceId, op.input.idempotencyKey)]
    ensures Step(s, op) == s
  {
  }

  // ----- the reaper -----

  /** A sweep at a fixed time takes exactly its batch out of the due commands. */
  lemma SweepShrinksDue(s: Store, now: Time, trace: string, batch: set<string>)
    requires Inv(s) && IsBatch(s.commands, now, SWEEP_LIMIT, batch)
    ensures Due(Step(s, Sweep(now, trace, batch)).commands, now) == Due(s.commands, now) - batch
    ensures |Due(Step(s, Sweep(now, trace, batch)).commands, now)| == |Due(s.commands, now)| - |batch|
  {
    DueAfterSweep(s.commands, now, trace, batch);
    Without(Due(s.commands, now), batch);
  }

  lemma Without<T>(s: set<T>, t: set<T>)
    requires t <= s
    ensures |s - t| == |s| - |t|
  {
    assert s == (s - t) + t;
  }

  lemma DueAfterSweep(commands: map<string, Command>, now: Time, trace: string, batch: set<string>)
    requires All(WellFormed, commands) && batch <= Due(commands, now)
    ensures Due(Swept(commands, now, trace, batch), now) == Due(commands, now) - batch
  {
    forall id | id in commands
      ensures DueAt(Swept(commands, now, trace, batch)[id], now) <==> DueAt(commands[id], now) && id !in batch
    {
      assert WellFormed(commands[id]);
      SweptDue(commands, now, trace, batch, id);
    }
  }

  lemma SweptDue(commands: map<string, Command>, now: Time, trace: string, batch: set<string>, id: string)
    requires id in commands && commands[id].retryCount >= 0 && batch <= Due(commands, now)
    ensures DueAt(Swept(commands, now, trace, batch)[id], now) <==> DueAt(commands[id], now) && id !in batch
  {
  }

  /** Only sweeps, all at one time. */
  ghost predicate Sweeping(ops: seq<Op>, now: Time) { forall op :: op in ops ==> op.Sweep? && op.now == now }

  /** k sweeps at a fixed time deal with 100 due commands each, until none is left. */
  lemma {:induction false} SweepsDrain(s: Store, ops: seq<Op>, now: Time)
    requires Inv(s) && AdmissibleRun(s, ops) && Sweeping(ops, now)
    ensures |Due(Run(s, ops).commands, now)| == Max(0, |Due(s.commands, now)| - SWEEP_LIMIT * |ops|)
  {
    if ops != [] {
      var before, op := ops[..|ops| - 1], Last(ops);
      SplitLast(ops);
      PrefixAdmissible(s, ops);
      SweepsDrain(s, before, now);
      RunKeeps(s, before);
      SweepShrinksDue(Run(s, before), now, op.trace, op.batch);
      DrainOnce(|Due(s.commands, now)|, |before|, |Due(Run(s, before).commands, now)|, |op.batch|);
    }
  }

  lemma DrainOnce(n: nat, sweeps: nat, left: nat, batch: nat)
    requires left == Max(0, n - SWEEP_LIMIT * sweeps) && batch == Min(SWEEP_LIMIT, left)
    ensures left - batch == Max(0, n - SWEEP_LIMIT * (sweeps + 1))
  {
  }

  function Max(a: int, b: int): int { if a < b then b else a }

  /** ceil(n / 100) sweeps at a fixed time leave nothing due, and fewer leave something. */
  lemma SweepsNeeded(s: Store, ops: seq<Op>, now: Time)
    requires Inv(s) && AdmissibleRun(s, ops) && Sweeping(ops, now)
    ensures Due(Run(s, ops).commands, now) == {} <==> |ops| >= (|Due(s.commands, now)| + 99) / 100
  {
    SweepsDrain(s, ops, now);
  }

  /** Nobody acknowledges this command. */
  ghost predicate Unacknowledged(ops: seq<Op>, id: string) {
    forall op :: op in ops ==> op.Ack? ==> op.ack.commandId != id
  }

  /** The reaper never comes back to a command it has sent for retry: without an acknowledgement
      the command stays as it is for good, whatever its retry budget. */
  lemma {:induction false} RetryingIsStuck(s: Store, ops: seq<Op>, id: string)
    requires Inv(s) && AdmissibleRun(s, ops) && Unacknowledged(ops, id)
    requires id in s.commands && s.commands[id].status == Retrying
    ensures id in Run(s, ops).commands && Run(s, ops).commands[id] == s.commands[id]
  {
    if ops != [] {
      var before, op := ops[..|ops| - 1], Last(ops);
      SplitLast(ops);
      PrefixAdmissible(s, ops);
      RetryingIsStuck(s, before, id);
      RunKeeps(s, before);
      RetryingStays(Run(s, before), op, id);
    }
  }

  lemma RetryingStays(s: Store, op: Op, id: string)
    requires Indexed(s) && Admissible(s, op) && (op.Ack? ==> op.ack.commandId != id)
    requires id in s.commands && s.commands[id].status == Retrying
    ensures id in Step(s, op).commands && Step(s, op).commands[id] == s.commands[id]
  {
    if op.Sweep? {
      assert id !in Due(s.commands, op.now);
    }
  }

  // ----- how a command that times out ends -----

  /** Some sweep finds this command due. */
  ghost predicate TimedOut(ops: seq<Op>, id: string) { exists op :: op in ops && op.Sweep? && id in op.batch }

  /** What a command is after a run in which nobody acknowledges it: untouched if it never timed
      out; failed if it had no retries; otherwise retried once, however many retries it had. */
  ghost predicate EndsAs(c: Command, timedOut: bool, d: Command) {
    if !timedOut then d == c
    else if c.maxRetries == 0 then d.status == Failed && d.retryCount == 0 && d.failureReason == TIMED_OUT
    else d.status == Retrying && d.retryCount == 1
  }

  /** A pending command that times out without an acknowledgement ends failed, and so has used up
      its retry budget, if and only if its budget is zero. */
  lemma TimedOutFailsIffNoRetries(s: Store, ops: seq<Op>, id: string)
    requires Inv(s) && AdmissibleRun(s, ops) && Unacknowledged(ops, id)
    requires id in s.commands && s.commands[id].status == Pending
    ensures id in Run(s, ops).commands && EndsAs(s.commands[id], TimedOut(ops, id), Run(s, ops).commands[id])
    ensures TimedOut(ops, id) ==> (Terminal(Run(s, ops).commands[id]) <==> s.commands[id].maxRetries == 0)
    ensures TimedOut(ops, id) ==>
              (Run(s, ops).commands[id].retryCount == s.commands[id].maxRetries <==> s.commands[id].maxRetries <= 1)
  {
    PendingIsUntried(s.commands[id]);
    UnacknowledgedEnds(s, ops, id);
  }

  lemma {:induction false} UnacknowledgedEnds(s: Store, ops: seq<Op>, id: string)
    requires Inv(s) && AdmissibleRun(s, ops) && Unacknowledged(ops, id)
    requires id in s.commands && s.commands[id].status == Pending
    ensures id in Run(s, ops).commands && EndsAs(s.commands[id], TimedOut(ops, id), Run(s, ops).commands[id])
  {
    if ops != [] {
      var before, op := ops[..|ops| - 1], Last(ops);
      SplitLast(ops);
      PrefixAdmissible(s, ops);
      UnacknowledgedEnds(s, before, id);
      RunKeeps(s, before);
      PendingIsUntried(s.commands[id]);
      TimedOutSnoc(ops, id);
      UnacknowledgedStep(Run(s, before), op, id, s.commands[id], TimedOut(before, id));
    }
  }

  lemma PendingIsUntried(c: Command)
    requires WellFormed(c) && c.status == Pending
    ensures c.retryCount == 0 <= c.maxRetries
  {
  }

  lemma TimedOutSnoc(ops: seq<Op>, id: string)
    requires ops != []
    ensures TimedOut(ops, id) <==> TimedOut(ops[..|ops| - 1], id) || (Last(ops).Sweep? && id in Last(ops).batch)
  {
    SplitLast(ops);
  }

  lemma UnacknowledgedStep(s: Store, op: Op, id: string, c: Command, timedOut: bool)
    requires Indexed(s) && Admissible(s, op) && (op.Ack? ==> op.ack.commandId != id)
    requires id in s.commands && EndsAs(c, timedOut, s.commands[id])
    requires c.status == Pending && c.retryCount == 0 && c.maxRetries >= 0
    ensures id in Step(s, op).commands
    ensures EndsAs(c, timedOut || (op.Sweep? && id in op.batch), Step(s, op).commands[id])
  {
    if op.Sweep? && id in op.batch {
      assert id in Due(s.commands, op.now);
    }
  }

  /** One enqueue, with a budget of three retries. */
  function EnqueueThree(id: string, now: Time): Op {
    Enqueue(EnqueueInput("device", "reboot", map[], "key", 3, SECOND), "fresh", id, now, "")
  }

  /** The sweep that finds it due. */
  function SweepOne(id: string, now: Time): Op { Sweep(now, "", {id}) }

  /** A budget of three retries is not honoured: one timeout, one retry, and the command is left in
      `retrying` with two retries unspent, whatever follows short of an acknowledgement. */
  lemma ThreeRetriesAreOne(id: string, start: Time, more: seq<Op>)
    requires id != "" && Unacknowledged(more, id)
    requires var ops := [EnqueueThree(id, start), SweepOne(id, start + SECOND + 1)];
             AdmissibleRun(Run(EMPTY, ops), more)
    ensures var ops := [EnqueueThree(id, start), SweepOne(id, start + SECOND + 1)];
            AdmissibleRun(EMPTY, ops)
            && id in Run(EMPTY, ops + more).commands
            && var c := Run(EMPTY, ops + more).commands[id];
               c.status == Retrying && c.retryCount == 1 && c.maxRetries == 3
  {
    var first, second := EnqueueThree(id, start), SweepOne(id, start + SECOND + 1);
    var ops := [first, second];
    var s1 := Step(EMPTY, first);
    var c := NewCommand(Completed(first.input, first.freshKey), id, start, "");
    assert s1 == Store(map[id := c], map[KeyOf(c) := id]);
    assert Due(s1.commands, second.now) == {id};
    TwoSteps(EMPTY, first, second);
    RunKeeps(EMPTY, ops);
    RunConcat(EMPTY, ops, more);
    RetryingIsStuck(Run(EMPTY, ops), more, id);
  }

  lemma TwoSteps(s: Store, first: Op, second: Op)
    ensures Run(s, [first, second]) == Step(Step(s, first), second)
    ensures AdmissibleRun(s, [first, second]) <==> Admissible(s, first) && Admissible(Step(s, first), second)
  {
    var ops := [first, second];
    assert ops[..0] == [] && ops[..1] == [first] && [first][..0] == [];
    assert Run(s, ops[..1]) == Step(s, first);
    assert AdmissibleRun(s, ops) <==> Admissible(Run(s, ops[..0]), ops[0]) && Admissible(Run(s, ops[..1]), ops[1]);
  }

  // ----- what a failed acknowledgement leaves behind -----

  /** A failed acknowledgement records the caller's own message, if and only if there is one:
      without a message the reason for the failure reads "acknowledged". */
  lemma FailureReasonIsMessage(s: Store, input: AckInput, now: Time, trace: string)
    requires Indexed(s) && Acknowledgeable(s, input) && !input.success
    ensures var c := Step(s, Ack(input, now, trace)).commands[input.commandId];
            c.status == Failed
            && (c.failureReason == input.message <==> input.message != "")
            && (input.message == "" ==> c.failureReason == "acknowledged")
  {
    assert |"acknowledged"| > 0;
  }
}
