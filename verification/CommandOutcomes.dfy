/** How commands end, and what they start as, in terms of what the callers said. */
module CommandOutcomes {
  import opened Results
  import opened Sequences
  import opened CommandModel
  import opened CommandInvariants
  import Strings

  // ----- what an acknowledgement does -----

  /** The call acknowledges the command, for its own device, while it is still open. */
  ghost predicate EffectiveNow(s: Store, op: Op, id: string) {
    && op.Ack? && op.ack.commandId == id && op.ack.deviceId != ""
    && id in s.commands && !Terminal(s.commands[id]) && op.ack.deviceId == s.commands[id].deviceId
  }

  ghost predicate TakesEffect(s: Store, ops: seq<Op>, id: string, i: nat)
    requires i < |ops|
  {
    EffectiveNow(Run(s, ops[..i]), ops[i], id)
  }

  /** The command d as the acknowledgement leaves the command c. */
  ghost predicate Answers(c: Command, op: Op, d: Command)
    requires op.Ack?
  {
    && d.status == (if op.ack.success then Acked else Failed)
    && d.ackedAt == Some(op.now) && d.updatedAt == op.now
    && (op.ack.success ==> d.failureReason == c.failureReason)
    && |d.audit| > 0 && Last(d.audit).traceId == op.trace
    && Last(d.audit).message == if op.ack.message == "" then "acknowledged" else op.ack.message
  }

  /** A command that is still open has never been answered nor given a reason for failure. */
  ghost predicate Unanswered(c: Command, d: Command) {
    d.ackedAt == c.ackedAt && d.failureReason == c.failureReason
  }

  lemma EffectiveStep(s: Store, op: Op, id: string)
    requires Inv(s) && EffectiveNow(s, op, id)
    ensures id in Step(s, op).commands && Answers(s.commands[id], op, Step(s, op).commands[id])
  {
    assert id != "";
  }

  /** Any other call leaves an open command open and unanswered, except for failing it on timeout. */
  lemma OtherStep(s: Store, op: Op, id: string)
    requires Inv(s) && Admissible(s, op) && id in s.commands && !Terminal(s.commands[id])
    requires !EffectiveNow(s, op, id)
    ensures var c, d := s.commands[id], Step(s, op).commands[id];
            if Terminal(d) then d.status == Failed && d.failureReason == TIMED_OUT && d.ackedAt == c.ackedAt
            else Unanswered(c, d)
  {
    if op.Sweep? {
      assert id in op.batch ==> id in Due(s.commands, op.now);
    } else {
      NotItsOwnCall(s, op, id);
    }
  }

  lemma NotItsOwnCall(s: Store, op: Op, id: string)
    requires Inv(s) && Admissible(s, op) && id in s.commands && !op.Sweep?
    requires !EffectiveNow(s, op, id)
    ensures Step(s, op).commands[id] == s.commands[id]
  {
  }

  /** How an open command c has ended as d: as its effective acknowledgement left it; or without one,
      still open and unanswered, or timed out. */
  ghost predicate EndsBy(c: Command, answer: Option<Op>, d: Command) {
    match answer
    case Some(op) => op.Ack? && Terminal(d) && Answers(c, op, d)
    case None => if Terminal(d) then d.status == Failed && d.failureReason == TIMED_OUT && d.ackedAt == c.ackedAt
                 else Unanswered(c, d)
  }

  lemma EndsByStep(s: Store, op: Op, id: string, c: Command, answer: Option<Op>)
    requires Inv(s) && Admissible(s, op) && id in s.commands && EndsBy(c, answer, s.commands[id])
    ensures id in Step(s, op).commands
    ensures EndsBy(c, if EffectiveNow(s, op, id) then Some(op) else answer, Step(s, op).commands[id])
  {
    LaterAfterStep(s, op, id);
    if EffectiveNow(s, op, id) {
      EffectiveStep(s, op, id);
    } else if !Terminal(s.commands[id]) {
      OtherStep(s, op, id);
    }
  }

  /** The acknowledgement that took effect, if any did. */
  ghost function Answer(s: Store, ops: seq<Op>, id: string): Option<Op> {
    if ops == [] then None
    else
      var before := ops[..|ops| - 1];
      if EffectiveNow(Run(s, before), Last(ops), id) then Some(Last(ops)) else Answer(s, before, id)
  }

  lemma {:induction false} EndsByAnswer(s: Store, ops: seq<Op>, id: string)
    requires Inv(s) && AdmissibleRun(s, ops) && id in s.commands && !Terminal(s.commands[id])
    ensures id in Run(s, ops).commands && EndsBy(s.commands[id], Answer(s, ops, id), Run(s, ops).commands[id])
  {
    if ops != [] {
      var before := ops[..|ops| - 1];
      PrefixAdmissible(s, ops);
      RunKeeps(s, before);
      EndsByAnswer(s, before, id);
      EndsByStep(Run(s, before), Last(ops), id, s.commands[id], Answer(s, before, id));
    }
  }

  /** At most one acknowledgement takes effect, and it is the answer. */
  lemma {:induction false} AnswerTookEffect(s: Store, ops: seq<Op>, id: string, i: nat)
    requires Inv(s) && AdmissibleRun(s, ops) && id in s.commands && !Terminal(s.commands[id])
    requires i < |ops| && TakesEffect(s, ops, id, i)
    ensures Answer(s, ops, id) == Some(ops[i])
  {
    var before := ops[..|ops| - 1];
    PrefixAdmissible(s, ops);
    if i == |ops| - 1 {
      assert EffectiveNow(Run(s, before), Last(ops), id);
    } else {
      assert before[..i] == ops[..i] && before[i] == ops[i];
      AnswerTookEffect(s, before, id, i);
      EndsByAnswer(s, before, id);
    }
  }

  lemma {:induction false} AnswerIsSomewhere(s: Store, ops: seq<Op>, id: string) returns (i: nat)
    requires Answer(s, ops, id).Some?
    ensures i < |ops| && TakesEffect(s, ops, id, i) && Answer(s, ops, id) == Some(ops[i])
  {
    var before := ops[..|ops| - 1];
    if EffectiveNow(Run(s, before), Last(ops), id) {
      i := |ops| - 1;
    } else {
      i := AnswerIsSomewhere(s, before, id);
      assert before[..i] == ops[..i] && before[i] == ops[i];
    }
  }

  /** Over every run, an open command ends acked if and only if an acknowledgement that found it open
      reported success, and then carries that call's time and no reason for failure of its own. */
  lemma AckedIffSuccess(s: Store, ops: seq<Op>, id: string)
    requires Inv(s) && AdmissibleRun(s, ops) && id in s.commands && !Terminal(s.commands[id])
    ensures id in Run(s, ops).commands
    ensures Run(s, ops).commands[id].status == Acked
       <==> exists i :: 0 <= i < |ops| && TakesEffect(s, ops, id, i) && ops[i].ack.success
    ensures forall i :: 0 <= i < |ops| && TakesEffect(s, ops, id, i) ==>
                          Answers(s.commands[id], ops[i], Run(s, ops).commands[id])
  {
    EndsByAnswer(s, ops, id);
    forall i | 0 <= i < |ops| && TakesEffect(s, ops, id, i)
      ensures Answer(s, ops, id) == Some(ops[i])
    {
      AnswerTookEffect(s, ops, id, i);
    }
    if Answer(s, ops, id).Some? {
      var i := AnswerIsSomewhere(s, ops, id);
    }
  }

  // ----- what an enqueued command carries -----

  /** The command made for a request carries what the caller asked for: the name without the blanks
      around it, the caller's own key, budget and timeout where they are given and in range. */
  lemma CreatedCarriesRequest(s: Store, op: Op)
    requires op.Enqueue? && OutcomeOf(s, op).Created?
    ensures var c, q := OutcomeOf(s, op).command, op.input;
            && c.id == op.freshId && c.deviceId == q.deviceId && c.name == Strings.TrimSpace(q.name)
            && c.payload == q.payload
            && c.idempotencyKey == (if q.idempotencyKey == "" then op.freshKey else q.idempotencyKey)
            && c.maxRetries == (if 0 <= q.maxRetries <= 20 then q.maxRetries else 3)
            && c.timeout == (if q.timeout > 0 then q.timeout else 30_000_000_000)
            && c.status == Pending && c.retryCount == 0 && c.ackedAt == None && c.failureReason == ""
            && c.createdAt == c.updatedAt == op.now && c.expiresAt == op.now + c.timeout
            && |c.audit| == 1 && c.audit[0] == AuditEntry(op.now, Pending, "command enqueued", op.trace)
  {
  }

  /** A request is turned down, answered with the command that has its key, open or closed, or
      answered with a new one. */
  lemma OutcomeMeans(s: Store, op: Op)
    requires Indexed(s) && op.Enqueue? && op.freshKey != "" && (op.input.deviceId, op.freshKey) !in s.byIdempotency
    ensures var q, o := op.input, OutcomeOf(s, op);
            && (o.Rejected? <==> q.deviceId == "" || q.name == "")
            && (!o.Rejected? ==>
                  (o.Created? <==> forall id :: id in s.commands ==>
                     !(s.commands[id].deviceId == q.deviceId && s.commands[id].idempotencyKey == q.idempotencyKey)
                     || q.idempotencyKey == ""))
            && (o.Existing? || o.AlreadyUsed? ==>
                  o.command.id in s.commands && s.commands[o.command.id] == o.command
                  && (o.AlreadyUsed? <==> Terminal(o.command)))
  {
    var key := (op.input.deviceId, Completed(op.input, op.freshKey).idempotencyKey);
    if key in s.byIdempotency {
      var c := s.commands[s.byIdempotency[key]];
      assert KeyOf(c) == key;
    }
  }

  /** A pending command still has the deadline it was given. */
  ghost predicate OnDeadline(c: Command) { c.status == Pending ==> c.expiresAt == c.createdAt + c.timeout }

  lemma StepKeepsDeadline(s: Store, op: Op)
    requires Inv(s) && Admissible(s, op) && All(OnDeadline, s.commands)
    ensures All(OnDeadline, Step(s, op).commands)
  {
    forall id | id in Step(s, op).commands ensures OnDeadline(Step(s, op).commands[id]) {
      if id in s.commands {
        LaterAfterStep(s, op, id);
        PendingIsUntouched(s.commands[id], Step(s, op).commands[id]);
      } else {
        NewOnDeadline(s, op, id);
      }
    }
  }

  lemma PendingIsUntouched(c: Command, d: Command)
    requires Later(c, d) && OnDeadline(c)
    ensures OnDeadline(d)
  {
  }

  lemma NewOnDeadline(s: Store, op: Op, id: string)
    requires Inv(s) && id !in s.commands && id in Step(s, op).commands
    ensures OnDeadline(Step(s, op).commands[id])
  {
  }

  lemma {:induction false} RunKeepsDeadline(ops: seq<Op>)
    requires AdmissibleRun(EMPTY, ops)
    ensures Inv(Run(EMPTY, ops)) && All(OnDeadline, Run(EMPTY, ops).commands)
  {
    EmptyIsValid();
    RunKeeps(EMPTY, ops);
    if ops != [] {
      PrefixAdmissible(EMPTY, ops);
      RunKeepsDeadline(ops[..|ops| - 1]);
      StepKeepsDeadline(Run(EMPTY, ops[..|ops| - 1]), Last(ops));
    }
  }

  /** No command is timed out early: over every run, a sweep takes a command only once more than its
      timeout has passed since it was enqueued. */
  lemma NeverReapedEarly(ops: seq<Op>, sweep: Op, id: string)
    requires AdmissibleRun(EMPTY, ops) && sweep.Sweep? && Admissible(Run(EMPTY, ops), sweep) && id in sweep.batch
    ensures var c := Run(EMPTY, ops).commands;
            id in c && c[id].status == Pending && sweep.now > c[id].createdAt + c[id].timeout
  {
    RunKeepsDeadline(ops);
    assert id in Due(Run(EMPTY, ops).commands, sweep.now);
  }

  /** What the reaper writes down: a retry with a new deadline while there is budget, and the end of
      it after. */
  lemma ReapingIsRecorded(c: Command, now: Time, trace: string)
    requires WellFormed(c) && c.status == Pending
    ensures var d := Reaped(c, now, trace);
            && d.updatedAt == now && |d.audit| == |c.audit| + 1
            && (c.maxRetries > 0 ==>
                  d.status == Retrying && d.expiresAt == now + c.timeout && d.failureReason == c.failureReason
                  && Last(d.audit) == AuditEntry(now, Retrying, "retry 1", trace))
            && (c.maxRetries == 0 ==>
                  d.status == Failed && d.expiresAt == c.expiresAt
                  && d.failureReason == "command timed out after retries"
                  && Last(d.audit) == AuditEntry(now, Failed, "command timed out after retries", trace))
  {
    assert Digits(1) == "1";
    assert "retry " + "1" == "retry 1";
  }
}
