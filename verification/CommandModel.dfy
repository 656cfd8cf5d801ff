/** Commands, and what each call of the command service does to the store as one atomic step. */
module CommandModel {
  import opened Results
  import opened Sequences
  import opened TwinState
  import Strings

  type Time = int
  type Duration = int

  const SECOND: Duration := 1_000_000_000

  datatype Status = Pending | Acked | Failed | Expired | Retrying

  datatype AuditEntry = AuditEntry(at: Time, status: Status, message: string, traceId: string)

  datatype Command = Command(
    id: string, deviceId: string, name: string, payload: Fields, idempotencyKey: string, status: Status,
    retryCount: int, maxRetries: int, timeout: Duration, createdAt: Time, updatedAt: Time, expiresAt: Time,
    ackedAt: Option<Time>, failureReason: string, audit: seq<AuditEntry>)

  predicate Terminal(c: Command) { c.status == Acked || c.status == Failed || c.status == Expired }

  datatype EnqueueInput = EnqueueInput(deviceId: string, name: string, payload: Fields, idempotencyKey: string,
                                       maxRetries: int, timeout: Duration)

  datatype AckInput = AckInput(deviceId: string, commandId: string, success: bool, message: string)

  /** The two maps of the repository; the index is keyed by device and idempotency key. */
  datatype Store = Store(commands: map<string, Command>, byIdempotency: map<(string, string), string>)

  const EMPTY := Store(map[], map[])

  function KeyOf(c: Command): (string, string) { (c.deviceId, c.idempotencyKey) }

  function Saved(s: Store, c: Command): Store {
    Store(s.commands[c.id := c], s.byIdempotency[KeyOf(c) := c.id])
  }

  /** `GetByIdempotencyKey`: a missing index entry reads as the empty id. */
  function ByKey(s: Store, key: (string, string)): Option<Command> {
    var id := if key in s.byIdempotency then s.byIdempotency[key] else "";
    if id in s.commands then Some(s.commands[id]) else None
  }

  // ----- enqueue -----

  /** The defaults: a fresh key when none is given, at most 20 retries, 30 seconds. */
  function Completed(input: EnqueueInput, freshKey: string): EnqueueInput {
    input.(idempotencyKey := if input.idempotencyKey == "" then freshKey else input.idempotencyKey,
           maxRetries := if input.maxRetries < 0 || input.maxRetries > 20 then 3 else input.maxRetries,
           timeout := if input.timeout <= 0 then 30 * SECOND else input.timeout)
  }

  function NewCommand(input: EnqueueInput, id: string, now: Time, trace: string): Command {
    Command(id, input.deviceId, Strings.TrimSpace(input.name), input.payload, input.idempotencyKey, Pending,
            0, input.maxRetries, input.timeout, now, now, now + input.timeout, None, "",
            [AuditEntry(now, Pending, "command enqueued", trace)])
  }

  predicate Enqueuable(input: EnqueueInput) { input.deviceId != "" && input.name != "" }

  // ----- acknowledge -----

  predicate Acknowledgeable(s: Store, input: AckInput) {
    && input.deviceId != "" && input.commandId != "" && input.commandId in s.commands
    && s.commands[input.commandId].deviceId == input.deviceId
    && !Terminal(s.commands[input.commandId])
  }

  /** The default message is filled in before the failure branch looks at it, so a failure without
      a message is recorded with the reason "acknowledged". */
  function Acknowledged(c: Command, input: AckInput, now: Time, trace: string): Command {
    var message := if input.message == "" then "acknowledged" else input.message;
    var status := if input.success then Acked else Failed;
    c.(status := status, updatedAt := now, ackedAt := Some(now),
       failureReason := if input.success then c.failureReason else message,
       audit := c.audit + [AuditEntry(now, status, message, trace)])
  }

  // ----- reap -----

  function Digits(n: nat): string {
    if n < 10 then [('0' as int + n) as char] else Digits(n / 10) + [('0' as int + n % 10) as char]
  }

  const TIMED_OUT := "command timed out after retries"

  /** A due command goes back to the device while its budget lasts, and fails after. */
  function Reaped(c: Command, now: Time, trace: string): Command
    requires c.retryCount >= 0
  {
    if c.retryCount < c.maxRetries then
      c.(retryCount := c.retryCount + 1, status := Retrying, expiresAt := now + c.timeout, updatedAt := now,
         audit := c.audit + [AuditEntry(now, Retrying, "retry " + Digits(c.retryCount + 1), trace)])
    else
      c.(status := Failed, failureReason := TIMED_OUT, updatedAt := now,
         audit := c.audit + [AuditEntry(now, Failed, TIMED_OUT, trace)])
  }

  predicate DueAt(c: Command, now: Time) { c.status == Pending && c.expiresAt < now }

  /** What `Expired` looks for: pending only, so a retrying command is never due again. */
  function Due(commands: map<string, Command>, now: Time): set<string> {
    set id | id in commands && DueAt(commands[id], now)
  }

  const SWEEP_LIMIT: nat := 100

  /** A sweep takes the due commands that expired first, as many as the limit allows. */
  ghost predicate IsBatch(commands: map<string, Command>, now: Time, limit: nat, batch: set<string>) {
    && batch <= Due(commands, now)
    && |batch| == Min(limit, |Due(commands, now)|)
    && forall a, b :: a in batch && b in Due(commands, now) - batch ==> commands[a].expiresAt <= commands[b].expiresAt
  }

  function Swept(commands: map<string, Command>, now: Time, trace: string, batch: set<string>): map<string, Command> {
    map id | id in commands ::
      if id in batch && commands[id].retryCount >= 0 then Reaped(commands[id], now, trace) else commands[id]
  }

  // ----- steps and runs -----

  /** One call, with the ids the generator hands out and the clock it reads. */
  datatype Op =
    | Enqueue(input: EnqueueInput, freshKey: string, freshId: string, now: Time, trace: string)
    | Ack(ack: AckInput, now: Time, trace: string)
    | Sweep(now: Time, trace: string, batch: set<string>)

  /** Generated ids are new, and a sweep takes a batch it is allowed to take. */
  ghost predicate Admissible(s: Store, op: Op) {
    match op
    case Enqueue(input, freshKey, freshId, _, _) =>
      freshId != "" && freshId !in s.commands
      && freshKey != "" && (input.deviceId, freshKey) !in s.byIdempotency
    case Ack(_, _, _) => true
    case Sweep(now, _, batch) => IsBatch(s.commands, now, SWEEP_LIMIT, batch)
  }

  datatype Outcome = Created(command: Command) | Existing(command: Command) | AlreadyUsed(command: Command) | Rejected

  function EnqueueOutcome(s: Store, input: EnqueueInput, freshKey: string, freshId: string, now: Time, trace: string)
    : Outcome
  {
    var full := Completed(input, freshKey);
    if !Enqueuable(input) then Rejected
    else
      match ByKey(s, (full.deviceId, full.idempotencyKey))
      case Some(c) => if Terminal(c) then AlreadyUsed(c) else Existing(c)
      case None => Created(NewCommand(full, freshId, now, trace))
  }

  function Step(s: Store, op: Op): Store {
    match op
    case Enqueue(input, freshKey, freshId, now, trace) =>
      var outcome := EnqueueOutcome(s, input, freshKey, freshId, now, trace);
      if outcome.Created? then Saved(s, outcome.command) else s
    case Ack(ack, now, trace) =>
      if Acknowledgeable(s, ack) then Saved(s, Acknowledged(s.commands[ack.commandId], ack, now, trace)) else s
    case Sweep(now, trace, batch) => s.(commands := Swept(s.commands, now, trace, batch))
  }

  function Run(s: Store, ops: seq<Op>): Store {
    if ops == [] then s else Step(Run(s, ops[..|ops| - 1]), Last(ops))
  }

  ghost predicate AdmissibleRun(s: Store, ops: seq<Op>) {
    forall i :: 0 <= i < |ops| ==> Admissible(Run(s, ops[..i]), ops[i])
  }
}
