/** Firmware upgrade tasks and device receipts: the calls as atomic steps, and what runs keep. */
module FirmwareModel {
  import opened Results
  import opened Sequences

  type Time = int

  /** A transition may name any status, also one the platform does not know. */
  datatype Status = Draft | Scheduled | Running | Paused | Failed | Completed | Cancelled | Unknown(name: string)

  datatype Firmware = Firmware(id: string, productId: string, version: string, createdAt: Time, updatedAt: Time)

  datatype RolloutPolicy = RolloutPolicy(strategy: string, percentage: real, maxConcurrent: int, autoRollback: bool)

  function Normalized(r: RolloutPolicy): RolloutPolicy {
    r.(strategy := if r.strategy == "" then "percentage" else r.strategy,
       maxConcurrent := if r.maxConcurrent <= 0 then 1 else r.maxConcurrent,
       percentage := if r.percentage < 0.0 then 0.0 else if r.percentage > 100.0 then 100.0 else r.percentage)
  }

  datatype Task = Task(id: string, firmwareId: string, status: Status, rollout: RolloutPolicy, createdAt: Time,
                       updatedAt: Time, startedAt: Option<Time>, completedAt: Option<Time>)

  datatype Receipt = Receipt(id: string, taskId: string, deviceId: string, status: Status, attempt: nat,
                             message: string, createdAt: Time, updatedAt: Time)

  datatype Store = Store(firmwares: map<string, Firmware>, tasks: map<string, Task>, receipts: map<string, Receipt>)

  const EMPTY := Store(map[], map[], map[])

  // ----- the steps -----

  predicate Closed(status: Status) { status == Completed || status == Cancelled }

  function NewTask(id: string, firmwareId: string, rollout: RolloutPolicy, now: Time): Task {
    Task(id, firmwareId, Draft, Normalized(rollout), now, now, None, None)
  }

  /** A closed task stays as it is; any other takes any status.  Starting is stamped once. */
  function Transitioned(t: Task, target: Status, now: Time): Task {
    if Closed(t.status) then t
    else
      t.(status := target, updatedAt := now,
         startedAt := if target == Running && t.startedAt == None then Some(now) else t.startedAt,
         completedAt := if target == Completed then Some(now) else t.completedAt)
  }

  predicate Active(r: Receipt) { r.status == Running || r.status == Scheduled }

  function ActiveFor(receipts: map<string, Receipt>, deviceId: string): set<string> {
    set id | id in receipts && receipts[id].deviceId == deviceId && Active(receipts[id])
  }

  function NewReceipt(id: string, taskId: string, deviceId: string, message: string, now: Time): Receipt {
    Receipt(id, taskId, deviceId, Running, 1, message, now, now)
  }

  /** Failed receipts may still be completed, or fail again. */
  function Finished(r: Receipt, success: bool, message: string, now: Time): Receipt {
    if Closed(r.status) then r
    else r.(status := if success then Completed else Failed, message := message, updatedAt := now)
  }

  datatype Op =
    | CreateFirmware(productId: string, version: string, freshId: string)
    | CreateTask(firmwareId: string, rollout: RolloutPolicy, freshId: string)
    | TransitionTask(taskId: string, target: Status)
    | Receive(taskId: string, deviceId: string, message: string, freshId: string)
    | CompleteReceipt(receiptId: string, success: bool, message: string)

  /** The device may start: it is named, the task is running, and no upgrade of the device is. */
  predicate MayStart(s: Store, taskId: string, deviceId: string) {
    && taskId != "" && deviceId != "" && taskId in s.tasks && s.tasks[taskId].status == Running
    && ActiveFor(s.receipts, deviceId) == {}
  }

  function Step(s: Store, op: Op, now: Time): Store {
    match op
    case CreateFirmware(productId, version, id) =>
      if productId == "" || version == "" then s
      else s.(firmwares := s.firmwares[id := Firmware(id, productId, version, now, now)])
    case CreateTask(firmwareId, rollout, id) =>
      if firmwareId == "" || firmwareId !in s.firmwares then s
      else s.(tasks := s.tasks[id := NewTask(id, firmwareId, rollout, now)])
    case TransitionTask(taskId, target) =>
      if taskId !in s.tasks then s
      else s.(tasks := s.tasks[taskId := Transitioned(s.tasks[taskId], target, now)])
    case Receive(taskId, deviceId, message, id) =>
      if !MayStart(s, taskId, deviceId) then s
      else s.(receipts := s.receipts[id := NewReceipt(id, taskId, deviceId, message, now)])
    case CompleteReceipt(receiptId, success, message) =>
      if receiptId !in s.receipts then s
      else s.(receipts := s.receipts[receiptId := Finished(s.receipts[receiptId], success, message, now)])
  }

  /** Generated ids are new. */
  predicate FreshIds(s: Store, op: Op) {
    match op
    case CreateFirmware(_, _, id) => id != "" && id !in s.firmwares
    case CreateTask(_, _, id) => id != "" && id !in s.tasks
    case Receive(_, _, _, id) => id != "" && id !in s.receipts
    case _ => true
  }

  // ----- the invariant -----

  /** At most one upgrade of a device is under way, whatever the task. */
  ghost predicate OneActivePerDevice(receipts: map<string, Receipt>) {
    forall a, b ::
      a in receipts && b in receipts && Active(receipts[a]) && Active(receipts[b])
      && receipts[a].deviceId == receipts[b].deviceId
      ==> a == b
  }

  ghost predicate TaskOk(id: string, t: Task, clock: Time) {
    && t.id == id
    && (t.completedAt.Some? <==> t.status == Completed)
    && (t.status == Running ==> t.startedAt.Some?)
    && (t.startedAt.Some? ==> t.startedAt.value <= clock)
  }

  /** A receipt belongs to a task that was started no later than the receipt was created. */
  ghost predicate ReceiptOk(id: string, r: Receipt, tasks: map<string, Task>, clock: Time) {
    && id != "" && r.id == id
    && r.taskId in tasks && tasks[r.taskId].startedAt.Some? && tasks[r.taskId].startedAt.value <= r.createdAt <= clock
    && (r.status == Running || r.status == Completed || r.status == Failed)
  }

  ghost predicate TasksOk(tasks: map<string, Task>, clock: Time) {
    forall id :: id in tasks ==> TaskOk(id, tasks[id], clock)
  }

  ghost predicate ReceiptsOk(receipts: map<string, Receipt>, tasks: map<string, Task>, clock: Time) {
    forall id :: id in receipts ==> ReceiptOk(id, receipts[id], tasks, clock)
  }

  ghost predicate Inv(s: Store, clock: Time) {
    TasksOk(s.tasks, clock) && ReceiptsOk(s.receipts, s.tasks, clock) && OneActivePerDevice(s.receipts)
  }

  // ----- how tasks and receipts may change -----

  ghost predicate TaskLater(t: Task, u: Task) {
    && u.id == t.id && u.firmwareId == t.firmwareId && u.rollout == t.rollout && u.createdAt == t.createdAt
    && (t.startedAt.Some? ==> u.startedAt == t.startedAt)
    && (Closed(t.status) ==> u == t)
  }

  ghost predicate ReceiptLater(r: Receipt, q: Receipt) {
    && q.id == r.id && q.taskId == r.taskId && q.deviceId == r.deviceId && q.attempt == r.attempt
    && q.createdAt == r.createdAt
    && (Active(q) ==> q == r)
    && (Closed(r.status) ==> q == r)
  }

  ghost predicate Evolves(s: Store, u: Store) {
    TasksLater(s.tasks, u.tasks) && ReceiptsLater(s.receipts, u.receipts)
  }

  ghost predicate TasksLater(m: map<string, Task>, n: map<string, Task>) {
    forall id :: id in m ==> id in n && TaskLater(m[id], n[id])
  }

  ghost predicate ReceiptsLater(m: map<string, Receipt>, n: map<string, Receipt>) {
    forall id :: id in m ==> id in n && ReceiptLater(m[id], n[id])
  }

  lemma StartKeepsUnique(receipts: map<string, Receipt>, r: Receipt)
    requires OneActivePerDevice(receipts) && ActiveFor(receipts, r.deviceId) == {}
    ensures OneActivePerDevice(receipts[r.id := r])
  {
    forall id | id in receipts && receipts[id].deviceId == r.deviceId ensures !Active(receipts[id]) {
      assert id !in ActiveFor(receipts, r.deviceId);
    }
  }

  lemma FinishKeepsUnique(receipts: map<string, Receipt>, id: string, success: bool, message: string, now: Time)
    requires OneActivePerDevice(receipts) && id in receipts
    ensures OneActivePerDevice(receipts[id := Finished(receipts[id], success, message, now)])
  {
  }

  /** Time passing, and tasks moving on, keep what is already there. */
  lemma OkLater(tasks: map<string, Task>, receipts: map<string, Receipt>, clock: Time, tasks': map<string, Task>,
                now: Time)
    requires ReceiptsOk(receipts, tasks, clock) && TasksLater(tasks, tasks') && clock <= now
    ensures ReceiptsOk(receipts, tasks', now)
  {
    forall id | id in receipts ensures ReceiptOk(id, receipts[id], tasks', now) {
      assert ReceiptOk(id, receipts[id], tasks, clock);
      assert TaskLater(tasks[receipts[id].taskId], tasks'[receipts[id].taskId]);
    }
  }

  lemma SaveTask(tasks: map<string, Task>, t: Task, clock: Time, now: Time)
    requires TasksOk(tasks, clock) && clock <= now && TaskOk(t.id, t, now)
    requires t.id in tasks ==> TaskLater(tasks[t.id], t)
    ensures TasksOk(tasks[t.id := t], now) && TasksLater(tasks, tasks[t.id := t])
    ensures TasksOk(tasks, now) && TasksLater(tasks, tasks)
  {
    forall id | id in tasks ensures TaskOk(id, tasks[id], now) {
      assert TaskOk(id, tasks[id], clock);
    }
  }

  lemma SaveReceipt(receipts: map<string, Receipt>, tasks: map<string, Task>, r: Receipt, clock: Time, now: Time)
    requires ReceiptsOk(receipts, tasks, clock) && clock <= now && ReceiptOk(r.id, r, tasks, now)
    requires r.id in receipts ==> ReceiptLater(receipts[r.id], r)
    ensures ReceiptsOk(receipts[r.id := r], tasks, now) && ReceiptsLater(receipts, receipts[r.id := r])
  {
    forall id | id in receipts ensures ReceiptOk(id, receipts[id], tasks, now) {
      assert ReceiptOk(id, receipts[id], tasks, clock);
    }
  }

  lemma TaskStepKeeps(s: Store, op: Op, clock: Time, now: Time)
    requires Inv(s, clock) && FreshIds(s, op) && clock <= now && (op.CreateTask? || op.TransitionTask?)
    ensures Inv(Step(s, op, now), now) && Evolves(s, Step(s, op, now))
  {
    var u := Step(s, op, now);
    if op.CreateTask? {
      SaveTask(s.tasks, NewTask(op.freshId, op.firmwareId, op.rollout, now), clock, now);
    } else if op.taskId in s.tasks {
      assert TaskOk(op.taskId, s.tasks[op.taskId], clock);
      SaveTask(s.tasks, Transitioned(s.tasks[op.taskId], op.target, now), clock, now);
    }
    Unchanged(s, clock, now);
    OkLater(s.tasks, s.receipts, clock, u.tasks, now);
  }

  lemma Unchanged(s: Store, clock: Time, now: Time)
    requires Inv(s, clock) && clock <= now
    ensures Inv(s, now) && Evolves(s, s)
  {
    forall id | id in s.tasks ensures TaskOk(id, s.tasks[id], now) {
      assert TaskOk(id, s.tasks[id], clock);
    }
    OkLater(s.tasks, s.receipts, clock, s.tasks, now);
  }

  lemma ReceiveKeeps(s: Store, op: Op, clock: Time, now: Time)
    requires Inv(s, clock) && FreshIds(s, op) && clock <= now && op.Receive?
    ensures Inv(Step(s, op, now), now) && Evolves(s, Step(s, op, now))
  {
    Unchanged(s, clock, now);
    if MayStart(s, op.taskId, op.deviceId) {
      var r := NewReceipt(op.freshId, op.taskId, op.deviceId, op.message, now);
      assert TaskOk(op.taskId, s.tasks[op.taskId], clock);
      StartKeepsUnique(s.receipts, r);
      SaveReceipt(s.receipts, s.tasks, r, clock, now);
    }
  }

  lemma CompleteKeeps(s: Store, op: Op, clock: Time, now: Time)
    requires Inv(s, clock) && clock <= now && op.CompleteReceipt?
    ensures Inv(Step(s, op, now), now) && Evolves(s, Step(s, op, now))
  {
    Unchanged(s, clock, now);
    if op.receiptId in s.receipts {
      assert ReceiptOk(op.receiptId, s.receipts[op.receiptId], s.tasks, clock);
      FinishKeepsUnique(s.receipts, op.receiptId, op.success, op.message, now);
      SaveReceipt(s.receipts, s.tasks, Finished(s.receipts[op.receiptId], op.success, op.message, now), clock, now);
    }
  }

  lemma StepKeeps(s: Store, op: Op, clock: Time, now: Time)
    requires Inv(s, clock) && FreshIds(s, op) && clock <= now
    ensures Inv(Step(s, op, now), now) && Evolves(s, Step(s, op, now))
  {
    match op
    case CreateFirmware(_, _, _) => Unchanged(s, clock, now);
    case CreateTask(_, _, _) => TaskStepKeeps(s, op, clock, now);
    case TransitionTask(_, _) => TaskStepKeeps(s, op, clock, now);
    case Receive(_, _, _, _) => ReceiveKeeps(s, op, clock, now);
    case CompleteReceipt(_, _, _) => CompleteKeeps(s, op, clock, now);
  }

  lemma EvolvesTransitive(a: Store, b: Store, c: Store)
    requires Evolves(a, b) && Evolves(b, c)
    ensures Evolves(a, c)
  {
    forall id | id in a.tasks ensures id in c.tasks && TaskLater(a.tasks[id], c.tasks[id]) {
      assert TaskLater(a.tasks[id], b.tasks[id]) && TaskLater(b.tasks[id], c.tasks[id]);
    }
    forall id | id in a.receipts ensures id in c.receipts && ReceiptLater(a.receipts[id], c.receipts[id]) {
      assert ReceiptLater(a.receipts[id], b.receipts[id]) && ReceiptLater(b.receipts[id], c.receipts[id]);
    }
  }

  // ----- runs -----

  function Run(s: Store, ops: seq<(Op, Time)>): Store {
    if ops == [] then s else Step(Run(s, ops[..|ops| - 1]), Last(ops).0, Last(ops).1)
  }

  function Clock(start: Time, ops: seq<(Op, Time)>): Time { if ops == [] then start else Last(ops).1 }

  /** Generated ids are new and the clock does not run backwards. */
  ghost predicate Admissible(s: Store, start: Time, ops: seq<(Op, Time)>) {
    forall i :: 0 <= i < |ops| ==> FreshIds(Run(s, ops[..i]), ops[i].0) && Clock(start, ops[..i]) <= ops[i].1
  }

  lemma PrefixAdmissible(s: Store, start: Time, ops: seq<(Op, Time)>)
    requires ops != [] && Admissible(s, start, ops)
    ensures Admissible(s, start, ops[..|ops| - 1])
    ensures FreshIds(Run(s, ops[..|ops| - 1]), Last(ops).0) && Clock(start, ops[..|ops| - 1]) <= Last(ops).1
  {
    var before := ops[..|ops| - 1];
    assert forall i :: 0 <= i < |before| ==> before[..i] == ops[..i];
  }

  /** Over every run: one active upgrade per device across all tasks, receipts of started tasks
      only, completion stamped exactly on completed tasks; starts are stamped once, a receipt
      never returns to running, and closed tasks and receipts never change. */
  lemma {:induction false} RunKeeps(s: Store, start: Time, ops: seq<(Op, Time)>)
    requires Inv(s, start) && Admissible(s, start, ops)
    ensures Inv(Run(s, ops), Clock(start, ops)) && Evolves(s, Run(s, ops))
  {
    if ops != [] {
      var before := ops[..|ops| - 1];
      PrefixAdmissible(s, start, ops);
      RunKeeps(s, start, before);
      StepKeeps(Run(s, before), Last(ops).0, Clock(start, before), Last(ops).1);
      EvolvesTransitive(s, Run(s, before), Run(s, ops));
    }
  }

  /** In particular every run from the empty store. */
  lemma FromEmpty(start: Time, ops: seq<(Op, Time)>)
    requires Admissible(EMPTY, start, ops)
    ensures Inv(Run(EMPTY, ops), Clock(start, ops))
  {
    RunKeeps(EMPTY, start, ops);
  }

  /** So the order in which the receipt map is scanned does not matter: there is at most one
      active receipt to find. */
  lemma ActiveIsUnique(s: Store, clock: Time, deviceId: string)
    requires Inv(s, clock)
    ensures |ActiveFor(s.receipts, deviceId)| <= 1
  {
    var active := ActiveFor(s.receipts, deviceId);
    if active != {} {
      var a :| a in active;
      assert forall b :: b in active ==> b == a;
      assert active == {a};
    }
  }

  // ----- when the check and the save of a receipt are not one step -----

  /** A `Receive` that has passed its checks and has not yet saved its receipt. */
  datatype Ticket = Ticket(freshId: string, taskId: string, deviceId: string, message: string)

  ghost predicate CheckedIn(s: Store, tickets: seq<Ticket>) {
    && (forall t :: t in tickets ==> MayStart(s, t.taskId, t.deviceId) && t.freshId !in s.receipts)
    && DistinctIds(tickets)
  }

  /** All outstanding saves, in order. */
  function SaveAll(receipts: map<string, Receipt>, tickets: seq<Ticket>, now: Time): map<string, Receipt> {
    if tickets == [] then receipts
    else
      var t := Last(tickets);
      SaveAll(receipts, tickets[..|tickets| - 1], now)
      [t.freshId := NewReceipt(t.freshId, t.taskId, t.deviceId, t.message, now)]
  }

  ghost predicate DistinctIds(tickets: seq<Ticket>) {
    forall i, j :: 0 <= i < j < |tickets| ==> tickets[i].freshId != tickets[j].freshId
  }

  ghost predicate IdOfTicket(tickets: seq<Ticket>, id: string) { exists t :: t in tickets && t.freshId == id }

  /** The saves add the tickets' receipts and nothing else. */
  lemma {:induction false} SavedReceipts(receipts: map<string, Receipt>, tickets: seq<Ticket>, now: Time, id: string)
    requires DistinctIds(tickets) && forall t :: t in tickets ==> t.freshId !in receipts
    ensures id in SaveAll(receipts, tickets, now) <==> id in receipts || IdOfTicket(tickets, id)
    ensures id in receipts ==> SaveAll(receipts, tickets, now)[id] == receipts[id]
  {
    if tickets != [] {
      SplitLast(tickets);
      SavedReceipts(receipts, tickets[..|tickets| - 1], now, id);
    }
  }

  lemma {:induction false} SavedTicket(receipts: map<string, Receipt>, tickets: seq<Ticket>, now: Time, i: nat)
    requires DistinctIds(tickets) && i < |tickets|
    ensures var t := tickets[i];
            t.freshId in SaveAll(receipts, tickets, now)
            && SaveAll(receipts, tickets, now)[t.freshId] == NewReceipt(t.freshId, t.taskId, t.deviceId, t.message, now)
  {
    if i < |tickets| - 1 {
      SavedTicket(receipts, tickets[..|tickets| - 1], now, i);
    }
  }

  ghost predicate DistinctDevices(tickets: seq<Ticket>) {
    forall i, j :: 0 <= i < j < |tickets| ==> tickets[i].deviceId != tickets[j].deviceId
  }

  /** Nothing orders the check of a `Receive` before its save.  If several have passed their checks,
      their saves keep one active upgrade per device if and only if no two are for one device: the
      promise holds exactly as long as the caller serialises the receipts of a device. */
  lemma OverlapIsSafeIffDistinct(s: Store, clock: Time, tickets: seq<Ticket>, now: Time)
    requires Inv(s, clock) && CheckedIn(s, tickets)
    ensures OneActivePerDevice(SaveAll(s.receipts, tickets, now))
       <==> DistinctDevices(tickets)
  {
    var after := SaveAll(s.receipts, tickets, now);
    if OneActivePerDevice(after) {
      forall i, j | 0 <= i < j < |tickets| ensures tickets[i].deviceId != tickets[j].deviceId {
        SavedTicket(s.receipts, tickets, now, i);
        SavedTicket(s.receipts, tickets, now, j);
      }
    }
    if DistinctDevices(tickets) {
      forall a, b | a in after && b in after && Active(after[a]) && Active(after[b])
                    && after[a].deviceId == after[b].deviceId
        ensures a == b
      {
        SavedAreUnique(s, tickets, now, a, b);
      }
    }
  }

  lemma SavedAreUnique(s: Store, tickets: seq<Ticket>, now: Time, a: string, b: string)
    requires OneActivePerDevice(s.receipts) && CheckedIn(s, tickets) && DistinctDevices(tickets)
    requires var after := SaveAll(s.receipts, tickets, now);
             a in after && b in after && Active(after[a]) && Active(after[b]) && after[a].deviceId == after[b].deviceId
    ensures a == b
  {
    SavedReceipts(s.receipts, tickets, now, a);
    SavedReceipts(s.receipts, tickets, now, b);
    if a in s.receipts && b !in s.receipts {
      TicketDeviceIsFree(s, tickets, now, a, b);
    } else if b in s.receipts && a !in s.receipts {
      TicketDeviceIsFree(s, tickets, now, b, a);
    } else if a !in s.receipts {
      var i := TicketAt(tickets, a);
      var j := TicketAt(tickets, b);
      SavedTicket(s.receipts, tickets, now, i);
      SavedTicket(s.receipts, tickets, now, j);
    }
  }

  lemma TicketAt(tickets: seq<Ticket>, id: string) returns (i: nat)
    requires IdOfTicket(tickets, id)
    ensures i < |tickets| && tickets[i].freshId == id
  {
    var t :| t in tickets && t.freshId == id;
    i :| 0 <= i < |tickets| && tickets[i] == t;
  }

  lemma TicketDeviceIsFree(s: Store, tickets: seq<Ticket>, now: Time, a: string, b: string)
    requires CheckedIn(s, tickets) && a in s.receipts && Active(s.receipts[a]) && IdOfTicket(tickets, b)
    ensures b in SaveAll(s.receipts, tickets, now)
    ensures SaveAll(s.receipts, tickets, now)[b].deviceId != s.receipts[a].deviceId
  {
    var i := TicketAt(tickets, b);
    SavedTicket(s.receipts, tickets, now, i);
    assert tickets[i] in tickets;
    assert a !in ActiveFor(s.receipts, tickets[i].deviceId);
  }
}
