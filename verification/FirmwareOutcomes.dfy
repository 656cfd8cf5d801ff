/** How upgrade tasks and device receipts end, in terms of the calls that were made for them. */
module FirmwareOutcomes {
  import opened Results
  import opened Sequences
  import opened FirmwareModel

  // ----- receipts -----

  datatype Report = Report(success: bool, message: string, at: Time)

  /** The reports on one receipt, in order. */
  function Reports(ops: seq<(Op, Time)>, id: string): seq<Report> {
    if ops == [] then []
    else
      var before, op, at := Reports(ops[..|ops| - 1], id), Last(ops).0, Last(ops).1;
      if op.CompleteReceipt? && op.receiptId == id then before + [Report(op.success, op.message, at)] else before
  }

  /** Up to and with the first success; what is reported later has no effect. */
  function UpToSuccess(reports: seq<Report>): seq<Report> {
    if reports == [] then []
    else
      var before := UpToSuccess(reports[..|reports| - 1]);
      if before != [] && Last(before).success then before else before + [Last(reports)]
  }

  /** The receipt after these reports: as it was if there were none, otherwise as the latest that had
      an effect says. */
  ghost predicate Reported(r: Receipt, reports: seq<Report>, q: Receipt) {
    if reports == [] then q == r
    else
      var report := Last(reports);
      q.status == (if report.success then Completed else Failed) && q.message == report.message
      && q.updatedAt == report.at
  }

  /** A receipt as `Receive` makes it, or failed since. */
  predicate Unfinished(r: Receipt) { r.status == Running || r.status == Failed }

  lemma ReportsSnoc(ops: seq<(Op, Time)>, id: string)
    requires ops != []
    ensures var before, op := Reports(ops[..|ops| - 1], id), Last(ops).0;
            UpToSuccess(Reports(ops, id)) ==
            if op.CompleteReceipt? && op.receiptId == id
               && (UpToSuccess(before) == [] || !Last(UpToSuccess(before)).success)
            then UpToSuccess(before) + [Report(op.success, op.message, Last(ops).1)]
            else UpToSuccess(before)
  {
    var before, op := Reports(ops[..|ops| - 1], id), Last(ops).0;
    if op.CompleteReceipt? && op.receiptId == id {
      var report := Report(op.success, op.message, Last(ops).1);
      assert (before + [report])[..|before|] == before;
    }
  }

  lemma OtherReceiptCall(s: Store, op: Op, now: Time, id: string)
    requires id in s.receipts && FreshIds(s, op) && !(op.CompleteReceipt? && op.receiptId == id)
    ensures id in Step(s, op, now).receipts && Step(s, op, now).receipts[id] == s.receipts[id]
  {
  }

  lemma ReportedSnoc(r: Receipt, reports: seq<Report>, q: Receipt, op: Op, at: Time)
    requires Unfinished(r) && Reported(r, reports, q) && op.CompleteReceipt?
    ensures Reported(r, if reports != [] && Last(reports).success then reports
                        else reports + [Report(op.success, op.message, at)],
                     Finished(q, op.success, op.message, at))
  {
  }

  /** Over every run, a receipt's status, message and time are those of the latest report that had
      an effect, a success ending all. */
  lemma {:induction false} ReceiptFollowsReports(s: Store, start: Time, ops: seq<(Op, Time)>, id: string)
    requires Admissible(s, start, ops) && id in s.receipts && Unfinished(s.receipts[id])
    ensures id in Run(s, ops).receipts
    ensures Reported(s.receipts[id], UpToSuccess(Reports(ops, id)), Run(s, ops).receipts[id])
  {
    if ops != [] {
      var before, op, at := ops[..|ops| - 1], Last(ops).0, Last(ops).1;
      PrefixAdmissible(s, start, ops);
      ReceiptFollowsReports(s, start, before, id);
      ReportsSnoc(ops, id);
      if op.CompleteReceipt? && op.receiptId == id {
        ReportedSnoc(s.receipts[id], UpToSuccess(Reports(before, id)), Run(s, before).receipts[id], op, at);
      } else {
        OtherReceiptCall(Run(s, before), op, at, id);
      }
    }
  }

  ghost predicate SomeReport(ops: seq<(Op, Time)>, id: string, success: bool) {
    exists o :: o in ops && o.0.CompleteReceipt? && o.0.receiptId == id && o.0.success == success
  }

  lemma {:induction false} LatestTells(ops: seq<(Op, Time)>, id: string)
    ensures var reports := UpToSuccess(Reports(ops, id));
            && (reports == [] <==> !SomeReport(ops, id, true) && !SomeReport(ops, id, false))
            && (reports != [] ==> (Last(reports).success <==> SomeReport(ops, id, true)))
  {
    if ops != [] {
      LatestTells(ops[..|ops| - 1], id);
      ReportsSnoc(ops, id);
      SomeReportSnoc(ops, id, true);
      SomeReportSnoc(ops, id, false);
    }
  }

  lemma SomeReportSnoc(ops: seq<(Op, Time)>, id: string, success: bool)
    requires ops != []
    ensures SomeReport(ops, id, success) <==>
            SomeReport(ops[..|ops| - 1], id, success)
            || (Last(ops).0.CompleteReceipt? && Last(ops).0.receiptId == id && Last(ops).0.success == success)
  {
    SplitLast(ops);
    if SomeReport(ops[..|ops| - 1], id, success) {
      var o :| o in ops[..|ops| - 1] && o.0.CompleteReceipt? && o.0.receiptId == id && o.0.success == success;
      assert o in ops;
    }
  }

  /** Over every run, an unfinished receipt ends completed if and only if some report on it is a
      success, failed if and only if none is and some is a failure or it had failed before, and
      running if and only if it was running and there is no report. */
  lemma CompletedIffSuccess(s: Store, start: Time, ops: seq<(Op, Time)>, id: string)
    requires Admissible(s, start, ops) && id in s.receipts && Unfinished(s.receipts[id])
    ensures id in Run(s, ops).receipts
    ensures var r, q := s.receipts[id], Run(s, ops).receipts[id];
            && (q.status == Completed <==> SomeReport(ops, id, true))
            && (q.status == Failed <==>
                  !SomeReport(ops, id, true) && (SomeReport(ops, id, false) || r.status == Failed))
            && (q.status == Running <==>
                  !SomeReport(ops, id, true) && !SomeReport(ops, id, false) && r.status == Running)
  {
    ReceiptFollowsReports(s, start, ops, id);
    LatestTells(ops, id);
  }

  // ----- tasks -----

  datatype Transition = Transition(target: Status, at: Time)

  function Transitions(ops: seq<(Op, Time)>, id: string): seq<Transition> {
    if ops == [] then []
    else
      var before, op, at := Transitions(ops[..|ops| - 1], id), Last(ops).0, Last(ops).1;
      if op.TransitionTask? && op.taskId == id then before + [Transition(op.target, at)] else before
  }

  /** Up to and with the first that closes the task. */
  function UpToClosing(ts: seq<Transition>): seq<Transition> {
    if ts == [] then []
    else
      var before := UpToClosing(ts[..|ts| - 1]);
      if before != [] && (Last(before).target == Completed || Last(before).target == Cancelled) then before
      else before + [Last(ts)]
  }

  /** When the task was first set running, if it was. */
  function FirstStart(ts: seq<Transition>): Option<Time> {
    if ts == [] then None
    else
      var before := FirstStart(ts[..|ts| - 1]);
      if before.Some? then before else if Last(ts).target == Running then Some(Last(ts).at) else None
  }

  /** The open task t after these transitions. */
  ghost predicate Moved(t: Task, ts: seq<Transition>, u: Task) {
    && u.id == t.id && u.firmwareId == t.firmwareId && u.rollout == t.rollout && u.createdAt == t.createdAt
    && u.startedAt == (if t.startedAt.Some? then t.startedAt else FirstStart(ts))
    && if ts == [] then u == t
       else u.status == Last(ts).target && u.updatedAt == Last(ts).at
            && u.completedAt == if Last(ts).target == Completed then Some(Last(ts).at) else t.completedAt
  }

  lemma TransitionsSnoc(ops: seq<(Op, Time)>, id: string)
    requires ops != []
    ensures var before, op := UpToClosing(Transitions(ops[..|ops| - 1], id)), Last(ops).0;
            UpToClosing(Transitions(ops, id)) ==
            if op.TransitionTask? && op.taskId == id
               && (before == [] || !(Last(before).target == Completed || Last(before).target == Cancelled))
            then before + [Transition(op.target, Last(ops).1)]
            else before
  {
    var before, op := Transitions(ops[..|ops| - 1], id), Last(ops).0;
    if op.TransitionTask? && op.taskId == id {
      assert (before + [Transition(op.target, Last(ops).1)])[..|before|] == before;
    }
  }

  lemma MovedSnoc(t: Task, ts: seq<Transition>, u: Task, target: Status, now: Time)
    requires Moved(t, ts, u) && u.status != Completed && u.status != Cancelled
    requires ts != [] ==> Last(ts).target != Completed
    ensures Moved(t, ts + [Transition(target, now)], Transitioned(u, target, now))
  {
    assert (ts + [Transition(target, now)])[..|ts|] == ts;
  }

  lemma OtherTaskCall(s: Store, op: Op, now: Time, id: string)
    requires id in s.tasks && FreshIds(s, op) && !(op.TransitionTask? && op.taskId == id)
    ensures id in Step(s, op, now).tasks && Step(s, op, now).tasks[id] == s.tasks[id]
  {
  }

  /** Over every run, an open task has the status it was last asked to take, until one closes it; it
      is stamped as started by the first request to run, and as completed by the one to complete. */
  lemma {:induction false} TaskFollowsTransitions(s: Store, start: Time, ops: seq<(Op, Time)>, id: string)
    requires Admissible(s, start, ops) && id in s.tasks
    requires s.tasks[id].status != Completed && s.tasks[id].status != Cancelled
    ensures id in Run(s, ops).tasks
    ensures Moved(s.tasks[id], UpToClosing(Transitions(ops, id)), Run(s, ops).tasks[id])
  {
    if ops != [] {
      var before, op, at := ops[..|ops| - 1], Last(ops).0, Last(ops).1;
      PrefixAdmissible(s, start, ops);
      TaskFollowsTransitions(s, start, before, id);
      TransitionsSnoc(ops, id);
      var u, ts := Run(s, before).tasks[id], UpToClosing(Transitions(before, id));
      if !(op.TransitionTask? && op.taskId == id) {
        OtherTaskCall(Run(s, before), op, at, id);
      } else if u.status != Completed && u.status != Cancelled {
        MovedSnoc(s.tasks[id], ts, u, op.target, at);
      }
    }
  }

  // ----- what is created -----

  /** A task starts as a draft of the requested rollout, brought into range. */
  lemma NewTaskIsDraft(id: string, firmwareId: string, rollout: RolloutPolicy, now: Time)
    ensures var t := NewTask(id, firmwareId, rollout, now);
            && t.id == id && t.firmwareId == firmwareId && t.status == Draft && t.createdAt == t.updatedAt == now
            && t.startedAt == None && t.completedAt == None
            && t.rollout.autoRollback == rollout.autoRollback
            && 0.0 <= t.rollout.percentage <= 100.0 && t.rollout.maxConcurrent >= 1 && t.rollout.strategy != ""
            && (0.0 <= rollout.percentage <= 100.0 ==> t.rollout.percentage == rollout.percentage)
            && (rollout.percentage < 0.0 ==> t.rollout.percentage == 0.0)
            && (rollout.percentage > 100.0 ==> t.rollout.percentage == 100.0)
            && t.rollout.maxConcurrent == (if rollout.maxConcurrent >= 1 then rollout.maxConcurrent else 1)
            && t.rollout.strategy == (if rollout.strategy == "" then "percentage" else rollout.strategy)
  {
    assert |"percentage"| > 0;
  }

  /** A device that may start gets a running receipt of the task it asked for, and only then. */
  lemma ReceiptIsRunning(s: Store, op: Op, now: Time)
    requires op.Receive? && FreshIds(s, op)
    ensures var u := Step(s, op, now);
            && (op.freshId in u.receipts <==>
                  op.taskId != "" && op.deviceId != "" && op.taskId in s.tasks && s.tasks[op.taskId].status == Running
                  && forall id :: id in s.receipts ==>
                       !(s.receipts[id].deviceId == op.deviceId
                         && (s.receipts[id].status == Running || s.receipts[id].status == Scheduled)))
            && (op.freshId in u.receipts ==>
                  u.receipts[op.freshId]
                  == Receipt(op.freshId, op.taskId, op.deviceId, Running, 1, op.message, now, now))
  {
    forall id ensures id in ActiveFor(s.receipts, op.deviceId) <==>
                        id in s.receipts && s.receipts[id].deviceId == op.deviceId
                        && (s.receipts[id].status == Running || s.receipts[id].status == Scheduled)
    {
    }
    if ActiveFor(s.receipts, op.deviceId) != {} {
      var id := SomeMember(ActiveFor(s.receipts, op.deviceId));
    }
  }
}
