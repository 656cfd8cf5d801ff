/** The firmware service and its in-memory repository. */
module FirmwareService {
  import opened Results
  import opened FirmwareModel

  class Repository {
    var firmwares: map<string, Firmware>
    var tasks: map<string, Task>
    var receipts: map<string, Receipt>

    ghost function Contents(): Store
      reads this
    {
      Store(firmwares, tasks, receipts)
    }

    constructor ()
      ensures Contents() == EMPTY
    {
      firmwares, tasks, receipts := map[], map[], map[];
    }

    method SaveFirmware(firmware: Firmware)
      modifies this
      ensures Contents() == old(Contents()).(firmwares := old(firmwares)[firmware.id := firmware])
    {
      firmwares := firmwares[firmware.id := firmware];
    }

    method SaveTask(task: Task)
      modifies this
      ensures Contents() == old(Contents()).(tasks := old(tasks)[task.id := task])
    {
      tasks := tasks[task.id := task];
    }

    method GetTask(id: string) returns (r: Result<Task>)
      ensures r == if id in tasks then Ok(tasks[id]) else Err(NotFound)
    {
      if id !in tasks {
        return Err(NotFound);
      }
      r := Ok(tasks[id]);
    }

    method SaveReceipt(receipt: Receipt)
      modifies this
      ensures Contents() == old(Contents()).(receipts := old(receipts)[receipt.id := receipt])
    {
      receipts := receipts[receipt.id := receipt];
    }

    method GetReceipt(id: string) returns (r: Result<Receipt>)
      ensures r == if id in receipts then Ok(receipts[id]) else Err(NotFound)
    {
      if id !in receipts {
        return Err(NotFound);
      }
      r := Ok(receipts[id]);
    }

    /** Scans the map in whatever order it yields and answers with some active receipt, if any. */
    method ActiveReceiptForDevice(deviceId: string) returns (r: Result<Receipt>)
      ensures r.Ok? <==> ActiveFor(receipts, deviceId) != {}
      ensures r.Ok? ==> exists id :: id in ActiveFor(receipts, deviceId) && r.value == receipts[id]
    {
      var todo := receipts.Keys;
      while todo != {}
        invariant todo <= receipts.Keys && ActiveFor(receipts, deviceId) <= todo
      {
        var id :| id in todo;
        var receipt := receipts[id];
        if receipt.deviceId == deviceId && (receipt.status == Running || receipt.status == Scheduled) {
          assert id in ActiveFor(receipts, deviceId);
          return Ok(receipt);
        }
        todo := todo - {id};
      }
      r := Err(NotFound);
    }
  }

  class Service {
    const repo: Repository

    constructor (repo: Repository)
      ensures this.repo == repo
    {
      this.repo := repo;
    }

    /** The invariant, with the latest clock reading. */
    ghost predicate Valid(clock: Time)
      reads repo
    {
      Inv(repo.Contents(), clock)
    }

    method CreateFirmware(productId: string, version: string, freshId: string, now: Time, ghost clock: Time)
      returns (r: Result<Firmware>)
      requires Valid(clock) && clock <= now && FreshIds(repo.Contents(), Op.CreateFirmware(productId, version, freshId))
      modifies repo
      ensures Valid(now)
      ensures repo.Contents() == Step(old(repo.Contents()), Op.CreateFirmware(productId, version, freshId), now)
      ensures r.Err? <==> productId == "" || version == ""
      ensures r.Ok? ==> freshId in repo.firmwares && r.value == repo.firmwares[freshId]
      ensures r.Ok? ==> r.value.productId == productId && r.value.version == version && r.value.createdAt == now
    {
      StepKeeps(repo.Contents(), Op.CreateFirmware(productId, version, freshId), clock, now);
      if productId == "" || version == "" {
        return Err(Invalid);
      }
      var firmware := Firmware(freshId, productId, version, now, now);
      repo.SaveFirmware(firmware);
      r := Ok(firmware);
    }

    method CreateTask(firmwareId: string, rollout: RolloutPolicy, freshId: string, now: Time, ghost clock: Time)
      returns (r: Result<Task>)
      requires Valid(clock) && clock <= now && FreshIds(repo.Contents(), Op.CreateTask(firmwareId, rollout, freshId))
      modifies repo
      ensures Valid(now)
      ensures repo.Contents() == Step(old(repo.Contents()), Op.CreateTask(firmwareId, rollout, freshId), now)
      ensures r.Ok? <==> firmwareId != "" && firmwareId in repo.firmwares
      ensures r.Ok? ==> freshId in repo.tasks && r.value == repo.tasks[freshId]
      ensures r.Err? ==> r.kind == if firmwareId == "" then Invalid else NotFound
    {
      StepKeeps(repo.Contents(), Op.CreateTask(firmwareId, rollout, freshId), clock, now);
      if firmwareId == "" {
        return Err(Invalid);
      }
      if firmwareId !in repo.firmwares {
        return Err(NotFound);
      }
      var task := Task(freshId, firmwareId, Draft, Normalized(rollout), now, now, None, None);
      repo.SaveTask(task);
      r := Ok(task);
    }

    method TransitionTask(taskId: string, target: Status, now: Time, ghost clock: Time) returns (r: Result<Task>)
      requires Valid(clock) && clock <= now
      modifies repo
      ensures Valid(now) && repo.Contents() == Step(old(repo.Contents()), Op.TransitionTask(taskId, target), now)
      ensures r == if taskId in repo.tasks then Ok(repo.tasks[taskId]) else Err(NotFound)
      ensures r.Ok? ==> r.value.status == if Closed(old(repo.tasks)[taskId].status) then old(repo.tasks)[taskId].status
                                          else target
    {
      StepKeeps(repo.Contents(), Op.TransitionTask(taskId, target), clock, now);
      var found := repo.GetTask(taskId);
      if found.Err? {
        return Err(NotFound);
      }
      var task := found.value;
      assert TaskOk(taskId, task, clock);
      if task.status == Completed || task.status == Cancelled {
        assert repo.tasks == repo.tasks[taskId := task];
        return Ok(task);
      }
      task := task.(status := target, updatedAt := now);
      if target == Running && task.startedAt == None {
        task := task.(startedAt := Some(now));
      }
      if target == Completed {
        task := task.(completedAt := Some(now));
      }
      repo.SaveTask(task);
      r := Ok(task);
    }

    /** A device with an upgrade under way is answered with that receipt, even if it belongs to
        another task; otherwise it gets a new one. */
    method Receive(taskId: string, deviceId: string, message: string, freshId: string, now: Time, ghost clock: Time)
      returns (r: Result<Receipt>)
      requires Valid(clock) && clock <= now && FreshIds(repo.Contents(), Op.Receive(taskId, deviceId, message, freshId))
      modifies repo
      ensures Valid(now)
      ensures repo.Contents() == Step(old(repo.Contents()), Op.Receive(taskId, deviceId, message, freshId), now)
      ensures r.Ok? <==> taskId != "" && deviceId != "" && taskId in repo.tasks && repo.tasks[taskId].status == Running
      ensures r.Err? ==> r.kind == if taskId == "" || deviceId == "" then Invalid
                                   else if taskId !in repo.tasks then NotFound else Conflict
      ensures r.Ok? ==> ActiveFor(repo.receipts, deviceId) == {r.value.id} && repo.receipts[r.value.id] == r.value
    {
      ghost var before := repo.Contents();
      StepKeeps(before, Op.Receive(taskId, deviceId, message, freshId), clock, now);
      if taskId == "" || deviceId == "" {
        return Err(Invalid);
      }
      var found := repo.GetTask(taskId);
      if found.Err? {
        return Err(NotFound);
      }
      if found.value.status != Running {
        return Err(Conflict);
      }
      var active := repo.ActiveReceiptForDevice(deviceId);
      if active.Ok? {
        OnlyActive(before, clock, deviceId, active.value);
        if active.value.id != "" {
          return Ok(active.value);
        }
      }
      var receipt := Receipt(freshId, taskId, deviceId, Running, 1, message, now, now);
      repo.SaveReceipt(receipt);
      NewActive(before, receipt);
      r := Ok(receipt);
    }

    /** `rollback` says whether the event asking for a rollback is published. */
    method CompleteReceipt(receiptId: string, success: bool, message: string, now: Time, ghost clock: Time)
      returns (r: Result<Receipt>, rollback: bool)
      requires Valid(clock) && clock <= now
      modifies repo
      ensures Valid(now)
      ensures repo.Contents() == Step(old(repo.Contents()), Op.CompleteReceipt(receiptId, success, message), now)
      ensures r == if receiptId in repo.receipts then Ok(repo.receipts[receiptId]) else Err(NotFound)
      ensures r.Ok? && !Closed(old(repo.receipts)[receiptId].status) ==>
                r.value.status == (if success then Completed else Failed) && r.value.message == message
      ensures rollback <==> receiptId in old(repo.receipts) && !Closed(old(repo.receipts)[receiptId].status) && !success
                            && repo.tasks[repo.receipts[receiptId].taskId].rollout.autoRollback
    {
      rollback := false;
      StepKeeps(repo.Contents(), Op.CompleteReceipt(receiptId, success, message), clock, now);
      var found := repo.GetReceipt(receiptId);
      if found.Err? {
        return Err(NotFound), false;
      }
      var receipt := found.value;
      assert ReceiptOk(receiptId, receipt, repo.tasks, clock);
      if receipt.status == Completed || receipt.status == Cancelled {
        assert repo.receipts == repo.receipts[receiptId := receipt];
        return Ok(receipt), false;
      }
      if success {
        receipt := receipt.(status := Completed);
      } else {
        receipt := receipt.(status := Failed);
        var task := repo.GetTask(receipt.taskId);
        rollback := task.Ok? && task.value.rollout.autoRollback;
      }
      receipt := receipt.(message := message, updatedAt := now);
      repo.SaveReceipt(receipt);
      r := Ok(receipt);
    }
  }

  lemma OnlyActive(s: Store, clock: Time, deviceId: string, r: Receipt)
    requires Inv(s, clock) && exists id :: id in ActiveFor(s.receipts, deviceId) && r == s.receipts[id]
    ensures r.id != "" && ActiveFor(s.receipts, deviceId) == {r.id} && s.receipts[r.id] == r
  {
    var id :| id in ActiveFor(s.receipts, deviceId) && r == s.receipts[id];
    assert ReceiptOk(id, r, s.tasks, clock);
    forall b | b in ActiveFor(s.receipts, deviceId) ensures b == id {
    }
  }

  lemma NewActive(s: Store, r: Receipt)
    requires Active(r) && ActiveFor(s.receipts, r.deviceId) == {}
    ensures ActiveFor(s.receipts[r.id := r], r.deviceId) == {r.id}
  {
    forall id | id in s.receipts && id != r.id ensures id !in ActiveFor(s.receipts[r.id := r], r.deviceId) {
      assert id !in ActiveFor(s.receipts, r.deviceId);
    }
  }
}
