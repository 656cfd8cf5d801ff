/** The command service and its in-memory repository. */
module CommandService {
  import opened Results
  import opened Sequences
  import opened Sorting
  import opened CommandModel
  import opened CommandInvariants

  predicate ExpiresFirst(a: Command, b: Command) { a.expiresAt < b.expiresAt }
  predicate CreatedFirst(a: Command, b: Command) { a.createdAt < b.createdAt }

  /** These commands, each once, as they are stored. */
  ghost predicate ListsExactly(items: seq<Command>, commands: map<string, Command>, ids: set<string>) {
    && ids <= commands.Keys
    && (forall c :: c in items ==> c.id in ids && c == commands[c.id])
    && (forall i, j :: 0 <= i < j < |items| ==> items[i].id != items[j].id)
    && (forall id :: id in ids ==> commands[id] in items && commands[id].id == id)
  }

  /** The first of the matching commands in the given order, at most `limit`: nothing left out
      comes before anything listed. */
  ghost predicate ListsFirst(items: seq<Command>, commands: map<string, Command>, matching: set<string>,
                             less: (Command, Command) -> bool, limit: nat) {
    && ListsExactly(items, commands, Ids(items)) && Sorted(items, less)
    && Ids(items) <= matching <= commands.Keys && |Ids(items)| == |items| == Min(limit, |matching|)
    && forall a, b :: a in Ids(items) && b in matching - Ids(items) ==> !less(commands[b], commands[a])
  }

  function Ids(items: seq<Command>): set<string> { set c | c in items :: c.id }

  class Repository {
    var commands: map<string, Command>
    var byIdempotency: map<(string, string), string>

    ghost function Contents(): Store
      reads this
    {
      Store(commands, byIdempotency)
    }

    constructor ()
      ensures Contents() == EMPTY
    {
      commands, byIdempotency := map[], map[];
    }

    method Save(command: Command)
      modifies this
      ensures Contents() == Saved(old(Contents()), command)
    {
      commands := commands[command.id := command];
      byIdempotency := byIdempotency[(command.deviceId, command.idempotencyKey) := command.id];
    }

    method Get(id: string) returns (r: Result<Command>)
      ensures r == if id in commands then Ok(commands[id]) else Err(NotFound)
    {
      if id !in commands {
        return Err(NotFound);
      }
      r := Ok(commands[id]);
    }

    method GetByIdempotencyKey(deviceId: string, key: string) returns (r: Result<Command>)
      ensures r == match ByKey(Contents(), (deviceId, key)) case Some(c) => Ok(c) case None => Err(NotFound)
    {
      var id := if (deviceId, key) in byIdempotency then byIdempotency[(deviceId, key)] else "";
      if id !in commands {
        return Err(NotFound);
      }
      r := Ok(commands[id]);
    }

    /** The due commands that expired first, as many as the limit allows. */
    method Expired(before: Time, limit: nat) returns (items: seq<Command>)
      requires Indexed(Contents())
      ensures ListsFirst(items, commands, Due(commands, before), ExpiresFirst, limit)
      ensures forall c :: c in items ==> c.status == Pending && c.expiresAt < before
      ensures forall i, j :: 0 <= i < j < |items| ==> items[i].expiresAt <= items[j].expiresAt
      ensures forall id, c :: id in commands && commands[id] !in items && c in items
                && commands[id].status == Pending && commands[id].expiresAt < before
                ==> c.expiresAt <= commands[id].expiresAt
    {
      items := ListWhere(commands, c => DueAt(c, before));
      assert (set id | id in commands && DueAt(commands[id], before)) == Due(commands, before);
      items := FirstInOrder(items, commands, Due(commands, before), ExpiresFirst, limit);
      ListedIsFirst(items, commands, Due(commands, before), ExpiresFirst, limit);
    }

    /** The device's pending commands, oldest first. */
    method PendingForDevice(deviceId: string, limit: nat) returns (items: seq<Command>)
      requires Indexed(Contents())
      ensures ListsFirst(items, commands, PendingOf(commands, deviceId), CreatedFirst, limit)
      ensures forall c :: c in items ==> c.status == Pending && c.deviceId == deviceId
      ensures forall i, j :: 0 <= i < j < |items| ==> items[i].createdAt <= items[j].createdAt
      ensures forall id, c :: id in commands && commands[id] !in items && c in items
                && commands[id].status == Pending && commands[id].deviceId == deviceId
                ==> c.createdAt <= commands[id].createdAt
    {
      items := ListWhere(commands, (c: Command) => c.deviceId == deviceId && c.status == Pending);
      items := FirstInOrder(items, commands, PendingOf(commands, deviceId), CreatedFirst, limit);
      ListedIsFirst(items, commands, PendingOf(commands, deviceId), CreatedFirst, limit);
    }
  }

  function PendingOf(commands: map<string, Command>, deviceId: string): set<string> {
    set id | id in commands && commands[id].deviceId == deviceId && commands[id].status == Pending
  }

  /** What a listing of the first says about single commands. */
  lemma ListedIsFirst(items: seq<Command>, commands: map<string, Command>, matching: set<string>,
                      less: (Command, Command) -> bool, limit: nat)
    requires ListsFirst(items, commands, matching, less, limit)
    ensures forall c :: c in items ==> c.id in matching && c == commands[c.id]
    ensures forall i, j :: 0 <= i < j < |items| ==> !less(items[j], items[i])
    ensures forall id, c :: id in matching && commands[id] !in items && c in items ==> !less(commands[id], c)
  {
    forall id, c | id in matching && commands[id] !in items && c in items ensures !less(commands[id], c) {
      assert c.id in Ids(items) && c == commands[c.id];
      assert id !in Ids(items);
    }
  }

  /** Sort, then cut. */
  method FirstInOrder(found: seq<Command>, ghost commands: map<string, Command>, ghost matching: set<string>,
                      less: (Command, Command) -> bool, limit: nat) returns (items: seq<Command>)
    requires StrictWeakOrder(less) && ListsExactly(found, commands, matching)
    ensures ListsFirst(items, commands, matching, less, limit)
  {
    items := Slice(found, less);
    KeepsListing(found, items, commands, matching);
    ghost var all := items;
    if |items| > limit {
      items := items[..limit];
    }
    CutListing(all, commands, matching, limit);
    CutIsFirst(all, commands, matching, less, limit);
  }

  /** The loop over the command map, in whatever order the map yields. */
  method ListWhere(commands: map<string, Command>, p: Command -> bool) returns (items: seq<Command>)
    requires forall id :: id in commands ==> commands[id].id == id
    ensures ListsExactly(items, commands, set id | id in commands && p(commands[id]))
  {
    items := [];
    var todo := commands.Keys;
    ghost var done: set<string> := {};
    while todo != {}
      invariant todo <= commands.Keys && done == set id | id in commands && id !in todo && p(commands[id])
      invariant ListsExactly(items, commands, done)
    {
      var id :| id in todo;
      if p(commands[id]) {
        ListOneMore(items, commands, done, id);
        items := items + [commands[id]];
        done := done + {id};
      }
      todo := todo - {id};
    }
    assert done == set id | id in commands && p(commands[id]);
  }

  lemma ListOneMore(items: seq<Command>, commands: map<string, Command>, done: set<string>, id: string)
    requires ListsExactly(items, commands, done) && id in commands && id !in done && commands[id].id == id
    ensures ListsExactly(items + [commands[id]], commands, done + {id})
  {
    var items' := items + [commands[id]];
    assert items'[|items|] == commands[id];
    forall k | k in done ensures commands[k] in items' {
      var i :| 0 <= i < |items| && items[i] == commands[k];
      assert items'[i] == commands[k];
    }
  }

  lemma KeepsListing(found: seq<Command>, sorted: seq<Command>, commands: map<string, Command>, ids: set<string>)
    requires ListsExactly(found, commands, ids) && multiset(sorted) == multiset(found)
    ensures ListsExactly(sorted, commands, ids)
  {
    forall c ensures c in sorted <==> c in found {
      assert c in sorted <==> c in multiset(sorted);
      assert c in found <==> c in multiset(found);
    }
    MultiplicityOne(found);
    forall i, j | 0 <= i < j < |sorted| ensures sorted[i].id != sorted[j].id {
      assert sorted[i] in sorted && sorted[j] in sorted;
      if sorted[i] == sorted[j] {
        AtLeastTwice(sorted, i, j);
      }
    }
  }

  lemma {:induction false} CountIds(items: seq<Command>)
    requires forall i, j :: 0 <= i < j < |items| ==> items[i].id != items[j].id
    ensures |Ids(items)| == |items|
  {
    if items != [] {
      var before, c := items[..|items| - 1], Last(items);
      SplitLast(items);
      CountIds(before);
      assert c.id !in Ids(before);
      assert Ids(items) == Ids(before) + {c.id};
    }
  }

  /** A listing names exactly its ids, and so does its beginning. */
  lemma CutListing(all: seq<Command>, commands: map<string, Command>, ids: set<string>, limit: nat)
    requires ListsExactly(all, commands, ids)
    ensures Ids(First(all, limit)) <= ids && |Ids(First(all, limit))| == |First(all, limit)| == Min(limit, |ids|)
    ensures ListsExactly(First(all, limit), commands, Ids(First(all, limit)))
  {
    CountIds(all);
    assert Ids(all) == ids;
    CountIds(First(all, limit));
    assert forall c :: c in First(all, limit) ==> c in all;
  }

  lemma CutIsFirst(all: seq<Command>, commands: map<string, Command>, ids: set<string>,
                   less: (Command, Command) -> bool, limit: nat)
    requires ListsExactly(all, commands, ids) && Sorted(all, less)
    ensures Sorted(First(all, limit), less)
    ensures forall a, b :: a in Ids(First(all, limit)) && b in ids - Ids(First(all, limit))
              ==> !less(commands[b], commands[a])
  {
    var cut := First(all, limit);
    forall a, b | a in Ids(cut) && b in ids - Ids(cut) ensures !less(commands[b], commands[a]) {
      var c :| c in cut && c.id == a;
      var i :| 0 <= i < |cut| && cut[i] == c;
      var j :| 0 <= j < |all| && all[j] == commands[b];
      assert all[i] in all;
      forall k | 0 <= k < |cut| ensures all[k].id != b {
        assert cut[k] in cut;
      }
    }
  }

  // ----- the service -----

  class Service {
    const repo: Repository

    constructor (repo: Repository)
      ensures this.repo == repo
    {
      this.repo := repo;
    }

    ghost predicate Valid()
      reads repo
    {
      Inv(repo.Contents())
    }

    /** The outcome of the model's step; `freshKey` and `freshId` are what `id.New` returns. */
    method Enqueue(input: EnqueueInput, freshKey: string, freshId: string, now: Time, trace: string)
      returns (outcome: Outcome)
      requires Valid() && Admissible(repo.Contents(), Op.Enqueue(input, freshKey, freshId, now, trace))
      modifies repo
      ensures Valid() && repo.Contents() == Step(old(repo.Contents()), Op.Enqueue(input, freshKey, freshId, now, trace))
      ensures outcome == EnqueueOutcome(old(repo.Contents()), input, freshKey, freshId, now, trace)
    {
      EnqueueKeeps(repo.Contents(), Op.Enqueue(input, freshKey, freshId, now, trace));
      if input.deviceId == "" || input.name == "" {
        return Rejected;
      }
      var full := input;
      if full.idempotencyKey == "" {
        full := full.(idempotencyKey := freshKey);
      }
      if full.maxRetries < 0 || full.maxRetries > 20 {
        full := full.(maxRetries := 3);
      }
      if full.timeout < 0 {
        full := full.(timeout := 30 * SECOND);
      }
      var existing := repo.GetByIdempotencyKey(full.deviceId, full.idempotencyKey);
      if existing.Ok? {
        return if Terminal(existing.value) then AlreadyUsed(existing.value) else Existing(existing.value);
      }
      if full.timeout == 0 {
        full := full.(timeout := 30 * SECOND);
      }
      var command := NewCommand(full, freshId, now, trace);
      repo.Save(command);
      outcome := Created(command);
    }

    /** Acknowledging a terminal command answers with it and changes nothing. */
    method Ack(input: AckInput, now: Time, trace: string) returns (r: Result<Command>)
      requires Valid()
      modifies repo
      ensures Valid() && repo.Contents() == Step(old(repo.Contents()), Op.Ack(input, now, trace))
      ensures r.Ok? <==> input.deviceId != "" && input.commandId in old(repo.commands)
                         && old(repo.commands)[input.commandId].deviceId == input.deviceId
      ensures r.Ok? ==> r.value == repo.commands[input.commandId]
      ensures r.Ok? && !Terminal(old(repo.commands)[input.commandId]) ==>
                r.value.status == (if input.success then Acked else Failed) && r.value.ackedAt == Some(now)
      ensures r.Err? ==> r.kind == if input.deviceId == "" || input.commandId == "" then Invalid
                                   else if input.commandId !in repo.commands then NotFound else Forbidden
    {
      AckKeeps(repo.Contents(), Op.Ack(input, now, trace));
      if input.deviceId == "" || input.commandId == "" {
        return Err(Invalid);
      }
      var found := repo.Get(input.commandId);
      if found.Err? {
        return Err(NotFound);
      }
      var command := found.value;
      if command.deviceId != input.deviceId {
        return Err(Forbidden);
      }
      if Terminal(command) {
        return Ok(command);
      }
      var status, message := Acked, input.message;
      if message == "" {
        message := "acknowledged";
      }
      if !input.success {
        status := Failed;
        command := command.(failureReason := message);
      }
      command := command.(status := status, updatedAt := now, ackedAt := Some(now),
                          audit := command.audit + [AuditEntry(now, status, message, trace)]);
      repo.Save(command);
      r := Ok(command);
    }

    /** `reapExpired`: fetch a batch, then deal with its commands one by one. */
    method ReapExpired(now: Time, trace: string) returns (ghost batch: set<string>)
      requires Valid()
      modifies repo
      ensures Admissible(old(repo.Contents()), Op.Sweep(now, trace, batch))
      ensures Valid() && repo.Contents() == Step(old(repo.Contents()), Op.Sweep(now, trace, batch))
    {
      var items := repo.Expired(now, 100);
      batch := Ids(items);
      FirstIsBatch(items, repo.commands, now);
      SweepKeeps(repo.Contents(), Op.Sweep(now, trace, batch));
      ReapAll(items, now, trace);
    }

    method ReapAll(items: seq<Command>, now: Time, trace: string)
      requires Valid() && Ids(items) <= Due(repo.commands, now)
      requires ListsExactly(items, repo.commands, Ids(items))
      modifies repo
      ensures repo.Contents() == SweptTo(old(repo.Contents()), now, trace, items, |items|)
      ensures repo.Contents() == Step(old(repo.Contents()), Op.Sweep(now, trace, Ids(items)))
    {
      ghost var start := repo.Contents();
      SweptNone(start, now, trace, items);
      for i := 0 to |items|
        invariant repo.Contents() == SweptTo(start, now, trace, items, i)
      {
        SweepOneMore(start, now, trace, items, i);
        ReapOne(items[i], now, trace);
      }
      assert items[..|items|] == items;
    }

    /** One turn of the reaping loop. */
    method ReapOne(due: Command, now: Time, trace: string)
      requires due.retryCount >= 0
      modifies repo
      ensures repo.Contents() == if Terminal(due) then old(repo.Contents())
                                 else Saved(old(repo.Contents()), Reaped(due, now, trace))
    {
      var command := due;
      if Terminal(command) {
        return;
      }
      if command.retryCount < command.maxRetries {
        var n := command.retryCount + 1;
        command := command.(retryCount := n, status := Retrying, expiresAt := now + command.timeout, updatedAt := now,
                            audit := command.audit + [AuditEntry(now, Retrying, "retry " + Digits(n), trace)]);
        repo.Save(command);
        return;
      }
      command := command.(status := Failed, failureReason := TIMED_OUT, updatedAt := now,
                          audit := command.audit + [AuditEntry(now, Failed, TIMED_OUT, trace)]);
      repo.Save(command);
    }
  }

  lemma FirstIsBatch(items: seq<Command>, commands: map<string, Command>, now: Time)
    requires ListsFirst(items, commands, Due(commands, now), ExpiresFirst, SWEEP_LIMIT)
    ensures IsBatch(commands, now, SWEEP_LIMIT, Ids(items))
  {
    forall a, b | a in Ids(items) && b in Due(commands, now) - Ids(items)
      ensures commands[a].expiresAt <= commands[b].expiresAt
    {
      assert !ExpiresFirst(commands[b], commands[a]);
    }
  }

  lemma TakeOne(items: seq<Command>, i: nat, commands: map<string, Command>, ids: set<string>)
    requires i < |items| && ListsExactly(items, commands, Ids(items)) && Ids(items) <= ids
    ensures Ids(items[..i + 1]) == Ids(items[..i]) + {items[i].id}
    ensures items[i].id in ids && items[i].id !in Ids(items[..i]) && commands[items[i].id] == items[i]
  {
    assert items[i] in items;
    assert items[..i + 1] == items[..i] + [items[i]];
    forall c | c in items[..i] ensures c.id != items[i].id {
      var k :| 0 <= k < i && items[k] == c;
    }
  }

  ghost function SweptTo(start: Store, now: Time, trace: string, items: seq<Command>, i: nat): Store
    requires i <= |items|
  {
    start.(commands := Swept(start.commands, now, trace, Ids(items[..i])))
  }

  lemma SweptNone(start: Store, now: Time, trace: string, items: seq<Command>)
    ensures SweptTo(start, now, trace, items, 0) == start
  {
    assert Ids(items[..0]) == {};
    assert Swept(start.commands, now, trace, {}) == start.commands;
  }

  /** Saving the reaped command moves the sweep on by one. */
  lemma SweepOneMore(start: Store, now: Time, trace: string, items: seq<Command>, i: nat)
    requires Inv(start) && i < |items| && Ids(items) <= Due(start.commands, now)
    requires ListsExactly(items, start.commands, Ids(items))
    ensures !Terminal(items[i]) && items[i].retryCount >= 0
    ensures Saved(SweptTo(start, now, trace, items, i), Reaped(items[i], now, trace))
         == SweptTo(start, now, trace, items, i + 1)
  {
    TakeOne(items, i, start.commands, Due(start.commands, now));
    var c := items[i];
    assert WellFormed(start.commands[c.id]);
    var command := Reaped(c, now, trace);
    assert start.byIdempotency[KeyOf(command) := c.id] == start.byIdempotency;
    assert Swept(start.commands, now, trace, Ids(items[..i]))[c.id := command]
        == Swept(start.commands, now, trace, Ids(items[..i + 1]));
  }
}
