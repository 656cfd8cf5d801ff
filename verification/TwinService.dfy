/** The digital-twin service over its in-memory repository.  Each call is one atomic step. */
module TwinService {
  import opened Results
  import opened Sequences
  import opened TwinState
  import opened TwinDiff

  type Time = int

  datatype TwinDocument = TwinDocument(deviceId: string, desiredState: Fields, reportedState: Fields,
                                       version: nat, updatedAt: Time)

  datatype MergeResult = MergeResult(deviceId: string, desiredState: Fields, reportedState: Fields,
                                     version: nat, diff: seq<StateDiff>, updatedAt: Time)

  // ----- what one call does to the documents -----

  datatype Call =
    | UpdateDesired(deviceId: string, patch: Fields)
    | UpdateReported(deviceId: string, patch: Fields)
    | EnsureInitialized(deviceId: string)
    | Delete(deviceId: string)
    | Read(deviceId: string)

  type Documents = map<string, TwinDocument>

  /** What `Get` answers: the stored document, or an empty one at version 0. */
  function DocumentAt(docs: Documents, deviceId: string, now: Time): TwinDocument {
    if deviceId in docs then docs[deviceId] else TwinDocument(deviceId, map[], map[], 0, now)
  }

  function Step(docs: Documents, call: Call, now: Time): Documents {
    var doc := DocumentAt(docs, call.deviceId, now);
    if call.deviceId == "" then docs
    else
      match call
      case UpdateDesired(id, patch) =>
        docs[id := doc.(desiredState := Merge(doc.desiredState, patch), version := doc.version + 1, updatedAt := now)]
      case UpdateReported(id, patch) =>
        docs[id := doc.(reportedState := Merge(doc.reportedState, patch), version := doc.version + 1, updatedAt := now)]
      case EnsureInitialized(id) => docs[id := doc.(updatedAt := now)]
      case Delete(id) => docs - {id}
      case Read(_) => docs
  }

  lemma StepOfUpdate(docs: Documents, deviceId: string, patch: Fields, now: Time)
    requires deviceId != "" && forall d :: d in docs ==> docs[d].deviceId == d
    ensures var doc := DocumentAt(docs, deviceId, now);
            doc.deviceId == deviceId
            && Step(docs, UpdateDesired(deviceId, patch), now)
               == docs[deviceId := doc.(desiredState := Merge(doc.desiredState, patch), version := doc.version + 1,
                                        updatedAt := now)]
  {
  }

  /** A run: calls with the clock each of them read. */
  function Run(calls: seq<(Call, Time)>): Documents {
    if calls == [] then map[] else Step(Run(calls[..|calls| - 1]), Last(calls).0, Last(calls).1)
  }

  // ----- what a device's twin ought to be -----

  /** The calls for one device since it was last deleted. */
  function Life(calls: seq<(Call, Time)>, deviceId: string): seq<Call> {
    if calls == [] then []
    else
      var before, call := Life(calls[..|calls| - 1], deviceId), Last(calls).0;
      if call.deviceId != deviceId then before
      else if call.Delete? then []
      else before + [call]
  }

  function DesiredPatches(life: seq<Call>): seq<Fields> {
    if life == [] then []
    else DesiredPatches(life[..|life| - 1]) + if Last(life).UpdateDesired? then [Last(life).patch] else []
  }

  function ReportedPatches(life: seq<Call>): seq<Fields> {
    if life == [] then []
    else ReportedPatches(life[..|life| - 1]) + if Last(life).UpdateReported? then [Last(life).patch] else []
  }

  lemma MergeAllSnoc(patches: seq<Fields>, p: Fields)
    ensures MergeAll(map[], patches + [p]) == Merge(MergeAll(map[], patches), p)
  {
    assert (patches + [p])[..|patches|] == patches;
  }

  lemma LifeSnoc(life: seq<Call>, call: Call)
    ensures DesiredPatches(life + [call]) ==
            if call.UpdateDesired? then DesiredPatches(life) + [call.patch] else DesiredPatches(life)
    ensures ReportedPatches(life + [call]) ==
            if call.UpdateReported? then ReportedPatches(life) + [call.patch] else ReportedPatches(life)
  {
    assert (life + [call])[..|life|] == life;
  }

  function DesiredOf(life: seq<Call>): Fields { MergeAll(map[], DesiredPatches(life)) }
  function ReportedOf(life: seq<Call>): Fields { MergeAll(map[], ReportedPatches(life)) }

  lemma DesiredSnoc(life: seq<Call>, call: Call)
    ensures DesiredOf(life + [call])
         == if call.UpdateDesired? then Merge(DesiredOf(life), call.patch) else DesiredOf(life)
  {
    LifeSnoc(life, call);
    if call.UpdateDesired? {
      MergeAllSnoc(DesiredPatches(life), call.patch);
    }
  }

  lemma ReportedSnoc(life: seq<Call>, call: Call)
    ensures ReportedOf(life + [call])
         == if call.UpdateReported? then Merge(ReportedOf(life), call.patch) else ReportedOf(life)
  {
    LifeSnoc(life, call);
    if call.UpdateReported? {
      MergeAllSnoc(ReportedPatches(life), call.patch);
    }
  }

  function Updates(life: seq<Call>): nat { |DesiredPatches(life)| + |ReportedPatches(life)| }

  /** The twin that a life ought to have produced. */
  ghost predicate TwinOf(doc: TwinDocument, deviceId: string, life: seq<Call>) {
    && doc.deviceId == deviceId && doc.version == Updates(life)
    && doc.desiredState == DesiredOf(life) && doc.reportedState == ReportedOf(life)
  }

  /** Non-interference over runs: whatever calls on however many devices are interleaved, a twin's
      desired state is the fold of its own desired patches since its last deletion, its reported
      state the fold of its reported patches, and its version the number of both. */
  lemma {:induction false} TwinsDoNotInterfere(calls: seq<(Call, Time)>, deviceId: string, now: Time)
    requires deviceId != ""
    ensures TwinOf(DocumentAt(Run(calls), deviceId, now), deviceId, Life(calls, deviceId))
  {
    if calls != [] {
      var before, call, at := calls[..|calls| - 1], Last(calls).0, Last(calls).1;
      TwinsDoNotInterfere(before, deviceId, now);
      TwinsDoNotInterfere(before, deviceId, at);
      if call.deviceId == deviceId && !call.Delete? {
        OwnCall(Run(before), Life(before, deviceId), call, at, now);
      }
    }
  }

  lemma OwnCall(docs: Documents, life: seq<Call>, call: Call, at: Time, now: Time)
    requires call.deviceId != "" && !call.Delete?
    requires TwinOf(DocumentAt(docs, call.deviceId, now), call.deviceId, life)
    requires TwinOf(DocumentAt(docs, call.deviceId, at), call.deviceId, life)
    ensures TwinOf(DocumentAt(Step(docs, call, at), call.deviceId, now), call.deviceId, life + [call])
  {
    DesiredSnoc(life, call);
    ReportedSnoc(life, call);
    assert Updates(life + [call]) == Updates(life) + if call.UpdateDesired? || call.UpdateReported? then 1 else 0 by {
      LifeSnoc(life, call);
    }
  }

  /** When the device's document was last written, if it was since its deletion. */
  function LastWrite(calls: seq<(Call, Time)>, deviceId: string): Result<Time> {
    if calls == [] then Err(NotFound)
    else
      var before, call, at := LastWrite(calls[..|calls| - 1], deviceId), Last(calls).0, Last(calls).1;
      if call.deviceId != deviceId || call.Read? then before
      else if call.Delete? then Err(NotFound)
      else Ok(at)
  }

  /** A device has a document if and only if something was written for it since its last deletion, an
      initialisation included, and the document says when that was last. */
  lemma {:induction false} DocumentsAreStamped(calls: seq<(Call, Time)>, deviceId: string)
    requires deviceId != ""
    ensures deviceId in Run(calls) <==> LastWrite(calls, deviceId).Ok?
    ensures deviceId in Run(calls) ==> Run(calls)[deviceId].updatedAt == LastWrite(calls, deviceId).value
  {
    if calls != [] {
      DocumentsAreStamped(calls[..|calls| - 1], deviceId);
    }
  }

  lemma {:induction false} MergeAllConcat(base: Fields, a: seq<Fields>, b: seq<Fields>)
    ensures MergeAll(base, a + b) == MergeAll(MergeAll(base, a), b)
  {
    if b == [] {
      assert a + b == a;
    } else {
      MergeAllConcat(base, a, b[..|b| - 1]);
      ConcatButLast(a, b);
    }
  }

  /** Replacing a stretch of patches by their combination makes no difference to anything sent
      before or after them. */
  lemma StretchCombines(before: seq<Fields>, more: seq<Fields>, after: seq<Fields>)
    requires CompatibleRun(more)
    ensures MergeAll(map[], before + more + after) == MergeAll(map[], before + [MergeAll(map[], more)] + after)
  {
    var one := [MergeAll(map[], more)];
    MergeAllConcat(map[], before, more);
    MergeAllConcat(map[], before, one);
    MergeAllConcat(map[], before + more, after);
    MergeAllConcat(map[], before + one, after);
    RunCombines(more);
    assert CombinesOn(MergeAll(map[], before), more);
    assert one[..0] == [];
  }

  /** A stretch of desired patches may be sent as one, if no patch of it holds a non-map where the
      stretch as a whole leaves a map: two runs whose desired patches for the device differ in that
      only end in the same desired state, whatever else they contain, for this device or others,
      in between, before and after, and whenever they were made. */
  lemma DesiredPatchesCombine(calls: seq<(Call, Time)>, calls': seq<(Call, Time)>, deviceId: string,
                              before: seq<Fields>, more: seq<Fields>, after: seq<Fields>, now: Time)
    requires deviceId != "" && CompatibleRun(more)
    requires DesiredPatches(Life(calls, deviceId)) == before + more + after
    requires DesiredPatches(Life(calls', deviceId)) == before + [MergeAll(map[], more)] + after
    ensures DocumentAt(Run(calls), deviceId, now).desiredState == DocumentAt(Run(calls'), deviceId, now).desiredState
  {
    TwinsDoNotInterfere(calls, deviceId, now);
    TwinsDoNotInterfere(calls', deviceId, now);
    StretchCombines(before, more, after);
  }

  // ----- the repository and the service -----

  /** The repository as values; `TwinHeap.Repository` shows that cloning makes this view right. */
  class Repository {
    var documents: Documents

    constructor ()
      ensures documents == map[]
    {
      documents := map[];
    }

    method Get(deviceId: string) returns (r: Result<TwinDocument>)
      ensures r == if deviceId in documents then Ok(documents[deviceId]) else Err(NotFound)
    {
      if deviceId !in documents {
        return Err(NotFound);
      }
      r := Ok(documents[deviceId]);
    }

    method Save(document: TwinDocument)
      modifies this
      ensures documents == old(documents)[document.deviceId := document]
    {
      documents := documents[document.deviceId := document];
    }

    method Delete(deviceId: string)
      modifies this
      ensures documents == old(documents) - {deviceId}
    {
      documents := documents - {deviceId};
    }
  }

  class Service {
    const repo: Repository

    constructor (repo: Repository)
      ensures this.repo == repo
    {
      this.repo := repo;
    }

    /** Documents are filed under their own device. */
    ghost predicate Valid()
      reads repo
    {
      forall d :: d in repo.documents ==> repo.documents[d].deviceId == d
    }

    method Get(deviceId: string, now: Time) returns (r: Result<TwinDocument>)
      ensures r == if deviceId == "" then Err(Invalid) else Ok(DocumentAt(repo.documents, deviceId, now))
    {
      if deviceId == "" {
        return Err(Invalid);
      }
      var found := repo.Get(deviceId);
      match found {
        case Ok(document) => r := Ok(document);
        case Err(_) => r := Ok(TwinDocument(deviceId, map[], map[], 0, now));
      }
    }

    /** A nil patch counts as an empty one. */
    method UpdateDesired(deviceId: string, patch: Fields, now: Time) returns (r: Result<MergeResult>)
      requires Valid()
      modifies repo
      ensures Valid() && repo.documents == Step(old(repo.documents), Call.UpdateDesired(deviceId, patch), now)
      ensures r == if deviceId == "" then Err(Invalid) else Ok(Summary(repo.documents[deviceId]))
    {
      var found := Get(deviceId, now);
      if found.Err? {
        return Err(Invalid);
      }
      var document := found.value;
      var merged := MergeMaps(document.desiredState, patch);
      document := document.(desiredState := merged, version := document.version + 1, updatedAt := now);
      repo.Save(document);
      var diff := ComputeDiff(document.desiredState, document.reportedState);
      r := Ok(Summarise(document, diff));
    }

    method UpdateReported(deviceId: string, patch: Fields, now: Time) returns (r: Result<MergeResult>)
      requires Valid()
      modifies repo
      ensures Valid() && repo.documents == Step(old(repo.documents), Call.UpdateReported(deviceId, patch), now)
      ensures r == if deviceId == "" then Err(Invalid) else Ok(Summary(repo.documents[deviceId]))
    {
      var found := Get(deviceId, now);
      if found.Err? {
        return Err(Invalid);
      }
      var document := found.value;
      var merged := MergeMaps(document.reportedState, patch);
      document := document.(reportedState := merged, version := document.version + 1, updatedAt := now);
      repo.Save(document);
      var diff := ComputeDiff(document.desiredState, document.reportedState);
      r := Ok(Summarise(document, diff));
    }

    method Merge(deviceId: string, now: Time) returns (r: Result<MergeResult>)
      ensures r == if deviceId == "" then Err(Invalid) else Ok(Summary(DocumentAt(repo.documents, deviceId, now)))
    {
      var found := Get(deviceId, now);
      if found.Err? {
        return Err(Invalid);
      }
      var diff := ComputeDiff(found.value.desiredState, found.value.reportedState);
      r := Ok(Summarise(found.value, diff));
    }

    method Delete(deviceId: string, now: Time) returns (r: Result<()>)
      requires Valid()
      modifies repo
      ensures Valid() && repo.documents == Step(old(repo.documents), Call.Delete(deviceId), now)
      ensures r == if deviceId == "" then Err(Invalid) else Ok(())
    {
      if deviceId == "" {
        return Err(Invalid);
      }
      repo.Delete(deviceId);
      r := Ok(());
    }

    /** Creates the document when it is missing; never bumps its version. */
    method EnsureInitialized(deviceId: string, now: Time) returns (r: Result<()>)
      requires Valid()
      modifies repo
      ensures Valid() && repo.documents == Step(old(repo.documents), Call.EnsureInitialized(deviceId), now)
      ensures r == if deviceId == "" then Err(Invalid) else Ok(())
    {
      var found := Get(deviceId, now);
      if found.Err? {
        return Err(Invalid);
      }
      repo.Save(found.value.(updatedAt := now));
      r := Ok(());
    }
  }

  ghost function Summary(doc: TwinDocument): MergeResult {
    MergeResult(doc.deviceId, doc.desiredState, doc.reportedState, doc.version,
                Diff(doc.desiredState, doc.reportedState), doc.updatedAt)
  }

  lemma SummaryShows(doc: TwinDocument)
    ensures var m := Summary(doc);
            m.deviceId == doc.deviceId && m.desiredState == doc.desiredState && m.reportedState == doc.reportedState
            && m.version == doc.version && m.updatedAt == doc.updatedAt
            && m.diff == Diff(doc.desiredState, doc.reportedState)
  {
  }

  /** `mergeResult`: the document's two states with the diff. */
  function Summarise(doc: TwinDocument, diff: seq<StateDiff>): MergeResult {
    MergeResult(doc.deviceId, doc.desiredState, doc.reportedState, doc.version, diff, doc.updatedAt)
  }
}
