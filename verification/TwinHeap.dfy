/** Twin states as Go keeps them: maps and slices that can be shared and changed in place.  Cloning
    on the way in and on the way out is what keeps stored twins out of everybody's reach. */
module TwinHeap {
  import opened Results
  import opened TwinState
  import TwinService

  /** A Go `map[string]any` and a Go `[]any`. */
  class MapNode {
    var fields: map<string, Ref>

    constructor (fields: map<string, Ref>)
      ensures this.fields == fields
    {
      this.fields := fields;
    }
  }

  class ArrayNode {
    var items: seq<Ref>

    constructor (items: seq<Ref>)
      ensures this.items == items
    {
      this.items := items;
    }
  }

  /** A Go `any`, as JSON decoding produces it. */
  datatype Ref =
    | Nil
    | Flag(flag: bool)
    | Num(number: real)
    | Txt(text: string)
    | ArrayRef(arr: ArrayNode)
    | MapRef(obj: MapNode)

  /** r represents the tree v, and every node reached lies in s.  Nodes may be shared. */
  ghost predicate Holds(r: Ref, v: Value, s: set<object>)
    reads s
    decreases v
  {
    match v
    case Null => r == Nil
    case Boolean(b) => r == Flag(b)
    case Number(n) => r == Num(n)
    case Text(t) => r == Txt(t)
    case Array(items) =>
      r.ArrayRef? && r.arr in s && |r.arr.items| == |items|
      && forall i :: 0 <= i < |items| ==> Holds(r.arr.items[i], items[i], s)
    case Object(fields) =>
      r.MapRef? && r.obj in s && r.obj.fields.Keys == fields.Keys
      && forall k :: k in fields ==> Holds(r.obj.fields[k], fields[k], s)
  }

  ghost predicate HoldsMap(m: MapNode, f: Fields, s: set<object>)
    reads s
  {
    Holds(MapRef(m), Object(f), s)
  }

  lemma {:induction false} HoldsInLarger(r: Ref, v: Value, s: set<object>, t: set<object>)
    requires Holds(r, v, s) && s <= t
    ensures Holds(r, v, t)
    decreases v
  {
    match v
    case Array(items) =>
      forall i | 0 <= i < |items| ensures Holds(r.arr.items[i], items[i], t) {
        HoldsInLarger(r.arr.items[i], items[i], s, t);
      }
    case Object(fields) =>
      forall k | k in fields ensures Holds(r.obj.fields[k], fields[k], t) {
        HoldsInLarger(r.obj.fields[k], fields[k], s, t);
      }
    case _ =>
  }

  // ----- cloning -----

  /** The copy represents the same tree and shares no node with anything that existed before. */
  method CloneValue(r: Ref, ghost v: Value, ghost s: set<object>) returns (c: Ref, ghost t: set<object>)
    requires Holds(r, v, s)
    ensures Holds(c, v, t) && fresh(t)
    decreases v, 1
  {
    match r {
      case MapRef(m) =>
        var out: MapNode;
        out, t := CloneMap(m, v.fields, s);
        c := MapRef(out);
      case ArrayRef(a) =>
        var items: seq<Ref> := [];
        t := {};
        for i := 0 to |a.items|
          invariant |items| == i && fresh(t)
          invariant forall j :: 0 <= j < i ==> Holds(items[j], v.items[j], t)
        {
          var item;
          ghost var u;
          item, u := CloneValue(a.items[i], v.items[i], s);
          forall j | 0 <= j < i ensures Holds(items[j], v.items[j], t + u) {
            HoldsInLarger(items[j], v.items[j], t, t + u);
          }
          HoldsInLarger(item, v.items[i], u, t + u);
          items := items + [item];
          t := t + u;
        }
        var out := new ArrayNode(items);
        forall j | 0 <= j < |items| ensures Holds(items[j], v.items[j], t + {out}) {
          HoldsInLarger(items[j], v.items[j], t, t + {out});
        }
        t := t + {out};
        c := ArrayRef(out);
      case _ =>
        c, t := r, {};
    }
  }

  method CloneMap(m: MapNode, ghost f: Fields, ghost s: set<object>) returns (out: MapNode, ghost t: set<object>)
    requires HoldsMap(m, f, s)
    ensures HoldsMap(out, f, t) && fresh(t)
    decreases Object(f), 0
  {
    var copied: map<string, Ref> := map[];
    var todo := m.fields.Keys;
    t := {};
    while todo != {}
      invariant todo <= f.Keys && copied.Keys == f.Keys - todo && fresh(t)
      invariant forall k :: k in copied ==> Holds(copied[k], f[k], t)
    {
      var key :| key in todo;
      var value;
      ghost var u;
      value, u := CloneValue(m.fields[key], f[key], s);
      forall k | k in copied ensures Holds(copied[k], f[k], t + u) {
        HoldsInLarger(copied[k], f[k], t, t + u);
      }
      HoldsInLarger(value, f[key], u, t + u);
      copied := copied[key := value];
      t := t + u;
      todo := todo - {key};
    }
    out := new MapNode(copied);
    forall k | k in f ensures Holds(copied[k], f[k], t + {out}) {
      HoldsInLarger(copied[k], f[k], t, t + {out});
    }
    t := t + {out};
  }

  // ----- merging -----

  /** `mergeMaps`: a fresh map whose entries may be shared with the base and the patch, neither of
      which is changed. */
  method MergeMaps(base: MapNode, patch: MapNode, ghost a: Fields, ghost b: Fields, ghost s: set<object>)
    returns (out: MapNode, ghost t: set<object>)
    requires HoldsMap(base, a, s) && HoldsMap(patch, b, s)
    ensures HoldsMap(out, Merge(a, b), s + t) && fresh(t)
    decreases Object(b), 1, 1
  {
    var entries;
    entries, t := MergeEntries(base, patch, a, b, s);
    out := new MapNode(entries);
    MergedHolds(entries, a, b, s + t, s + (t + {out}));
    t := t + {out};
  }

  /** The two loops of `mergeMaps`. */
  method MergeEntries(base: MapNode, patch: MapNode, ghost a: Fields, ghost b: Fields, ghost s: set<object>)
    returns (entries: map<string, Ref>, ghost t: set<object>)
    requires HoldsMap(base, a, s) && HoldsMap(patch, b, s)
    ensures EntriesHold(entries, a, b, {}, s + t) && fresh(t)
    decreases Object(b), 1, 0
  {
    entries := base.fields;
    var todo := patch.fields.Keys;
    t := {};
    EntriesOfBase(base, a, b, s, s + t);
    while todo != {}
      invariant todo <= b.Keys && fresh(t)
      invariant EntriesHold(entries, a, b, todo, s + t)
    {
      var key :| key in todo;
      ghost var u;
      var value;
      HoldsInLarger(patch.fields[key], b[key], s, s + t);
      value, u := MergeEntry(entries, key, patch.fields[key], a, b, s + t);
      OneEntry(entries, a, b, todo, s + t, s + t + u, key, value);
      entries := entries[key := value];
      assert s + (t + u) == s + t + u;
      t := t + u;
      todo := todo - {key};
    }
  }

  /** What the merged map holds under one key of the patch. */
  method MergeEntry(entries: map<string, Ref>, key: string, value: Ref, ghost a: Fields, ghost b: Fields,
                    ghost s: set<object>) returns (r: Ref, ghost u: set<object>)
    requires key in b && Holds(value, b[key], s) && (key in entries <==> key in a)
    requires key in a ==> Holds(entries[key], a[key], s)
    ensures Holds(r, Merge(a, b)[key], s + u) && fresh(u)
    decreases Object(b), 0
  {
    MergeAt(a, b, key);
    u := {};
    if key in entries && entries[key].MapRef? && value.MapRef? {
      var merged;
      merged, u := MergeMaps(entries[key].obj, value.obj, a[key].fields, b[key].fields, s);
      return MapRef(merged), u;
    }
    HoldsInLarger(value, b[key], s, s + u);
    r := value;
  }

  /** While the patch is being applied: keys already dealt with hold the merged value, all others
      that of the base. */
  ghost predicate EntriesHold(entries: map<string, Ref>, a: Fields, b: Fields, todo: set<string>, s: set<object>)
    reads s
  {
    && (forall k :: k in entries <==> k in a || (k in b && k !in todo))
    && (forall k :: k in entries && (k !in b || k in todo) ==> Holds(entries[k], a[k], s))
    && (forall k :: k in entries && k in b && k !in todo ==> Holds(entries[k], Merge(a, b)[k], s))
  }

  lemma EntriesOfBase(base: MapNode, a: Fields, b: Fields, s: set<object>, s': set<object>)
    requires HoldsMap(base, a, s) && s <= s'
    ensures EntriesHold(base.fields, a, b, b.Keys, s')
  {
    forall k | k in a ensures Holds(base.fields[k], a[k], s') {
      HoldsInLarger(base.fields[k], a[k], s, s');
    }
  }

  lemma OneEntry(entries: map<string, Ref>, a: Fields, b: Fields, todo: set<string>, s: set<object>, s': set<object>,
                 key: string, value: Ref)
    requires EntriesHold(entries, a, b, todo, s) && s <= s' && key in todo && key in b
    requires Holds(value, Merge(a, b)[key], s')
    ensures EntriesHold(entries[key := value], a, b, todo - {key}, s')
  {
    forall k | k in entries && (k !in b || k in todo) ensures Holds(entries[k], a[k], s') {
      HoldsInLarger(entries[k], a[k], s, s');
    }
    forall k | k in entries && k in b && k !in todo ensures Holds(entries[k], Merge(a, b)[k], s') {
      HoldsInLarger(entries[k], Merge(a, b)[k], s, s');
    }
  }

  lemma MergedHolds(entries: map<string, Ref>, a: Fields, b: Fields, s: set<object>, s': set<object>)
    requires EntriesHold(entries, a, b, {}, s) && s <= s'
    ensures entries.Keys == Merge(a, b).Keys
    ensures forall k :: k in entries ==> Holds(entries[k], Merge(a, b)[k], s')
  {
    forall k | k in entries ensures Holds(entries[k], Merge(a, b)[k], s') {
      MergeAt(a, b, k);
      HoldsInLarger(entries[k], Merge(a, b)[k], s, s');
    }
  }

  // ----- the repository -----

  datatype Document = Document(deviceId: string, desired: MapNode, reported: MapNode, version: nat, updatedAt: int)

  /** The document represents the twin, within s. */
  ghost predicate HoldsTwin(d: Document, twin: TwinService.TwinDocument, s: set<object>)
    reads s
  {
    && d.deviceId == twin.deviceId && d.version == twin.version && d.updatedAt == twin.updatedAt
    && HoldsMap(d.desired, twin.desiredState, s) && HoldsMap(d.reported, twin.reportedState, s)
  }

  lemma TwinInLarger(d: Document, twin: TwinService.TwinDocument, s: set<object>, t: set<object>)
    requires HoldsTwin(d, twin, s) && s <= t
    ensures HoldsTwin(d, twin, t)
  {
    HoldsInLarger(MapRef(d.desired), Object(twin.desiredState), s, t);
    HoldsInLarger(MapRef(d.reported), Object(twin.reportedState), s, t);
  }

  ghost predicate HoldsAll(documents: map<string, Document>, twins: TwinService.Documents, s: set<object>)
    reads s
  {
    documents.Keys == twins.Keys && forall d :: d in documents ==> HoldsTwin(documents[d], twins[d], s)
  }

  lemma OneMoreTwin(documents: map<string, Document>, twins: TwinService.Documents, s: set<object>,
                    d: Document, twin: TwinService.TwinDocument, t: set<object>)
    requires HoldsAll(documents, twins, s) && HoldsTwin(d, twin, t)
    ensures HoldsAll(documents[d.deviceId := d], twins[twin.deviceId := twin], s + t)
  {
    forall k | k in documents ensures HoldsTwin(documents[k], twins[k], s + t) {
      TwinInLarger(documents[k], twins[k], s, s + t);
    }
    TwinInLarger(d, twin, t, s + t);
  }

  method CloneDocument(d: Document, ghost twin: TwinService.TwinDocument, ghost s: set<object>)
    returns (c: Document, ghost t: set<object>)
    requires HoldsTwin(d, twin, s)
    ensures HoldsTwin(c, twin, t) && fresh(t)
  {
    var desired, reported;
    ghost var u, w;
    desired, u := CloneMap(d.desired, twin.desiredState, s);
    reported, w := CloneMap(d.reported, twin.reportedState, s);
    t := u + w;
    HoldsInLarger(MapRef(desired), Object(twin.desiredState), u, t);
    HoldsInLarger(MapRef(reported), Object(twin.reportedState), w, t);
    c := d.(desired := desired, reported := reported);
  }

  class Repository {
    var documents: map<string, Document>
    /** The twins as values, and every node the stored documents are made of. */
    ghost var twins: TwinService.Documents
    ghost var nodes: set<object>

    ghost predicate Valid()
      reads this, nodes
    {
      this !in nodes && HoldsAll(documents, twins, nodes)
    }

    constructor ()
      ensures Valid() && twins == map[] && nodes == {}
    {
      documents, twins, nodes := map[], map[], {};
    }

    /** The answer is made of fresh nodes only. */
    method Get(deviceId: string) returns (r: Result<Document>, ghost t: set<object>)
      requires Valid()
      ensures fresh(t)
      ensures r.Err? <==> deviceId !in twins
      ensures r.Ok? ==> HoldsTwin(r.value, twins[deviceId], t)
    {
      t := {};
      if deviceId !in documents {
        return Err(NotFound), {};
      }
      var copy;
      copy, t := CloneDocument(documents[deviceId], twins[deviceId], nodes);
      r := Ok(copy);
    }

    /** Only fresh nodes enter the repository, never those of the document that is saved. */
    method Save(d: Document, ghost twin: TwinService.TwinDocument, ghost s: set<object>)
      requires Valid() && HoldsTwin(d, twin, s)
      modifies this
      ensures Valid() && twins == old(twins)[twin.deviceId := twin]
      ensures fresh(nodes - old(nodes))
    {
      var copy;
      ghost var t;
      copy, t := CloneDocument(d, twin, s);
      OneMoreTwin(documents, twins, nodes, copy, twin, t);
      Replace(documents[copy.deviceId := copy], twins[twin.deviceId := twin], nodes + t);
    }

    method Replace(documents': map<string, Document>, ghost twins': TwinService.Documents, ghost nodes': set<object>)
      requires this !in nodes' && HoldsAll(documents', twins', nodes')
      modifies this
      ensures Valid() && documents == documents' && twins == twins' && nodes == nodes'
    {
      documents, twins, nodes := documents', twins', nodes';
    }

    method Delete(deviceId: string)
      requires Valid()
      modifies this
      ensures Valid() && twins == old(twins) - {deviceId} && nodes == old(nodes)
    {
      Replace(documents - {deviceId}, twins - {deviceId}, nodes);
    }
  }

  // ----- isolation -----

  /** Foreign writes: if nothing but `theirs` has changed, in whatever way, and `theirs` shares nothing
      with the repository, then the repository holds the same twins as before. */
  twostate lemma ForeignWritesAreHarmless(repo: Repository, theirs: set<object>)
    requires old(repo.Valid()) && theirs !! {repo} + old(repo.nodes)
    requires forall o: object :: old(allocated(o)) && o !in theirs ==> unchanged(o)
    ensures repo.Valid() && repo.twins == old(repo.twins) && repo.nodes == old(repo.nodes)
  {
  }

  /** Whatever a caller may do to the nodes it can reach: any writes to any of them. */
  method Scribble(ghost nodes: set<object>)
    modifies nodes
  {
    modify nodes;
  }

  /** The fresh nodes of an answer are foreign. */
  method AnswersAreIsolated(repo: Repository, deviceId: string)
    requires repo.Valid()
    ensures repo.Valid() && repo.twins == old(repo.twins)
  {
    var r;
    ghost var t;
    r, t := repo.Get(deviceId);
    Scribble(t);
  }

  /** `UpdateDesired` on the heap stores what the value model says, and no node of the patch gets
      into the repository. */
  method UpdateDesired(repo: Repository, deviceId: string, patch: MapNode, now: int,
                       ghost p: Fields, ghost s: set<object>)
    requires repo.Valid() && HoldsMap(patch, p, s) && deviceId != ""
    requires forall d :: d in repo.twins ==> repo.twins[d].deviceId == d
    modifies repo
    ensures repo.Valid() && fresh(repo.nodes - old(repo.nodes))
    ensures repo.twins == TwinService.Step(old(repo.twins), TwinService.UpdateDesired(deviceId, p), now)
  {
    TwinService.StepOfUpdate(repo.twins, deviceId, p, now);
    var document;
    ghost var twin, t;
    document, twin, t := MergedDocument(repo, deviceId, patch, now, p, s);
    repo.Save(document, twin, t);
  }

  /** The document to save: its desired map may share nodes with the patch. */
  method MergedDocument(repo: Repository, deviceId: string, patch: MapNode, now: int,
                        ghost p: Fields, ghost s: set<object>)
    returns (document: Document, ghost twin: TwinService.TwinDocument, ghost t: set<object>)
    requires repo.Valid() && HoldsMap(patch, p, s)
    ensures var before := TwinService.DocumentAt(repo.twins, deviceId, now);
            twin == before.(desiredState := Merge(before.desiredState, p), version := before.version + 1,
                            updatedAt := now)
    ensures HoldsTwin(document, twin, t)
  {
    twin := TwinService.DocumentAt(repo.twins, deviceId, now);
    document, t := Load(repo, deviceId, now);
    var merged;
    ghost var u;
    TwinInLarger(document, twin, t, s + t);
    HoldsInLarger(MapRef(patch), Object(p), s, s + t);
    merged, u := MergeMaps(document.desired, patch, twin.desiredState, p, s + t);
    HoldsInLarger(MapRef(document.reported), Object(twin.reportedState), s + t, s + t + u);
    t := s + t + u;
    document := document.(desired := merged, version := document.version + 1, updatedAt := now);
    twin := twin.(desiredState := Merge(twin.desiredState, p), version := twin.version + 1, updatedAt := now);
  }

  /** The service's `Get`: the stored document, or a new empty one. */
  method Load(repo: Repository, deviceId: string, now: int) returns (document: Document, ghost t: set<object>)
    requires repo.Valid()
    ensures HoldsTwin(document, TwinService.DocumentAt(repo.twins, deviceId, now), t) && fresh(t)
  {
    var r;
    r, t := repo.Get(deviceId);
    if r.Ok? {
      return r.value, t;
    }
    var desired := new MapNode(map[]);
    var reported := new MapNode(map[]);
    document, t := Document(deviceId, desired, reported, 0, now), {desired, reported};
  }

  /** So a caller that goes on writing into its patch, or into anything else outside the repository,
      changes nothing that is stored. */
  method PatchesAreIsolated(repo: Repository, deviceId: string, patch: MapNode, now: int,
                            ghost p: Fields, ghost s: set<object>, ghost theirs: set<object>)
    requires repo.Valid() && HoldsMap(patch, p, s) && deviceId != "" && theirs !! {repo} + repo.nodes
    requires forall d :: d in repo.twins ==> repo.twins[d].deviceId == d
    modifies repo, theirs
    ensures repo.Valid()
    ensures repo.twins == TwinService.Step(old(repo.twins), TwinService.UpdateDesired(deviceId, p), now)
  {
    UpdateDesired(repo, deviceId, patch, now, p, s);
    assert theirs !! repo.nodes;
    Scribble(theirs);
  }
}
