/** The reported side of a diff: what its entries say about both states, and how they undo it. */
module TwinUndo {
  import opened Sequences
  import opened TwinState
  import opened TwinDiff
  import opened TwinPatch

  // ----- every entry quotes both states -----

  /** The value a path leads to, nil where it leads nowhere. */
  function ValueAt(f: Fields, p: seq<string>): Value
    decreases |p|
  {
    if p == [] || p[0] !in f then Null
    else if |p| == 1 then f[p[0]]
    else if f[p[0]].Object? then ValueAt(f[p[0]].fields, p[1..])
    else Null
  }

  /** The entry lies below `path` and quotes d and r, the maps found there. */
  ghost predicate Quotes(e: StateDiff, path: seq<string>, d: Fields, r: Fields) {
    && path <= e.path && |path| < |e.path| && e.property == Last(e.path)
    && e.desired == ValueAt(d, e.path[|path|..]) && e.reported == ValueAt(r, e.path[|path|..])
  }

  ghost predicate AllQuote(es: seq<StateDiff>, path: seq<string>, d: Fields, r: Fields) {
    forall e :: e in es ==> Quotes(e, path, d, r)
  }

  lemma QuoteOne(path: seq<string>, k: string, d: Fields, r: Fields)
    ensures Quotes(StateDiff(k, path + [k], Lookup(d, k), Lookup(r, k)), path, d, r)
  {
    assert (path + [k])[|path|..] == [k];
  }

  lemma QuotesFromBelow(es: seq<StateDiff>, path: seq<string>, k: string, d: Fields, r: Fields)
    requires k in d && k in r && d[k].Object? && r[k].Object? && AllQuote(es, path + [k], d[k].fields, r[k].fields)
    ensures AllQuote(es, path, d, r)
  {
    forall e | e in es ensures Quotes(e, path, d, r) {
      var p := e.path[|path|..];
      assert path <= path + [k] <= e.path;
      assert p[0] == (path + [k])[|path|] == k && p[1..] == e.path[|path + [k]|..];
    }
  }

  lemma {:induction false} KeyQuotes(path: seq<string>, k: string, d: Value, r: Value)
    requires d.Object? && r.Object?
    ensures AllQuote(DiffKey(path, k, d, r), path, d.fields, r.fields)
    decreases d, 0
  {
    if Nested(k, d.fields, r.fields) {
      var dk, rk := d.fields[k], r.fields[k];
      var keys := SortedKeys(dk.fields.Keys + rk.fields.Keys);
      KeysQuote(path + [k], keys, dk, rk);
      QuotesFromBelow(DiffKeys(path + [k], keys, dk, rk), path, k, d.fields, r.fields);
    } else {
      LeafEntry(path, k, d, r);
      QuoteOne(path, k, d.fields, r.fields);
    }
  }

  lemma {:induction false} KeysQuote(path: seq<string>, keys: seq<string>, d: Value, r: Value)
    requires d.Object? && r.Object?
    ensures AllQuote(DiffKeys(path, keys, d, r), path, d.fields, r.fields)
    decreases d, 1, |keys|
  {
    if keys != [] {
      KeysQuote(path, keys[..|keys| - 1], d, r);
      KeyQuotes(path, Last(keys), d, r);
    }
  }

  lemma TopKeyQuotes(k: string, d: Fields, r: Fields)
    ensures AllQuote(TopKey(k, d, r), [], d, r)
  {
    assert [] + [k] == [k];
    if k in d && k in r {
      KeyQuotes([], k, Object(d), Object(r));
    } else {
      QuoteOne([], k, d, r);
    }
  }

  lemma {:induction false} TopKeysQuote(keys: seq<string>, d: Fields, r: Fields)
    ensures AllQuote(TopKeys(keys, d, r), [], d, r)
  {
    if keys != [] {
      TopKeysQuote(keys[..|keys| - 1], d, r);
      TopKeyQuotes(Last(keys), d, r);
    }
  }

  /** Every entry is named after its last key and quotes what both states hold at its path. */
  lemma EntriesQuoteBothStates(d: Fields, r: Fields, e: StateDiff)
    requires e in Diff(d, r)
    ensures e.path != [] && e.property == Last(e.path)
    ensures e.desired == ValueAt(d, e.path) && e.reported == ValueAt(r, e.path)
  {
    TopKeysQuote(SortedKeys(d.Keys + r.Keys), d, r);
    assert e.path[0..] == e.path;
  }

  // ----- undoing -----

  function Swap(e: StateDiff): StateDiff { e.(desired := e.reported, reported := e.desired) }

  /** The entries read the other way round. */
  ghost function Swapped(es: seq<StateDiff>): seq<StateDiff> { Map(es, Swap) }

  lemma SwappedConcat(es: seq<StateDiff>, fs: seq<StateDiff>)
    ensures Swapped(es + fs) == Swapped(es) + Swapped(fs)
  {
    MapConcat(es, fs, Swap);
  }

  lemma {:induction false} MirrorValue(property: string, path: seq<string>, d: Value, r: Value)
    ensures DiffValue(property, path, r, d) == Swapped(DiffValue(property, path, d, r))
    decreases d, 1
  {
    if d != r && d.Object? && r.Object? {
      assert d.fields.Keys + r.fields.Keys == r.fields.Keys + d.fields.Keys;
      MirrorKeys(path, SortedKeys(d.fields.Keys + r.fields.Keys), d, r);
    }
  }

  lemma {:induction false} MirrorKeys(path: seq<string>, keys: seq<string>, d: Value, r: Value)
    requires d.Object? && r.Object?
    ensures DiffKeys(path, keys, r, d) == Swapped(DiffKeys(path, keys, d, r))
    decreases d, 0, |keys|
  {
    if keys != [] {
      var before, k := keys[..|keys| - 1], Last(keys);
      MirrorKeys(path, before, d, r);
      if k in d.fields && k in r.fields {
        MirrorValue(k, path + [k], d.fields[k], r.fields[k]);
      }
      assert DiffKey(path, k, r, d) == Swapped(DiffKey(path, k, d, r));
      SwappedConcat(DiffKeys(path, before, d, r), DiffKey(path, k, d, r));
    }
  }

  lemma {:induction false} MirrorTopKeys(keys: seq<string>, d: Fields, r: Fields)
    ensures TopKeys(keys, r, d) == Swapped(TopKeys(keys, d, r))
  {
    if keys != [] {
      var before, k := keys[..|keys| - 1], Last(keys);
      MirrorTopKeys(before, d, r);
      if k in d && k in r {
        MirrorValue(k, [k], d[k], r[k]);
      }
      assert TopKey(k, r, d) == Swapped(TopKey(k, d, r));
      SwappedConcat(TopKeys(before, d, r), TopKey(k, d, r));
    }
  }

  /** The diff of the exchanged states is the diff read the other way round. */
  lemma DiffMirrors(d: Fields, r: Fields)
    ensures Diff(r, d) == Swapped(Diff(d, r))
  {
    assert d.Keys + r.Keys == r.Keys + d.Keys;
    MirrorTopKeys(SortedKeys(d.Keys + r.Keys), d, r);
  }

  /** Undo: writing the reported values into the desired state, at the paths of the diff, gives back
      the reported state, up to map entries that hold nil; without nil, exactly. */
  lemma DiffUndoes(d: Fields, r: Fields)
    ensures Deeper(0, Swapped(Diff(d, r)))
    ensures Strip(Object(Apply(d, Swapped(Diff(d, r))))) == Strip(Object(r))
    ensures NullFree(Object(d)) && NullFree(Object(r)) ==> Apply(d, Swapped(Diff(d, r))) == r
  {
    DiffMirrors(d, r);
    DiffIsPatch(r, d);
    if NullFree(Object(d)) && NullFree(Object(r)) {
      DiffIsExactPatch(r, d);
    }
  }
}
