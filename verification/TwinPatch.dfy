/** The diff read as a patch: applying it to the reported state yields the desired state. */
module TwinPatch {
  import opened Sequences
  import opened TwinState
  import opened TwinDiff
  import Strings

  // ----- equality up to nil -----

  /** A tree without the map entries that hold nil; arrays are compared as they are. */
  function Strip(v: Value): Value {
    if v.Object? then Object(map k | k in v.fields && v.fields[k] != Null :: Strip(v.fields[k])) else v
  }

  predicate NullFree(v: Value) {
    v.Object? ==> forall k :: k in v.fields ==> v.fields[k] != Null && NullFree(v.fields[k])
  }

  lemma {:induction false} NullFreeIsStripped(v: Value)
    requires NullFree(v)
    ensures Strip(v) == v
  {
    if v.Object? {
      forall k | k in v.fields ensures Strip(v.fields[k]) == v.fields[k] {
        NullFreeIsStripped(v.fields[k]);
      }
    }
  }

  /** Two maps are equal up to nil when every key reads the same up to nil. */
  lemma StripByKeys(f: Fields, g: Fields)
    ensures Strip(Object(f)) == Strip(Object(g)) <==> forall k :: Strip(Lookup(f, k)) == Strip(Lookup(g, k))
  {
    var sf, sg := Strip(Object(f)).fields, Strip(Object(g)).fields;
    forall k
      ensures k in sf <==> Strip(Lookup(f, k)) != Null
      ensures k in sf ==> sf[k] == Strip(Lookup(f, k))
      ensures k in sg <==> Strip(Lookup(g, k)) != Null
      ensures k in sg ==> sg[k] == Strip(Lookup(g, k))
    {
    }
    if forall k :: Strip(Lookup(f, k)) == Strip(Lookup(g, k)) {
      assert forall k :: k in sf <==> k in sg;
    }
  }

  // ----- emptiness -----

  lemma {:induction false} NoDiffKeys(path: seq<string>, keys: seq<string>, d: Value, r: Value)
    requires d.Object? && r.Object?
    ensures DiffKeys(path, keys, d, r) == [] <==> forall k :: k in keys ==> DiffKey(path, k, d, r) == []
  {
    if keys != [] {
      NoDiffKeys(path, keys[..|keys| - 1], d, r);
      SplitLast(keys);
      assert DiffKeys(path, keys, d, r) == DiffKeys(path, keys[..|keys| - 1], d, r) + DiffKey(path, Last(keys), d, r);
      assert DiffKeys(path, keys, d, r) == [] <==>
             DiffKeys(path, keys[..|keys| - 1], d, r) == [] && DiffKey(path, Last(keys), d, r) == [];
    }
  }

  /** A pair of values yields no entry if and only if they are equal up to nil. */
  lemma {:induction false} NoDiffIffSame(property: string, path: seq<string>, d: Value, r: Value)
    ensures DiffValue(property, path, d, r) == [] <==> Strip(d) == Strip(r)
    decreases d
  {
    if d.Object? && r.Object? {
      NoDiffKeys(path, SortedKeys(d.fields.Keys + r.fields.Keys), d, r);
      StripByKeys(d.fields, r.fields);
      forall k ensures DiffKey(path, k, d, r) == [] <==> Strip(Lookup(d.fields, k)) == Strip(Lookup(r.fields, k)) {
        if k in d.fields && k in r.fields {
          NoDiffIffSame(k, path + [k], d.fields[k], r.fields[k]);
        }
      }
      assert forall k :: k !in d.fields.Keys + r.fields.Keys ==> Lookup(d.fields, k) == Lookup(r.fields, k);
    }
  }

  lemma {:induction false} NoTopKeys(keys: seq<string>, d: Fields, r: Fields)
    ensures TopKeys(keys, d, r) == [] <==> forall k :: k in keys ==> TopKey(k, d, r) == []
  {
    if keys != [] {
      NoTopKeys(keys[..|keys| - 1], d, r);
      SplitLast(keys);
    }
  }

  /** Desired and reported are in sync if and only if they have the same top-level keys and agree
      below them up to nil. */
  lemma DiffEmptyIffInSync(d: Fields, r: Fields)
    ensures Diff(d, r) == [] <==> d.Keys == r.Keys && forall k :: k in d ==> Strip(d[k]) == Strip(r[k])
  {
    NoTopKeys(SortedKeys(d.Keys + r.Keys), d, r);
    forall k | k in d && k in r ensures TopKey(k, d, r) == [] <==> Strip(d[k]) == Strip(r[k]) {
      NoDiffIffSame(k, [k], d[k], r[k]);
    }
    if Diff(d, r) == [] {
      forall k ensures k in d <==> k in r {
        assert k in d || k in r ==> TopKey(k, d, r) == [];
      }
    }
  }

  /** Without nil, the diff is empty if and only if the trees are equal. */
  lemma DiffEmptyIffEqual(d: Fields, r: Fields)
    requires NullFree(Object(d)) && NullFree(Object(r))
    ensures Diff(d, r) == [] <==> d == r
  {
    DiffEmptyIffInSync(d, r);
    forall k | k in d && k in r ensures Strip(d[k]) == d[k] && Strip(r[k]) == r[k] {
      NullFreeIsStripped(d[k]);
      NullFreeIsStripped(r[k]);
    }
  }

  /** An explicit nil against a missing key: listed at the top level, and not below it. */
  lemma NestedNilIsMissed(a: string, x: string)
    ensures Diff(map[a := Null], map[]) != []
    ensures var d, r: Fields := map[a := Object(map[x := Null])], map[a := Object(map[])];
            Diff(d, r) == [] && d != r
  {
    DiffEmptyIffInSync(map[a := Null], map[]);
    assert a in map[a := Null];
    var d, r: Fields := map[a := Object(map[x := Null])], map[a := Object(map[])];
    assert Strip(d[a]) == Object(map[]) == Strip(r[a]);
    assert x in d[a].fields && x !in r[a].fields;
    DiffEmptyIffInSync(d, r);
  }

  lemma AddedNilIsInvisible(v: Value) returns (w: Value)
    requires v.Object?
    ensures w != v && Strip(w) == Strip(v)
  {
    var x := FreshKey(v.fields.Keys);
    w := Object(v.fields[x := Null]);
    assert x in w.fields && x !in v.fields;
    StripByKeys(w.fields, v.fields);
  }

  /** Whatever the device reports, an empty diff means that it reports exactly the desired state, if
      and only if no value of the desired state is a map. */
  lemma EmptyMeansEqualIffFlat(d: Fields)
    ensures (forall r: Fields :: Diff(d, r) == [] ==> r == d) <==> forall k :: k in d ==> !d[k].Object?
  {
    if k :| k in d && d[k].Object? {
      var r := SilentlyDifferent(d, k);
    } else {
      forall r: Fields | Diff(d, r) == [] ensures r == d {
        FlatInSyncIsEqual(d, r);
      }
    }
  }

  lemma SilentlyDifferent(d: Fields, k: string) returns (r: Fields)
    requires k in d && d[k].Object?
    ensures Diff(d, r) == [] && r != d
  {
    var w := AddedNilIsInvisible(d[k]);
    r := d[k := w];
    DiffEmptyIffInSync(d, r);
    assert r[k] != d[k];
  }

  lemma FlatInSyncIsEqual(d: Fields, r: Fields)
    requires Diff(d, r) == [] && forall k :: k in d ==> !d[k].Object?
    ensures r == d
  {
    DiffEmptyIffInSync(d, r);
  }

  // ----- where the entries point -----

  /** a and b share a prefix and then part at keys in ascending order; neither is a prefix of the other. */
  predicate Parts(a: seq<string>, b: seq<string>) {
    a != [] && b != [] && (Strings.Less(a[0], b[0]) || (a[0] == b[0] && Parts(a[1..], b[1..])))
  }

  lemma {:induction false} PartsIsNoPrefix(a: seq<string>, b: seq<string>)
    requires Parts(a, b)
    ensures !(a <= b) && !(b <= a)
  {
    if a[0] == b[0] && Parts(a[1..], b[1..]) {
      PartsIsNoPrefix(a[1..], b[1..]);
      PrefixTail(a, b);
      PrefixTail(b, a);
    } else {
      Strings.LessIrreflexive(a[0]);
    }
  }

  lemma {:induction false} PartsBelow(p: seq<string>, a: seq<string>, b: seq<string>)
    requires p <= a && p <= b && Parts(a[|p|..], b[|p|..])
    ensures Parts(a, b)
  {
    if p != [] {
      assert a[1..][|p[1..]|..] == a[|p|..] && b[1..][|p[1..]|..] == b[|p|..];
      PartsBelow(p[1..], a[1..], b[1..]);
    }
  }

  ghost predicate Under(es: seq<StateDiff>, path: seq<string>) {
    forall e :: e in es ==> path <= e.path
  }

  ghost predicate Separated(es: seq<StateDiff>) {
    forall i, j :: 0 <= i < j < |es| ==> Parts(es[i].path, es[j].path)
  }

  /** Every path continues with one of the keys. */
  ghost predicate BelowKeys(es: seq<StateDiff>, path: seq<string>, keys: seq<string>) {
    forall e :: e in es ==> exists j :: j in keys && path + [j] <= e.path
  }

  lemma BelowKeysIsUnder(es: seq<StateDiff>, path: seq<string>, keys: seq<string>)
    requires BelowKeys(es, path, keys)
    ensures Under(es, path)
  {
    forall e | e in es ensures path <= e.path {
      var j: string :| path + [j] <= e.path;
    }
  }

  /** Entries below ascending keys stay separated when they are put together. */
  lemma SeparatedConcat(path: seq<string>, keys: seq<string>, k: string, es: seq<StateDiff>, fs: seq<StateDiff>)
    requires Separated(es) && Separated(fs) && Under(fs, path + [k]) && BelowKeys(es, path, keys)
    requires forall j :: j in keys ==> Strings.Less(j, k)
    ensures Separated(es + fs)
  {
    forall a, b | a in es && b in fs ensures Parts(a.path, b.path) {
      var j :| j in keys && path + [j] <= a.path;
      assert a.path[|path|] == j && b.path[|path|] == k;
      assert path <= a.path && path <= b.path;
      PartsBelow(path, a.path, b.path);
    }
  }

  lemma BelowKeysConcat(path: seq<string>, keys: seq<string>, es: seq<StateDiff>, fs: seq<StateDiff>)
    requires keys != [] && BelowKeys(es, path, keys[..|keys| - 1]) && Under(fs, path + [Last(keys)])
    ensures BelowKeys(es + fs, path, keys)
  {
    SplitLast(keys);
    forall e | e in es + fs ensures exists j :: j in keys && path + [j] <= e.path {
      if e in es {
        var j :| j in keys[..|keys| - 1] && path + [j] <= e.path;
        assert j in keys;
      } else {
        assert e in fs && Last(keys) in keys;
      }
    }
  }

  /** The entries of one more key. */
  lemma SeparatedSnoc(path: seq<string>, keys: seq<string>, es: seq<StateDiff>, fs: seq<StateDiff>)
    requires keys != [] && Ascending(keys) && Separated(es) && BelowKeys(es, path, keys[..|keys| - 1])
    requires Separated(fs) && Under(fs, path + [Last(keys)])
    ensures Separated(es + fs) && BelowKeys(es + fs, path, keys)
  {
    SeparatedConcat(path, keys[..|keys| - 1], Last(keys), es, fs);
    BelowKeysConcat(path, keys, es, fs);
  }

  lemma {:induction false} DiffValueSeparated(property: string, path: seq<string>, d: Value, r: Value)
    ensures var es := DiffValue(property, path, d, r); Separated(es) && Under(es, path)
    decreases d, 1
  {
    if d != r && d.Object? && r.Object? {
      var keys := SortedKeys(d.fields.Keys + r.fields.Keys);
      DiffKeysSeparated(path, keys, d, r);
      BelowKeysIsUnder(DiffKeys(path, keys, d, r), path, keys);
    }
  }

  lemma {:induction false} DiffKeysSeparated(path: seq<string>, keys: seq<string>, d: Value, r: Value)
    requires d.Object? && r.Object? && Ascending(keys)
    ensures Separated(DiffKeys(path, keys, d, r)) && BelowKeys(DiffKeys(path, keys, d, r), path, keys)
    decreases d, 0, |keys|
  {
    if keys != [] {
      var before, k := keys[..|keys| - 1], Last(keys);
      DiffKeysSeparated(path, before, d, r);
      if k in d.fields && k in r.fields {
        DiffValueSeparated(k, path + [k], d.fields[k], r.fields[k]);
      }
      SeparatedSnoc(path, keys, DiffKeys(path, before, d, r), DiffKey(path, k, d, r));
    }
  }

  lemma TopKeySeparated(k: string, d: Fields, r: Fields)
    ensures Separated(TopKey(k, d, r)) && Under(TopKey(k, d, r), [] + [k])
  {
    assert [] + [k] == [k];
    if k in d && k in r {
      DiffValueSeparated(k, [k], d[k], r[k]);
    }
  }

  lemma {:induction false} TopKeysSeparated(keys: seq<string>, d: Fields, r: Fields)
    requires Ascending(keys)
    ensures Separated(TopKeys(keys, d, r)) && BelowKeys(TopKeys(keys, d, r), [], keys)
  {
    if keys != [] {
      var before, k := keys[..|keys| - 1], Last(keys);
      TopKeysSeparated(before, d, r);
      TopKeySeparated(k, d, r);
      SeparatedSnoc([], keys, TopKeys(before, d, r), TopKey(k, d, r));
    }
  }

  /** The paths of a diff are listed in strictly ascending order and none is a prefix of another. */
  lemma DiffPathsSeparated(d: Fields, r: Fields)
    ensures Separated(Diff(d, r))
    ensures forall i, j :: 0 <= i < |Diff(d, r)| && 0 <= j < |Diff(d, r)| && i != j
              ==> !(Diff(d, r)[i].path <= Diff(d, r)[j].path)
  {
    var es := Diff(d, r);
    TopKeysSeparated(SortedKeys(d.Keys + r.Keys), d, r);
    forall i, j | 0 <= i < j < |es| ensures !(es[i].path <= es[j].path) && !(es[j].path <= es[i].path) {
      PartsIsNoPrefix(es[i].path, es[j].path);
    }
  }

  // ----- applying a diff -----

  /** Overwrites the value at path p below f, or deletes it when there is nothing to write. */
  function SetAt(f: Fields, p: seq<string>, v: Value): Fields
    requires p != []
    decreases |p|
  {
    if |p| == 1 then if v == Null then f - {p[0]} else f[p[0] := v]
    else if p[0] in f && f[p[0]].Object? then f[p[0] := Object(SetAt(f[p[0]].fields, p[1..], v))]
    else f
  }

  /** Every path goes more than n keys deep. */
  ghost predicate Deeper(n: nat, es: seq<StateDiff>) { forall e :: e in es ==> |e.path| > n }

  /** Entries applied in order to the map that sits n keys deep on their paths. */
  ghost function ApplyAt(n: nat, f: Fields, es: seq<StateDiff>): Fields
    requires Deeper(n, es)
    decreases |es|
  {
    if es == [] then f
    else
      SplitLast(es);
      SetAt(ApplyAt(n, f, es[..|es| - 1]), Last(es).path[n..], Last(es).desired)
  }

  lemma {:induction false} ApplyConcat(n: nat, f: Fields, es: seq<StateDiff>, fs: seq<StateDiff>)
    requires Deeper(n, es) && Deeper(n, fs)
    ensures Deeper(n, es + fs) && ApplyAt(n, f, es + fs) == ApplyAt(n, ApplyAt(n, f, es), fs)
    decreases |fs|
  {
    if fs == [] {
      assert es + fs == es;
    } else {
      SplitLast(fs);
      ApplyConcat(n, f, es, fs[..|fs| - 1]);
      ConcatButLast(es, fs);
    }
  }

  /** Entries that all go through key k change nothing but the map below k. */
  lemma {:induction false} ApplyBelow(path: seq<string>, k: string, f: Fields, es: seq<StateDiff>)
    requires k in f && f[k].Object? && Under(es, path + [k]) && Deeper(|path| + 1, es)
    ensures Deeper(|path|, es)
    ensures ApplyAt(|path|, f, es) == f[k := Object(ApplyAt(|path| + 1, f[k].fields, es))]
    decreases |es|
  {
    if es != [] {
      SplitLast(es);
      ApplyBelow(path, k, f, es[..|es| - 1]);
      var p := Last(es).path;
      assert p[|path|] == k && p[|path|..][1..] == p[|path| + 1..];
    }
  }

  /** f reads like d at k, up to nil. */
  ghost predicate Patched(f: Fields, d: Fields, k: string) { Strip(Lookup(f, k)) == Strip(Lookup(d, k)) }

  ghost predicate SameAt(f: Fields, g: Fields, k: string) { (k in f <==> k in g) && (k in f ==> f[k] == g[k]) }

  /** From f to g only key k changes, and it now reads as in d. */
  ghost predicate PatchesKey(f: Fields, g: Fields, d: Fields, k: string) {
    Patched(g, d, k) && forall j :: j != k ==> SameAt(f, g, j)
  }

  ghost predicate PatchesKeys(r: Fields, g: Fields, d: Fields, keys: seq<string>) {
    && (forall k :: k in keys ==> Patched(g, d, k))
    && (forall k :: k !in keys ==> SameAt(g, r, k))
  }

  lemma OneMoreKey(r: Fields, f: Fields, g: Fields, d: Fields, keys: seq<string>)
    requires keys != [] && PatchesKeys(r, f, d, keys[..|keys| - 1]) && PatchesKey(f, g, d, Last(keys))
    ensures PatchesKeys(r, g, d, keys)
  {
    SplitLast(keys);
    forall k | k !in keys ensures SameAt(g, r, k) {
      assert SameAt(f, g, k) && SameAt(f, r, k);
    }
    forall k | k in keys ensures Patched(g, d, k) {
      assert k == Last(keys) || (Patched(f, d, k) && SameAt(f, g, k));
    }
  }

  lemma {:induction false} DiffDeeper(path: seq<string>, keys: seq<string>, d: Value, r: Value)
    requires d.Object? && r.Object? && Ascending(keys)
    ensures Deeper(|path|, DiffKeys(path, keys, d, r))
  {
    DiffKeysSeparated(path, keys, d, r);
  }

  /** Patched on the keys of both sides is patched altogether. */
  lemma PatchedOnAllKeys(r: Fields, g: Fields, d: Fields, keys: seq<string>)
    requires PatchesKeys(r, g, d, keys) && forall k :: k in keys <==> k in d || k in r
    ensures Strip(Object(g)) == Strip(Object(d))
  {
    forall k ensures Strip(Lookup(g, k)) == Strip(Lookup(d, k)) {
      assert if k in keys then Patched(g, d, k) else SameAt(g, r, k);
    }
    StripByKeys(g, d);
  }

  /** A single entry for a key writes or deletes it. */
  lemma ApplyOne(path: seq<string>, k: string, f: Fields, e: StateDiff)
    requires e.path == path + [k]
    ensures Deeper(|path|, [e]) && ApplyAt(|path|, f, [e]) == if e.desired == Null then f - {k} else f[k := e.desired]
  {
    assert [e][..0] == [] && e.path[|path|..] == [k];
  }

  /** The entries for one key turn what the key reads as into the desired value, and touch no
      other key. */
  lemma {:induction false} ApplyKey(path: seq<string>, k: string, d: Value, r: Value, f: Fields)
    requires d.Object? && r.Object? && SameAt(f, r.fields, k)
    ensures Deeper(|path|, DiffKey(path, k, d, r))
    ensures PatchesKey(f, ApplyAt(|path|, f, DiffKey(path, k, d, r)), d.fields, k)
    decreases d, 0
  {
    if Nested(k, d.fields, r.fields) {
      var dk, rk := d.fields[k], r.fields[k];
      var keys := SortedKeys(dk.fields.Keys + rk.fields.Keys);
      DiffValueSeparated(k, path + [k], dk, rk);
      ApplyKeys(path + [k], keys, dk, rk);
      ApplyNested(path, k, f, rk.fields, dk.fields, DiffKeys(path + [k], keys, dk, rk), keys);
    } else {
      ApplyLeaf(path, k, d, r, f);
    }
  }

  /** Entries that patch the map below k patch k. */
  lemma ApplyNested(path: seq<string>, k: string, f: Fields, rk: Fields, dk: Fields, es: seq<StateDiff>,
                    keys: seq<string>)
    requires k in f && f[k] == Object(rk) && Under(es, path + [k]) && Deeper(|path| + 1, es)
    requires PatchesKeys(rk, ApplyAt(|path| + 1, rk, es), dk, keys) && forall j :: j in keys <==> j in dk || j in rk
    ensures Deeper(|path|, es)
    ensures forall d: Fields :: k in d && d[k] == Object(dk) ==> PatchesKey(f, ApplyAt(|path|, f, es), d, k)
  {
    ApplyBelow(path, k, f, es);
    PatchedOnAllKeys(rk, ApplyAt(|path| + 1, rk, es), dk, keys);
  }

  /** The two values of a key differ and are both maps. */
  predicate Nested(k: string, d: Fields, r: Fields) {
    k in d && k in r && d[k] != r[k] && d[k].Object? && r[k].Object?
  }

  lemma LeafEntry(path: seq<string>, k: string, d: Value, r: Value)
    requires d.Object? && r.Object? && !Nested(k, d.fields, r.fields)
    ensures var dk, rk := Lookup(d.fields, k), Lookup(r.fields, k);
            DiffKey(path, k, d, r) == if dk == rk then [] else [StateDiff(k, path + [k], dk, rk)]
  {
  }

  lemma WriteOrDelete(f: Fields, d: Fields, k: string)
    ensures PatchesKey(f, if Lookup(d, k) == Null then f - {k} else f[k := Lookup(d, k)], d, k)
  {
  }

  /** A key whose two values are not both maps is overwritten or deleted as a whole. */
  lemma ApplyLeaf(path: seq<string>, k: string, d: Value, r: Value, f: Fields)
    requires d.Object? && r.Object? && SameAt(f, r.fields, k) && !Nested(k, d.fields, r.fields)
    ensures Deeper(|path|, DiffKey(path, k, d, r))
    ensures PatchesKey(f, ApplyAt(|path|, f, DiffKey(path, k, d, r)), d.fields, k)
  {
    var dk, rk := Lookup(d.fields, k), Lookup(r.fields, k);
    LeafEntry(path, k, d, r);
    if dk != rk {
      ApplyOne(path, k, f, StateDiff(k, path + [k], dk, rk));
      WriteOrDelete(f, d.fields, k);
    }
  }

  lemma LastIsNew(keys: seq<string>)
    requires keys != [] && Ascending(keys)
    ensures Last(keys) !in keys[..|keys| - 1]
  {
    Strings.LessIrreflexive(Last(keys));
  }

  /** The entries for a list of keys patch those keys and leave the others alone. */
  lemma {:induction false} ApplyKeys(path: seq<string>, keys: seq<string>, d: Value, r: Value)
    requires d.Object? && r.Object? && Ascending(keys)
    ensures Deeper(|path|, DiffKeys(path, keys, d, r))
    ensures PatchesKeys(r.fields, ApplyAt(|path|, r.fields, DiffKeys(path, keys, d, r)), d.fields, keys)
    decreases d, 1, |keys|
  {
    DiffDeeper(path, keys, d, r);
    if keys != [] {
      var before, k := keys[..|keys| - 1], Last(keys);
      SplitLast(keys);
      ApplyKeys(path, before, d, r);
      var f := ApplyAt(|path|, r.fields, DiffKeys(path, before, d, r));
      LastIsNew(keys);
      ApplyKey(path, k, d, r, f);
      ApplyConcat(|path|, r.fields, DiffKeys(path, before, d, r), DiffKey(path, k, d, r));
      OneMoreKey(r.fields, f, ApplyAt(|path|, f, DiffKey(path, k, d, r)), d.fields, keys);
    }
  }

  /** The top level differs only in listing keys missing on one side even against nil. */
  lemma ApplyTopKey(k: string, d: Fields, r: Fields, f: Fields)
    requires SameAt(f, r, k)
    ensures Deeper(0, TopKey(k, d, r))
    ensures PatchesKey(f, ApplyAt(0, f, TopKey(k, d, r)), d, k)
  {
    ApplyKey([], k, Object(d), Object(r), f);
    assert [] + [k] == [k];
    var es := TopKey(k, d, r);
    if es != [] && !(k in d && k in r) {
      ApplyOne([], k, f, es[0]);
      assert es == [es[0]];
    }
  }

  lemma {:induction false} ApplyTopKeys(keys: seq<string>, d: Fields, r: Fields)
    requires Ascending(keys)
    ensures Deeper(0, TopKeys(keys, d, r))
    ensures PatchesKeys(r, ApplyAt(0, r, TopKeys(keys, d, r)), d, keys)
  {
    if keys != [] {
      var before, k := keys[..|keys| - 1], Last(keys);
      SplitLast(keys);
      LastIsNew(keys);
      ApplyTopKeys(before, d, r);
      var f := ApplyAt(0, r, TopKeys(before, d, r));
      ApplyTopKey(k, d, r, f);
      ApplyConcat(0, r, TopKeys(before, d, r), TopKey(k, d, r));
      OneMoreKey(r, f, ApplyAt(0, f, TopKey(k, d, r)), d, keys);
    }
  }

  /** The reported state after every entry of the diff has been applied to it. */
  ghost function Apply(f: Fields, es: seq<StateDiff>): Fields
    requires Deeper(0, es)
  {
    ApplyAt(0, f, es)
  }

  /** The diff is a correct patch: applied to the reported state it gives the desired state, up to
      map entries that hold nil. */
  lemma DiffIsPatch(d: Fields, r: Fields)
    ensures Deeper(0, Diff(d, r))
    ensures Strip(Object(Apply(r, Diff(d, r)))) == Strip(Object(d))
  {
    var keys := SortedKeys(d.Keys + r.Keys);
    ApplyTopKeys(keys, d, r);
    var g := Apply(r, Diff(d, r));
    forall k ensures Strip(Lookup(g, k)) == Strip(Lookup(d, k)) {
      if k in keys {
        assert Patched(g, d, k);
      } else {
        assert SameAt(g, r, k);
      }
    }
    StripByKeys(g, d);
  }

  // ----- without nil the patch is exact -----

  lemma {:induction false} SetAtNullFree(f: Fields, p: seq<string>, v: Value)
    requires p != [] && NullFree(Object(f)) && NullFree(v)
    ensures NullFree(Object(SetAt(f, p, v)))
    decreases |p|
  {
    if |p| > 1 && p[0] in f && f[p[0]].Object? {
      SetAtNullFree(f[p[0]].fields, p[1..], v);
    }
  }

  ghost predicate NullFreeDesired(es: seq<StateDiff>) { forall e :: e in es ==> NullFree(e.desired) }

  lemma {:induction false} ApplyNullFree(f: Fields, es: seq<StateDiff>)
    requires Deeper(0, es) && NullFreeDesired(es) && NullFree(Object(f))
    ensures NullFree(Object(Apply(f, es)))
    decreases |es|
  {
    if es != [] {
      SplitLast(es);
      ApplyNullFree(f, es[..|es| - 1]);
      SetAtNullFree(Apply(f, es[..|es| - 1]), Last(es).path[0..], Last(es).desired);
    }
  }

  lemma {:induction false} ValueEntriesNullFree(property: string, path: seq<string>, d: Value, r: Value)
    requires NullFree(d)
    ensures NullFreeDesired(DiffValue(property, path, d, r))
    decreases d, 1
  {
    if d.Object? && r.Object? {
      KeyEntriesNullFree(path, SortedKeys(d.fields.Keys + r.fields.Keys), d, r);
    }
  }

  lemma {:induction false} KeyEntriesNullFree(path: seq<string>, keys: seq<string>, d: Value, r: Value)
    requires d.Object? && r.Object? && NullFree(d)
    ensures NullFreeDesired(DiffKeys(path, keys, d, r))
    decreases d, 0, |keys|
  {
    if keys != [] {
      KeyEntriesNullFree(path, keys[..|keys| - 1], d, r);
      var k := Last(keys);
      if k in d.fields && k in r.fields {
        ValueEntriesNullFree(k, path + [k], d.fields[k], r.fields[k]);
      }
    }
  }

  lemma {:induction false} TopEntriesNullFree(keys: seq<string>, d: Fields, r: Fields)
    requires NullFree(Object(d))
    ensures NullFreeDesired(TopKeys(keys, d, r))
  {
    if keys != [] {
      TopEntriesNullFree(keys[..|keys| - 1], d, r);
      var k := Last(keys);
      if k in d && k in r {
        ValueEntriesNullFree(k, [k], d[k], r[k]);
      }
    }
  }

  /** For trees without nil, applying the diff yields exactly the desired state. */
  lemma DiffIsExactPatch(d: Fields, r: Fields)
    requires NullFree(Object(d)) && NullFree(Object(r))
    ensures Deeper(0, Diff(d, r)) && Apply(r, Diff(d, r)) == d
  {
    DiffIsPatch(d, r);
    TopEntriesNullFree(SortedKeys(d.Keys + r.Keys), d, r);
    ApplyNullFree(r, Diff(d, r));
    NullFreeIsStripped(Object(Apply(r, Diff(d, r))));
    NullFreeIsStripped(Object(d));
  }

  // ----- convergence -----

  predicate Present(f: Fields, p: seq<string>)
    decreases |p|
  {
    p != [] && p[0] in f && (|p| == 1 || (f[p[0]].Object? && Present(f[p[0]].fields, p[1..])))
  }

  /** Every entry lies below `path`, at a place that d does not have. */
  ghost predicate OnlyUnknown(path: seq<string>, d: Fields, es: seq<StateDiff>) {
    forall e :: e in es ==> path <= e.path && !Present(d, e.path[|path|..]) && e.desired == Null
  }

  lemma {:induction false} UnknownBelow(path: seq<string>, k: string, d: Fields, es: seq<StateDiff>)
    requires k in d && d[k].Object? && OnlyUnknown(path + [k], d[k].fields, es) && Deeper(|path| + 1, es)
    ensures OnlyUnknown(path, d, es)
  {
    forall e | e in es ensures path <= e.path && !Present(d, e.path[|path|..]) {
      assert path <= path + [k] <= e.path;
      assert e.path[|path|] == k;
      assert e.path[|path|..][0] == k;
      assert e.path[|path|..][1..] == e.path[|path + [k]|..];
    }
  }

  lemma {:induction false} KeyConverges(path: seq<string>, k: string, d: Value, r: Value)
    requires d.Object? && r.Object?
    ensures OnlyUnknown(path, d.fields, DiffKey(path, k, d, MergeValue(r, d)))
    decreases d, 0
  {
    var m := MergeValue(r, d);
    MergeAt(r.fields, d.fields, k);
    if k in d.fields && k in r.fields && d.fields[k].Object? && r.fields[k].Object? {
      var dk, rk := d.fields[k], r.fields[k];
      var keys := SortedKeys(dk.fields.Keys + m.fields[k].fields.Keys);
      assert m.fields[k] == MergeValue(rk, dk);
      KeysConverge(path + [k], keys, dk, rk);
      DiffDeeper(path + [k], keys, dk, m.fields[k]);
      if dk != m.fields[k] {
        UnknownBelow(path, k, d.fields, DiffKeys(path + [k], keys, dk, m.fields[k]));
      }
    } else if k in d.fields {
      assert m.fields[k] == d.fields[k];
    } else {
      assert (path + [k])[|path|..] == [k];
    }
  }

  lemma {:induction false} KeysConverge(path: seq<string>, keys: seq<string>, d: Value, r: Value)
    requires d.Object? && r.Object?
    ensures OnlyUnknown(path, d.fields, DiffKeys(path, keys, d, MergeValue(r, d)))
    decreases d, 1, |keys|
  {
    if keys != [] {
      KeysConverge(path, keys[..|keys| - 1], d, r);
      KeyConverges(path, Last(keys), d, r);
    }
  }

  lemma {:induction false} TopKeysConverge(keys: seq<string>, d: Fields, r: Fields)
    ensures OnlyUnknown([], d, TopKeys(keys, d, Merge(r, d)))
  {
    if keys != [] {
      var k := Last(keys);
      TopKeysConverge(keys[..|keys| - 1], d, r);
      KeyConverges([], k, Object(d), Object(r));
      assert [] + [k] == [k] && [k][0..] == [k];
    }
  }

  /** Convergence: once a device has merged the desired state into what it reports, the diff lists
      only what the desired state does not mention. */
  lemma Convergence(d: Fields, r: Fields)
    ensures forall e :: e in Diff(d, Merge(r, d)) ==> !Present(d, e.path) && e.desired == Null
  {
    TopKeysConverge(SortedKeys(d.Keys + Merge(r, d).Keys), d, r);
    forall e | e in Diff(d, Merge(r, d)) ensures !Present(d, e.path) {
      assert e.path[0..] == e.path;
    }
  }

  /** What the device reports and nobody desires: a key missing from the desired map of which all the
      keys above it are maps on both sides.  Below the top level, an explicit nil counts as missing. */
  predicate Extra(d: Fields, r: Fields, p: seq<string>, top: bool)
    decreases |p|
  {
    p != []
    && if |p| == 1 then p[0] in r && p[0] !in d && (top || r[p[0]] != Null)
       else p[0] in d && p[0] in r && d[p[0]].Object? && r[p[0]].Object?
            && Extra(d[p[0]].fields, r[p[0]].fields, p[1..], false)
  }

  ghost predicate Lists(es: seq<StateDiff>, p: seq<string>) { exists e :: e in es && e.path == p }

  lemma ListsConcat(es: seq<StateDiff>, fs: seq<StateDiff>, p: seq<string>)
    ensures Lists(es + fs, p) <==> Lists(es, p) || Lists(fs, p)
  {
    if Lists(es, p) {
      var e :| e in es && e.path == p;
      assert e in es + fs;
    }
    if Lists(fs, p) {
      var e :| e in fs && e.path == p;
      assert e in es + fs;
    }
  }

  lemma ListsOne(e: StateDiff, p: seq<string>)
    ensures Lists([e], p) <==> e.path == p
  {
    if e.path == p {
      assert e in [e];
    }
  }

  lemma {:induction false} NoDiffWithItself(path: seq<string>, keys: seq<string>, d: Value)
    requires d.Object?
    ensures DiffKeys(path, keys, d, d) == []
  {
    if keys != [] {
      NoDiffWithItself(path, keys[..|keys| - 1], d);
      assert DiffKey(path, Last(keys), d, d) == [];
      assert DiffKeys(path, keys, d, d) == DiffKeys(path, keys[..|keys| - 1], d, d) + DiffKey(path, Last(keys), d, d);
    }
  }

  /** The entries for one key after merging: those for what is extra at or below it. */
  lemma {:induction false} KeyListsExtra(path: seq<string>, k: string, d: Value, r: Value, q: seq<string>)
    requires d.Object? && r.Object?
    ensures Lists(DiffKey(path, k, d, MergeValue(r, d)), path + q)
       <==> q != [] && q[0] == k && Extra(d.fields, r.fields, q, false)
    decreases d, 0
  {
    var m := MergeValue(r, d);
    MergeAt(r.fields, d.fields, k);
    if k in d.fields && k in r.fields && d.fields[k].Object? && r.fields[k].Object? {
      assert m.fields[k] == MergeValue(r.fields[k], d.fields[k]);
      MapListsExtra(path, k, d.fields[k], r.fields[k], q);
      if q != [] && q[0] == k {
        ExtraBelow(d.fields, r.fields, q);
      }
    } else if k in d.fields {
      assert m.fields[k] == d.fields[k];
    } else if k in r.fields && r.fields[k] != Null {
      ListsOne(StateDiff(k, path + [k], Null, r.fields[k]), path + q);
      SameTail(path, [k], q);
    }
  }

  lemma SameTail(path: seq<string>, a: seq<string>, b: seq<string>)
    ensures path + a == path + b <==> a == b
  {
    if path + a == path + b {
      assert (path + a)[|path|..] == a && (path + b)[|path|..] == b;
    }
  }

  lemma ExtraBelow(d: Fields, r: Fields, q: seq<string>)
    requires q != [] && q[0] in d && q[0] in r && d[q[0]].Object? && r[q[0]].Object?
    ensures Extra(d, r, q, false) <==> Extra(d[q[0]].fields, r[q[0]].fields, q[1..], false)
  {
  }

  /** The nested diff of a key that holds maps on both sides. */
  lemma {:induction false} MapListsExtra(path: seq<string>, k: string, dk: Value, rk: Value, q: seq<string>)
    requires dk.Object? && rk.Object?
    ensures Lists(DiffValue(k, path + [k], dk, MergeValue(rk, dk)), path + q)
       <==> q != [] && q[0] == k && Extra(dk.fields, rk.fields, q[1..], false)
    decreases dk, 2
  {
    var mk := MergeValue(rk, dk);
    var keys := SortedKeys(dk.fields.Keys + mk.fields.Keys);
    DiffValueSeparated(k, path + [k], dk, mk);
    if q != [] && q[0] == k {
      assert path + q == (path + [k]) + q[1..];
      KeysListExtra(path + [k], keys, dk, rk, q[1..]);
      if dk == mk {
        NoDiffWithItself(path + [k], keys, dk);
      }
      ExtraIsAKey(dk.fields, rk.fields, q[1..]);
    } else {
      ElsewhereIsNotListed(DiffValue(k, path + [k], dk, mk), path, k, q);
    }
  }

  lemma ExtraIsAKey(d: Fields, r: Fields, q: seq<string>)
    ensures q != [] && Extra(d, r, q, false) ==> q[0] in d || q[0] in r
  {
  }

  lemma ElsewhereIsNotListed(es: seq<StateDiff>, path: seq<string>, k: string, q: seq<string>)
    requires Under(es, path + [k]) && (q == [] || q[0] != k)
    ensures !Lists(es, path + q)
  {
    forall e | e in es ensures e.path != path + q {
      assert path + [k] <= e.path;
      assert e.path[|path|] == k;
    }
  }

  lemma {:induction false} KeysListExtra(path: seq<string>, keys: seq<string>, d: Value, r: Value, q: seq<string>)
    requires d.Object? && r.Object?
    ensures Lists(DiffKeys(path, keys, d, MergeValue(r, d)), path + q)
       <==> q != [] && q[0] in keys && Extra(d.fields, r.fields, q, false)
    decreases d, 1, |keys|
  {
    if keys != [] {
      var before, k, m := keys[..|keys| - 1], Last(keys), MergeValue(r, d);
      SplitLast(keys);
      KeysListExtra(path, before, d, r, q);
      KeyListsExtra(path, k, d, r, q);
      ListsConcat(DiffKeys(path, before, d, m), DiffKey(path, k, d, m), path + q);
    }
  }

  lemma TopKeyListsExtra(k: string, d: Fields, r: Fields, q: seq<string>)
    ensures Lists(TopKey(k, d, Merge(r, d)), q) <==> q != [] && q[0] == k && Extra(d, r, q, true)
  {
    MergeAt(r, d, k);
    assert [] + q == q && [] + [k] == [k];
    if k in d {
      KeyListsExtra([], k, Object(d), Object(r), q);
    } else if k in r {
      ListsOne(StateDiff(k, [k], Null, r[k]), q);
    }
  }

  lemma {:induction false} TopKeysListExtra(keys: seq<string>, d: Fields, r: Fields, q: seq<string>)
    ensures Lists(TopKeys(keys, d, Merge(r, d)), q) <==> q != [] && q[0] in keys && Extra(d, r, q, true)
  {
    if keys != [] {
      SplitLast(keys);
      TopKeysListExtra(keys[..|keys| - 1], d, r, q);
      TopKeyListsExtra(Last(keys), d, r, q);
      ListsConcat(TopKeys(keys[..|keys| - 1], d, Merge(r, d)), TopKey(Last(keys), d, Merge(r, d)), q);
    }
  }

  /** And it lists all of it: after the device has merged the desired state, a path is in the diff if
      and only if the device reports something there that the desired state does not mention. */
  lemma ConvergenceIsExact(d: Fields, r: Fields, p: seq<string>)
    ensures Lists(Diff(d, Merge(r, d)), p) <==> Extra(d, r, p, true)
  {
    TopKeysListExtra(SortedKeys(d.Keys + Merge(r, d).Keys), d, r, p);
    if Extra(d, r, p, true) {
      MergeAt(r, d, p[0]);
    }
  }
}
