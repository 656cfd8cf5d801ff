/** JSON trees and the merge of a patch into a tree. */
module TwinState {

  /** What a decoded JSON value can be; Null is Go's untyped nil. */
  datatype Value =
    | Null
    | Boolean(flag: bool)
    | Number(number: real)
    | Text(text: string)
    | Array(items: seq<Value>)
    | Object(fields: map<string, Value>)

  type Fields = map<string, Value>

  // ----- merge -----

  /** What a key holds after merging: two maps merge, anything else is replaced by the patch. */
  function MergeValue(base: Value, patch: Value): Value
    decreases patch
  {
    if base.Object? && patch.Object? then
      Object(map k | k in base.fields.Keys + patch.fields.Keys ::
                 if k !in patch.fields then base.fields[k]
                 else if k !in base.fields then patch.fields[k]
                 else MergeValue(base.fields[k], patch.fields[k]))
    else patch
  }

  function Merge(base: Fields, patch: Fields): Fields {
    MergeValue(Object(base), Object(patch)).fields
  }

  lemma MergeAt(base: Fields, patch: Fields, k: string)
    ensures k in Merge(base, patch) <==> k in base || k in patch
    ensures k in base && k !in patch ==> Merge(base, patch)[k] == base[k]
    ensures k !in base && k in patch ==> Merge(base, patch)[k] == patch[k]
    ensures k in base && k in patch ==> Merge(base, patch)[k] == MergeValue(base[k], patch[k])
  {
  }

  /** `mergeMaps`: copy the base into a fresh map, then let the patch overwrite or recurse. */
  method MergeMaps(base: Fields, patch: Fields) returns (out: Fields)
    ensures out == Merge(base, patch)
    decreases Object(patch)
  {
    out := base;
    var todo := patch.Keys;
    while todo != {}
      invariant todo <= patch.Keys
      invariant forall k :: k in out <==> k in base || (k in patch && k !in todo)
      invariant forall k :: k in out && (k in todo || k !in patch) ==> out[k] == base[k]
      invariant forall k :: k in patch && k !in todo ==> out[k] == Merge(base, patch)[k]
    {
      var key :| key in todo;
      var value := patch[key];
      MergeAt(base, patch, key);
      if key in out && out[key].Object? && value.Object? {
        var merged := MergeMaps(out[key].fields, value.fields);
        out := out[key := Object(merged)];
      } else {
        out := out[key := value];
      }
      todo := todo - {key};
    }
    forall k | k in out ensures out[k] == Merge(base, patch)[k] {
      MergeAt(base, patch, k);
    }
  }

  lemma MergeEmpty(a: Fields)
    ensures Merge(a, map[]) == a && Merge(map[], a) == a
  {
  }

  // ----- when patches may be combined first -----

  /** Nowhere along a common path does the first patch hold a non-map and the second a map. */
  predicate Compatible(b: Value, c: Value)
    decreases c
  {
    if b.Object? && c.Object? then
      forall k :: k in b.fields && k in c.fields ==> Compatible(b.fields[k], c.fields[k])
    else !c.Object?
  }

  /** Compatible patches may be merged with each other first, whatever they are applied to. */
  lemma {:induction false} MergeAssociates(a: Value, b: Value, c: Value)
    requires Compatible(b, c)
    ensures MergeValue(MergeValue(a, b), c) == MergeValue(a, MergeValue(b, c))
    decreases c
  {
    if a.Object? && b.Object? && c.Object? {
      forall k | k in a.fields && k in b.fields && k in c.fields
        ensures MergeValue(MergeValue(a.fields[k], b.fields[k]), c.fields[k])
             == MergeValue(a.fields[k], MergeValue(b.fields[k], c.fields[k]))
      {
        MergeAssociates(a.fields[k], b.fields[k], c.fields[k]);
      }
    }
  }

  lemma {:induction false} FreshKey(keys: set<string>) returns (k: string)
    ensures forall x :: x in keys ==> |x| < |k|
    decreases |keys|
  {
    if keys == {} {
      k := "";
    } else {
      var x :| x in keys;
      var k' := FreshKey(keys - {x});
      k := k' + x + "x";
    }
  }

  /** Incompatible patches differ on some base: one that holds, below the conflict, a key the
      second patch does not mention. */
  lemma {:induction false} IncompatibleWitness(b: Value, c: Value) returns (a: Value)
    requires !Compatible(b, c)
    ensures a.Object? && MergeValue(MergeValue(a, b), c) != MergeValue(a, MergeValue(b, c))
    decreases c
  {
    if b.Object? {
      var k :| k in b.fields && k in c.fields && !Compatible(b.fields[k], c.fields[k]);
      var below := IncompatibleWitness(b.fields[k], c.fields[k]);
      a := Object(map[k := below]);
      assert MergeValue(MergeValue(a, b), c).fields[k] == MergeValue(MergeValue(below, b.fields[k]), c.fields[k]);
      assert MergeValue(a, MergeValue(b, c)).fields[k] == MergeValue(below, MergeValue(b.fields[k], c.fields[k]));
    } else {
      var k := FreshKey(c.fields.Keys);
      a := Object(map[k := Null]);
      assert k in MergeValue(a, MergeValue(b, c)).fields;
    }
  }

  /** Merging is associative for two patches on every base if and only if nowhere along a common
      path the first holds a non-map and the second a map. */
  lemma AssociativeIffCompatible(b: Fields, c: Fields)
    ensures (forall a: Fields :: Merge(Merge(a, b), c) == Merge(a, Merge(b, c))) <==> Compatible(Object(b), Object(c))
  {
    if Compatible(Object(b), Object(c)) {
      forall a: Fields ensures Merge(Merge(a, b), c) == Merge(a, Merge(b, c)) {
        MergeAssociates(Object(a), Object(b), Object(c));
      }
    } else {
      var a := IncompatibleWitness(Object(b), Object(c));
      assert Merge(Merge(a.fields, b), c) != Merge(a.fields, Merge(b, c));
    }
  }

  lemma {:induction false} CompatibleWithItself(v: Value)
    ensures Compatible(v, v) && MergeValue(v, v) == v
  {
    if v.Object? {
      forall k | k in v.fields
        ensures Compatible(v.fields[k], v.fields[k]) && MergeValue(v.fields[k], v.fields[k]) == v.fields[k]
      {
        CompatibleWithItself(v.fields[k]);
      }
    }
  }

  /** Delivering the same patch twice changes nothing more. */
  lemma MergeIdempotent(a: Fields, p: Fields)
    ensures Merge(Merge(a, p), p) == Merge(a, p)
  {
    CompatibleWithItself(Object(p));
    MergeAssociates(Object(a), Object(p), Object(p));
  }

  // ----- whole runs of patches -----

  /** Patches applied one after the other. */
  function MergeAll(base: Fields, patches: seq<Fields>): Fields {
    if patches == [] then base
    else Merge(MergeAll(base, patches[..|patches| - 1]), patches[|patches| - 1])
  }

  /** No patch of the run holds a non-map where the run as a whole leaves a map. */
  ghost predicate CompatibleRun(patches: seq<Fields>) {
    forall p :: p in patches ==> Compatible(Object(p), Object(MergeAll(map[], patches)))
  }

  /** What is compatible with the outcome of a merge is compatible with what was merged last. */
  lemma {:induction false} CompatibleWithLast(p: Value, q: Value, d: Value)
    requires Compatible(p, MergeValue(q, d))
    ensures Compatible(p, d)
    decreases d
  {
    if p.Object? && d.Object? && q.Object? {
      forall k | k in p.fields && k in d.fields ensures Compatible(p.fields[k], d.fields[k]) {
        if k in q.fields {
          CompatibleWithLast(p.fields[k], q.fields[k], d.fields[k]);
        }
      }
    }
  }

  /** Patches followed by d combine, if each is compatible with what all of them and d leave. */
  lemma {:induction false} RunThenMerge(base: Fields, patches: seq<Fields>, d: Fields)
    requires forall p :: p in patches ==> Compatible(Object(p), Object(Merge(MergeAll(map[], patches), d)))
    ensures Merge(MergeAll(base, patches), d) == Merge(base, Merge(MergeAll(map[], patches), d))
  {
    if patches == [] {
      MergeEmpty(d);
    } else {
      var before, p := patches[..|patches| - 1], patches[|patches| - 1];
      var done := MergeAll(map[], before);
      CompatibleWithLast(Object(p), MergeValue(Object(done), Object(p)), Object(d));
      MergeAssociates(Object(done), Object(p), Object(d));
      MergeAssociates(Object(MergeAll(base, before)), Object(p), Object(d));
      RunThenMerge(base, before, Merge(p, d));
    }
  }

  /** What a value holds under a key, Null for nothing; merging into either comes to the same. */
  function Below(v: Value, k: string): Value { if v.Object? && k in v.fields then v.fields[k] else Null }

  /** Two bases that a patch q makes equal stay so whatever is merged in before q. */
  lemma {:induction false} SameAfterMore(x: Value, y: Value, b: Value, q: Value)
    requires MergeValue(x, q) == MergeValue(y, q)
    ensures MergeValue(MergeValue(x, b), q) == MergeValue(MergeValue(y, b), q)
    decreases b
  {
    if b.Object? && q.Object? {
      assert MergeValue(x, q).fields == MergeValue(y, q).fields;
      forall k | k in b.fields && k in q.fields
        ensures MergeValue(MergeValue(Below(x, k), b.fields[k]), q.fields[k])
             == MergeValue(MergeValue(Below(y, k), b.fields[k]), q.fields[k])
      {
        assert MergeValue(x, q).fields[k] == MergeValue(Below(x, k), q.fields[k]);
        assert MergeValue(y, q).fields[k] == MergeValue(Below(y, k), q.fields[k]);
        SameAfterMore(Below(x, k), Below(y, k), b.fields[k], q.fields[k]);
      }
      var after, after' := MergeValue(MergeValue(x, b), q).fields, MergeValue(MergeValue(y, b), q).fields;
      forall k ensures k in after <==> k in after' ensures k in after ==> after[k] == after'[k] {
        AfterMore(x, b, q, k);
        AfterMore(y, b, q, k);
      }
      assert after == after';
    }
  }

  lemma AfterMore(x: Value, b: Value, q: Value, k: string)
    requires b.Object? && q.Object?
    ensures var before, after := MergeValue(x, q).fields, MergeValue(MergeValue(x, b), q).fields;
            (k in after <==> k in before || k in b.fields)
            && (k in b.fields && k in q.fields ==>
                  after[k] == MergeValue(MergeValue(Below(x, k), b.fields[k]), q.fields[k]))
            && (k in before && k !in b.fields ==> after[k] == before[k])
            && (k in b.fields && k !in q.fields ==>
                  after[k] == MergeValue(if k in before then before[k] else Null, b.fields[k]))
  {
  }

  /** A patch of the run, sent once more beforehand, leaves no trace. */
  lemma {:induction false} Absorbed(base: Fields, before: seq<Fields>, q: Fields)
    ensures Merge(MergeAll(Merge(base, q), before), q) == Merge(MergeAll(base, before), q)
  {
    if before == [] {
      MergeIdempotent(base, q);
    } else {
      var b := before[|before| - 1];
      Absorbed(base, before[..|before| - 1], q);
      SameAfterMore(Object(MergeAll(Merge(base, q), before[..|before| - 1])),
                    Object(MergeAll(base, before[..|before| - 1])), Object(b), Object(q));
    }
  }

  lemma {:induction false} AbsorbedByRun(base: Fields, patches: seq<Fields>, i: nat)
    requires i < |patches|
    ensures MergeAll(Merge(base, patches[i]), patches) == MergeAll(base, patches)
  {
    var before := patches[..|patches| - 1];
    if i == |patches| - 1 {
      Absorbed(base, before, patches[i]);
    } else {
      AbsorbedByRun(base, before, i);
    }
  }

  ghost predicate CombinesOn(base: Fields, patches: seq<Fields>) {
    MergeAll(base, patches) == Merge(base, MergeAll(map[], patches))
  }

  /** A run of patches may be combined into one patch beforehand, whatever it is applied to, if and
      only if no patch of the run holds a non-map where the run as a whole leaves a map. */
  lemma RunCombines(patches: seq<Fields>)
    ensures (forall base: Fields :: CombinesOn(base, patches)) <==> CompatibleRun(patches)
  {
    if CompatibleRun(patches) {
      forall base: Fields ensures CombinesOn(base, patches) {
        CompatibleRunCombines(base, patches);
      }
    }
    if forall base: Fields :: CombinesOn(base, patches) {
      forall p | p in patches ensures Compatible(Object(p), Object(MergeAll(map[], patches))) {
        PatchFitsRun(patches, p);
      }
    }
  }

  lemma CompatibleRunCombines(base: Fields, patches: seq<Fields>)
    requires CompatibleRun(patches)
    ensures CombinesOn(base, patches)
  {
    MergeEmpty(MergeAll(map[], patches));
    MergeEmpty(MergeAll(base, patches));
    RunThenMerge(base, patches, map[]);
  }

  lemma PatchFitsRun(patches: seq<Fields>, p: Fields)
    requires p in patches && forall base: Fields :: CombinesOn(base, patches)
    ensures Compatible(Object(p), Object(MergeAll(map[], patches)))
  {
    var all := MergeAll(map[], patches);
    forall a: Fields ensures Merge(Merge(a, p), all) == Merge(a, all) {
      AbsorbedByCombined(a, patches, p);
    }
    AbsorbedIsCompatible(p, all);
  }

  lemma AbsorbedByCombined(a: Fields, patches: seq<Fields>, p: Fields)
    requires p in patches && CombinesOn(a, patches) && CombinesOn(Merge(a, p), patches)
    ensures Merge(Merge(a, p), MergeAll(map[], patches)) == Merge(a, MergeAll(map[], patches))
  {
    var i :| 0 <= i < |patches| && patches[i] == p;
    AbsorbedByRun(a, patches, i);
  }

  lemma AbsorbedIsCompatible(p: Fields, d: Fields)
    requires forall a: Fields :: Merge(Merge(a, p), d) == Merge(a, d)
    ensures Compatible(Object(p), Object(d))
  {
    MergeEmpty(p);
    MergeEmpty(d);
    assert Merge(Merge(map[], p), d) == Merge(map[], d);
    AssociativeIffCompatible(p, d);
  }
}
