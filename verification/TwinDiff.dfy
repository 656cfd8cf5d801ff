/** The structural diff of desired against reported state, and why it is a correct patch. */
module TwinDiff {
  import opened Sequences
  import opened TwinState
  import Sorting
  import Strings

  /** Paths are key sequences; the dotted string of the source would be ambiguous for keys that
      contain dots. */
  datatype StateDiff = StateDiff(property: string, path: seq<string>, desired: Value, reported: Value)

  /** Reading an absent key of a Go map gives nil. */
  function Lookup(f: Fields, k: string): Value { if k in f then f[k] else Null }

  // ----- keys in sorted order -----

  ghost predicate Ascending(keys: seq<string>) {
    forall i, j :: 0 <= i < j < |keys| ==> Strings.Less(keys[i], keys[j])
  }

  ghost predicate IsLeast(k: string, keys: set<string>) {
    k in keys && forall j :: j in keys && j != k ==> Strings.Less(k, j)
  }

  lemma {:induction false} LeastExists(keys: set<string>)
    requires keys != {}
    ensures exists k :: IsLeast(k, keys)
    decreases |keys|
  {
    var k :| k in keys;
    if keys - {k} == {} {
      assert forall j :: j in keys ==> j == k || j in keys - {k};
      assert IsLeast(k, keys);
    } else {
      LeastExists(keys - {k});
      var m :| IsLeast(m, keys - {k});
      Strings.LessTotal(m, k);
      if Strings.Less(m, k) {
        assert IsLeast(m, keys);
      } else {
        forall j | j in keys && j != k ensures Strings.Less(k, j) {
          if j != m {
            Strings.LessTransitive(k, m, j);
          }
        }
        assert IsLeast(k, keys);
      }
    }
  }

  /** The keys of a set in ascending order. */
  ghost function SortedKeys(keys: set<string>): (r: seq<string>)
    ensures forall k :: k in r <==> k in keys
    ensures Ascending(r)
    decreases |keys|
  {
    if keys == {} then []
    else
      LeastExists(keys);
      var k :| IsLeast(k, keys);
      [k] + SortedKeys(keys - {k})
  }

  lemma {:induction false} AscendingUnique(a: seq<string>, b: seq<string>)
    requires Ascending(a) && Ascending(b) && forall k :: k in a <==> k in b
    ensures a == b
  {
    if a == [] {
      FirstIsMember(b);
    } else {
      assert a[0] in b && b != [] && b[0] in a;
      SameLeast(a, b);
      TailOfAscending(a);
      TailOfAscending(b);
      AscendingUnique(a[1..], b[1..]);
      assert a == [a[0]] + a[1..];
    }
  }

  lemma TailOfAscending(a: seq<string>)
    requires a != [] && Ascending(a)
    ensures Ascending(a[1..]) && forall k :: k in a[1..] <==> k in a && k != a[0]
  {
    Strings.LessIrreflexive(a[0]);
    assert a == [a[0]] + a[1..];
    forall k | k in a[1..] ensures k != a[0] {
      var i :| 0 <= i < |a[1..]| && a[1..][i] == k;
      assert Strings.Less(a[0], a[i + 1]);
    }
  }

  lemma SameLeast(a: seq<string>, b: seq<string>)
    requires a != [] && b != [] && Ascending(a) && Ascending(b) && a[0] in b && b[0] in a
    ensures a[0] == b[0]
  {
    var i :| 0 <= i < |b| && b[i] == a[0];
    var j :| 0 <= j < |a| && a[j] == b[0];
    if i > 0 && j > 0 {
      assert Strings.Less(b[0], b[i]) && Strings.Less(a[0], a[j]);
      Strings.LessTransitive(a[0], b[0], a[0]);
      Strings.LessIrreflexive(a[0]);
    }
  }

  // ----- the diff -----

  /** What `appendDiff` adds for one pair of values. */
  ghost function DiffValue(property: string, path: seq<string>, d: Value, r: Value): seq<StateDiff>
    decreases d, 2
  {
    if d == r then []
    else if d.Object? && r.Object? then
      DiffKeys(path, SortedKeys(d.fields.Keys + r.fields.Keys), d, r)
    else [StateDiff(property, path, d, r)]
  }

  /** The loop over the sorted keys of two maps. */
  ghost function DiffKeys(path: seq<string>, keys: seq<string>, d: Value, r: Value): seq<StateDiff>
    requires d.Object? && r.Object?
    decreases d, 1, |keys|
  {
    if keys == [] then []
    else DiffKeys(path, keys[..|keys| - 1], d, r) + DiffKey(path, Last(keys), d, r)
  }

  /** One turn of that loop.  A key absent on one side reads as nil there, so the values are not
      both maps and the pair is compared as a whole. */
  ghost function DiffKey(path: seq<string>, k: string, d: Value, r: Value): seq<StateDiff>
    requires d.Object? && r.Object?
    decreases d, 0
  {
    if k in d.fields && k in r.fields then DiffValue(k, path + [k], d.fields[k], r.fields[k])
    else if Lookup(d.fields, k) == Lookup(r.fields, k) then []
    else [StateDiff(k, path + [k], Lookup(d.fields, k), Lookup(r.fields, k))]
  }

  /** At the top level a key missing on one side is always listed, even against an explicit nil. */
  ghost function TopKey(k: string, d: Fields, r: Fields): seq<StateDiff> {
    if k in d && k in r then DiffValue(k, [k], d[k], r[k])
    else if k in d || k in r then [StateDiff(k, [k], Lookup(d, k), Lookup(r, k))]
    else []
  }

  ghost function TopKeys(keys: seq<string>, d: Fields, r: Fields): seq<StateDiff> {
    if keys == [] then [] else TopKeys(keys[..|keys| - 1], d, r) + TopKey(Last(keys), d, r)
  }

  ghost function Diff(d: Fields, r: Fields): seq<StateDiff> {
    TopKeys(SortedKeys(d.Keys + r.Keys), d, r)
  }

  // ----- the methods -----

  method ListKeys(keys: set<string>) returns (listed: seq<string>)
    ensures forall k :: k in listed <==> k in keys
    ensures forall i, j :: 0 <= i < j < |listed| ==> listed[i] != listed[j]
  {
    listed := [];
    var todo := keys;
    while todo != {}
      invariant todo <= keys
      invariant forall k :: k in listed <==> k in keys && k !in todo
      invariant forall i, j :: 0 <= i < j < |listed| ==> listed[i] != listed[j]
    {
      var k :| k in todo;
      listed := listed + [k];
      todo := todo - {k};
    }
  }

  method SortStrings(keys: set<string>) returns (sorted: seq<string>)
    ensures sorted == SortedKeys(keys)
  {
    var listed := ListKeys(keys);
    sorted := SortListed(listed);
    SortedListing(listed, sorted, keys);
  }

  lemma StringsOrder()
    ensures Sorting.StrictWeakOrder(Strings.Less)
  {
    forall a: string, b: string | Strings.Less(a, b) ensures !Strings.Less(b, a) {
      Strings.LessAsymmetric(a, b);
    }
    forall a: string, b: string, c: string | !Strings.Less(a, b) && !Strings.Less(b, c) ensures !Strings.Less(a, c) {
      Strings.NotLessTransitive(a, b, c);
    }
  }

  method SortListed(listed: seq<string>) returns (sorted: seq<string>)
    ensures multiset(sorted) == multiset(listed) && Sorting.Sorted(sorted, Strings.Less)
  {
    StringsOrder();
    sorted := Sorting.Slice(listed, Strings.Less);
  }

  /** However the keys were listed, sorting leaves one arrangement. */
  lemma SortedListing(listed: seq<string>, sorted: seq<string>, keys: set<string>)
    requires forall i, j :: 0 <= i < j < |listed| ==> listed[i] != listed[j]
    requires multiset(sorted) == multiset(listed) && Sorting.Sorted(sorted, Strings.Less)
    requires forall k :: k in listed <==> k in keys
    ensures sorted == SortedKeys(keys)
  {
    DistinctSortedAscends(listed, sorted);
    AscendingUnique(sorted, SortedKeys(keys));
  }

  lemma DistinctSortedAscends(listed: seq<string>, sorted: seq<string>)
    requires forall i, j :: 0 <= i < j < |listed| ==> listed[i] != listed[j]
    requires multiset(sorted) == multiset(listed) && Sorting.Sorted(sorted, Strings.Less)
    ensures Ascending(sorted) && forall k :: k in sorted <==> k in listed
  {
    MultiplicityOne(listed);
    forall i, j | 0 <= i < j < |sorted| ensures Strings.Less(sorted[i], sorted[j]) {
      assert !Strings.Less(sorted[j], sorted[i]);
      Strings.LessTotal(sorted[i], sorted[j]);
      if sorted[i] == sorted[j] {
        AtLeastTwice(sorted, i, j);
      }
    }
    forall k ensures k in sorted <==> k in listed {
      assert k in sorted <==> k in multiset(sorted);
      assert k in listed <==> k in multiset(listed);
    }
  }

  method AppendDiff(diffs: seq<StateDiff>, property: string, path: seq<string>, desired: Value, reported: Value)
    returns (out: seq<StateDiff>)
    ensures out == diffs + DiffValue(property, path, desired, reported)
    decreases desired, 1
  {
    out := diffs;
    if desired == reported {
      return;
    }
    if desired.Object? && reported.Object? {
      var sorted := SortStrings(desired.fields.Keys + reported.fields.Keys);
      out := AppendKeys(out, path, sorted, desired, reported);
      return;
    }
    out := out + [StateDiff(property, path, desired, reported)];
  }

  /** The key loop of `appendDiff`. */
  method AppendKeys(diffs: seq<StateDiff>, path: seq<string>, sorted: seq<string>, desired: Value, reported: Value)
    returns (out: seq<StateDiff>)
    requires desired.Object? && reported.Object?
    ensures out == diffs + DiffKeys(path, sorted, desired, reported)
    decreases desired, 0, 1
  {
    out := diffs;
    for i := 0 to |sorted|
      invariant out == diffs + DiffKeys(path, sorted[..i], desired, reported)
    {
      DiffKeysTurn(path, sorted, i, desired, reported);
      ConcatAssociates(diffs, DiffKeys(path, sorted[..i], desired, reported),
                       DiffKey(path, sorted[i], desired, reported));
      out := AppendKey(out, path, sorted[i], desired, reported);
    }
    assert sorted[..|sorted|] == sorted;
  }

  lemma DiffKeysTurn(path: seq<string>, sorted: seq<string>, i: nat, d: Value, r: Value)
    requires d.Object? && r.Object? && i < |sorted|
    ensures DiffKeys(path, sorted[..i + 1], d, r)
         == DiffKeys(path, sorted[..i], d, r) + DiffKey(path, sorted[i], d, r)
  {
    assert sorted[..i + 1][..i] == sorted[..i];
  }

  /** One turn: `appendDiff` on the two values the key reads as.  Where the desired side is absent
      nothing can recurse, and that call is written out. */
  method AppendKey(diffs: seq<StateDiff>, path: seq<string>, key: string, desired: Value, reported: Value)
    returns (out: seq<StateDiff>)
    requires desired.Object? && reported.Object?
    ensures out == diffs + DiffKey(path, key, desired, reported)
    decreases desired, 0, 0
  {
    var value := Lookup(reported.fields, key);
    if key in desired.fields {
      out := AppendDiff(diffs, key, path + [key], desired.fields[key], value);
    } else if value != Null {
      out := diffs + [StateDiff(key, path + [key], Null, value)];
    } else {
      out := diffs;
    }
  }

  method ComputeDiff(desired: Fields, reported: Fields) returns (diffs: seq<StateDiff>)
    ensures diffs == Diff(desired, reported)
  {
    var sorted := SortStrings(desired.Keys + reported.Keys);
    diffs := AppendTopKeys(sorted, desired, reported);
  }

  /** The key loop of `ComputeDiff`. */
  method AppendTopKeys(sorted: seq<string>, desired: Fields, reported: Fields) returns (diffs: seq<StateDiff>)
    ensures diffs == TopKeys(sorted, desired, reported)
  {
    diffs := [];
    for i := 0 to |sorted|
      invariant diffs == TopKeys(sorted[..i], desired, reported)
    {
      TopKeysTurn(sorted, i, desired, reported);
      diffs := AppendTopKey(diffs, sorted[i], desired, reported);
    }
    assert sorted[..|sorted|] == sorted;
  }

  lemma TopKeysTurn(sorted: seq<string>, i: nat, d: Fields, r: Fields)
    requires i < |sorted|
    ensures TopKeys(sorted[..i + 1], d, r) == TopKeys(sorted[..i], d, r) + TopKey(sorted[i], d, r)
  {
    assert sorted[..i + 1][..i] == sorted[..i];
  }

  method AppendTopKey(diffs: seq<StateDiff>, key: string, desired: Fields, reported: Fields)
    returns (out: seq<StateDiff>)
    ensures out == diffs + TopKey(key, desired, reported)
  {
    out := diffs;
    if key !in desired || key !in reported {
      if key in desired || key in reported {
        out := out + [StateDiff(key, [key], Lookup(desired, key), Lookup(reported, key))];
      }
      return;
    }
    out := AppendDiff(out, key, [key], desired[key], reported[key]);
  }
}
