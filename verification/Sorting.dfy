/** Go's `sort.Slice` and `sort.Search`, as the services rely on them. */
module Sorting {

  /** What `sort.Slice` asks of its comparator. */
  ghost predicate StrictWeakOrder<T(!new)>(less: (T, T) -> bool) {
    && (forall a, b :: less(a, b) ==> !less(b, a))
    && (forall a, b, c :: !less(a, b) && !less(b, c) ==> !less(a, c))
  }

  ghost predicate Sorted<T>(s: seq<T>, less: (T, T) -> bool) {
    forall i, j :: 0 <= i < j < |s| ==> !less(s[j], s[i])
  }

  /** `sort.Slice` is unstable: its contract promises a sorted permutation and no more, so no
      caller can depend on the order of ties. */
  method Slice<T(!new)>(s: seq<T>, less: (T, T) -> bool) returns (r: seq<T>)
    requires StrictWeakOrder(less)
    ensures multiset(r) == multiset(s)
    ensures Sorted(r, less)
  {
    r := [];
    for i := 0 to |s|
      invariant multiset(r) == multiset(s[..i])
      invariant Sorted(r, less)
    {
      assert s[..i + 1] == s[..i] + [s[i]];
      r := Insert(r, s[i], less);
    }
    assert s[..|s|] == s;
  }

  method Insert<T(!new)>(s: seq<T>, x: T, less: (T, T) -> bool) returns (r: seq<T>)
    requires StrictWeakOrder(less)
    requires Sorted(s, less)
    ensures multiset(r) == multiset(s) + multiset{x}
    ensures Sorted(r, less)
  {
    var j := |s|;
    while j > 0 && less(x, s[j - 1])
      invariant 0 <= j <= |s|
      invariant forall k :: j <= k < |s| ==> less(x, s[k])
    {
      j := j - 1;
    }
    InsertedIsSorted(s, x, j, less);
    r := s[..j] + [x] + s[j..];
    assert s == s[..j] + s[j..];
  }

  lemma InsertedIsSorted<T(!new)>(s: seq<T>, x: T, j: nat, less: (T, T) -> bool)
    requires StrictWeakOrder(less)
    requires Sorted(s, less)
    requires j <= |s| && (j == 0 || !less(x, s[j - 1]))
    requires forall k :: j <= k < |s| ==> less(x, s[k])
    ensures Sorted(s[..j] + [x] + s[j..], less)
  {
    var r := s[..j] + [x] + s[j..];
    forall a, b | 0 <= a < b < |r| ensures !less(r[b], r[a]) {
      if a < j && b == j {
        assert a == j - 1 || !less(s[j - 1], s[a]);
      }
    }
  }
}
