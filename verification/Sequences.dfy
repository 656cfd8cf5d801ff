/** Filtering sequences, and what filtering does to their multisets. */
module Sequences {

  function Min(a: int, b: int): int { if a < b then a else b }

  function Last<T>(s: seq<T>): T
    requires s != []
  {
    s[|s| - 1]
  }

  /** The first n elements, or all of them when there are fewer: `s[:n]` behind a length test. */
  function First<T>(s: seq<T>, n: nat): seq<T> {
    if |s| > n then s[..n] else s
  }

  /** The last n elements, or all of them when there are fewer: `s[len(s)-n:]` behind a length test. */
  function LastUpTo<T>(s: seq<T>, n: nat): seq<T> {
    if |s| > n then s[|s| - n..] else s
  }

  /** The sequence filed under a key; Go reads a missing one as empty. */
  function At<K, T>(m: map<K, seq<T>>, k: K): seq<T> {
    if k in m then m[k] else []
  }

  lemma SplitLast<T>(s: seq<T>)
    requires s != []
    ensures s == s[..|s| - 1] + [Last(s)]
    ensures multiset(s) == multiset(s[..|s| - 1]) + multiset{Last(s)}
    ensures multiset(s[..|s| - 1]) == multiset(s) - multiset{Last(s)}
    ensures forall x :: x in s <==> x in s[..|s| - 1] || x == Last(s)
  {
    assert s == s[..|s| - 1] + [Last(s)];
  }

  lemma ConcatButLast<T>(a: seq<T>, b: seq<T>)
    requires b != []
    ensures (a + b)[..|a + b| - 1] == a + b[..|b| - 1] && Last(a + b) == Last(b)
  {
  }

  lemma PrefixTail<T>(a: seq<T>, b: seq<T>)
    ensures a != [] && b != [] && a <= b ==> a[1..] <= b[1..]
  {
  }

  lemma FirstIsMember<T>(s: seq<T>)
    ensures s != [] ==> s[0] in s
  {
  }

  lemma ConcatAssociates<T>(a: seq<T>, b: seq<T>, c: seq<T>)
    ensures (a + b) + c == a + (b + c)
  {
  }

  lemma SplitAt<T>(s: seq<T>, i: nat)
    requires i <= |s|
    ensures s == s[..i] + s[i..]
  {
  }

  lemma LastUpToConcat<T>(a: seq<T>, b: seq<T>)
    ensures LastUpTo(a + b, |b|) == b
  {
  }

  function Filter<T>(s: seq<T>, p: T -> bool): seq<T> {
    if s == [] then [] else
      Filter(s[..|s| - 1], p) + if p(Last(s)) then [Last(s)] else []
  }

  function Map<A, B>(s: seq<A>, f: A -> B): (r: seq<B>)
    ensures |r| == |s|
    ensures forall i :: 0 <= i < |s| ==> r[i] == f(s[i])
  {
    if s == [] then [] else Map(s[..|s| - 1], f) + [f(Last(s))]
  }

  lemma FilterSnoc<T>(s: seq<T>, x: T, p: T -> bool)
    ensures Filter(s + [x], p) == Filter(s, p) + if p(x) then [x] else []
  {
    assert (s + [x])[..|s|] == s;
  }

  lemma {:induction false} FilterConcat<T>(a: seq<T>, b: seq<T>, p: T -> bool)
    ensures Filter(a + b, p) == Filter(a, p) + Filter(b, p)
  {
    if b == [] {
      assert a + b == a;
    } else {
      var b' := b[..|b| - 1];
      FilterConcat(a, b', p);
      ConcatButLast(a, b);
    }
  }

  /** Filtering keeps the multiplicity of what satisfies p and drops the rest. */
  lemma {:induction false} FilterMultiplicity<T>(s: seq<T>, p: T -> bool, x: T)
    ensures multiset(Filter(s, p))[x] == if p(x) then multiset(s)[x] else 0
  {
    if s != [] {
      FilterMultiplicity(s[..|s| - 1], p, x);
      SplitLast(s);
    }
  }

  lemma FilterMember<T>(s: seq<T>, p: T -> bool, x: T)
    ensures x in Filter(s, p) <==> x in s && p(x)
  {
    FilterMultiplicity(s, p, x);
    assert x in Filter(s, p) <==> x in multiset(Filter(s, p));
    assert x in s <==> x in multiset(s);
  }

  lemma {:induction false} FilterCongruent<T>(s: seq<T>, p: T -> bool, q: T -> bool)
    requires forall x :: x in s ==> p(x) == q(x)
    ensures Filter(s, p) == Filter(s, q)
  {
    if s != [] {
      FilterCongruent(s[..|s| - 1], p, q);
    }
  }

  /** Filtering a filtered sequence: only the conjunction matters. */
  lemma {:induction false} FilterTwice<T>(s: seq<T>, p: T -> bool, q: T -> bool, both: T -> bool)
    requires forall x :: x in s ==> (both(x) <==> p(x) && q(x))
    ensures Filter(Filter(s, p), q) == Filter(s, both)
  {
    if s != [] {
      var s', x := s[..|s| - 1], Last(s);
      FilterTwice(s', p, q, both);
      if p(x) {
        FilterSnoc(Filter(s', p), x, q);
      } else {
        assert Filter(s, p) == Filter(s', p);
      }
    }
  }

  lemma MapConcat<A, B>(a: seq<A>, b: seq<A>, f: A -> B)
    ensures Map(a + b, f) == Map(a, f) + Map(b, f)
  {
  }

  /** Taking out one occurrence of x. */
  lemma RemoveOne<T>(s: seq<T>, x: T) returns (before: seq<T>, after: seq<T>)
    requires x in multiset(s)
    ensures s == before + [x] + after
    ensures multiset(before + after) == multiset(s) - multiset{x}
    ensures multiset(before + after + [x]) == multiset(s)
  {
    var i :| 0 <= i < |s| && s[i] == x;
    before, after := s[..i], s[i + 1..];
    assert s == before + [x] + after;
  }

  lemma MapAround<A, B>(before: seq<A>, x: A, after: seq<A>, f: A -> B)
    ensures multiset(Map(before + [x] + after, f)) == multiset(Map(before + after, f)) + multiset{f(x)}
  {
    MapConcat(before, [x], f);
    MapConcat(before + [x], after, f);
    MapConcat(before, after, f);
    assert Map([x], f) == [f(x)];
  }

  /** Two permutations of each other are still permutations after mapping. */
  lemma {:induction false} MapPermutation<A, B>(a: seq<A>, b: seq<A>, f: A -> B)
    requires multiset(a) == multiset(b)
    ensures multiset(Map(a, f)) == multiset(Map(b, f))
  {
    if a == [] {
      assert |multiset(b)| == 0;
    } else {
      var a', x := a[..|a| - 1], Last(a);
      assert a == a' + [x] + [];
      assert a' + [] == a';
      var before, after := RemoveOne(b, x);
      MapPermutation(a', before + after, f);
      MapAround(before, x, after, f);
      MapAround(a', x, [], f);
    }
  }

  lemma SomeMember<T>(s: set<T>) returns (x: T)
    requires s != {}
    ensures x in s
  {
    x :| x in s;
  }

  lemma {:induction false} MultiplicityOne<T>(s: seq<T>)
    requires forall i, j :: 0 <= i < j < |s| ==> s[i] != s[j]
    ensures forall x :: multiset(s)[x] <= 1
  {
    if s != [] {
      SplitLast(s);
      MultiplicityOne(s[..|s| - 1]);
      assert Last(s) !in s[..|s| - 1];
      assert Last(s) !in multiset(s[..|s| - 1]);
    }
  }

  lemma AtLeastTwice<T>(s: seq<T>, i: nat, j: nat)
    requires i < j < |s| && s[i] == s[j]
    ensures multiset(s)[s[i]] >= 2
  {
    assert s == s[..j] + [s[j]] + s[j + 1..];
    assert s[..j][i] == s[i];
    assert s[i] in multiset(s[..j]);
  }
}
