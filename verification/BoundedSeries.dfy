/** A sorted series of bounded length, over any element type and any comparator: which elements
    survive which arrival order.  Every write appends, evicts position 0 on overflow, and sorts. */
module BoundedSeries {
  import opened Sequences
  import opened Sorting

  // ----- one write, and the runs it makes -----

  /** One write of p.  A relation, because the unstable sort leaves the order of ties open. */
  ghost predicate WriteStep<T(!new)>(less: (T, T) -> bool, s: seq<T>, p: T, s': seq<T>, limit: nat) {
    multiset(s') == multiset(LastUpTo(s + [p], limit)) && Sorted(s', less)
  }

  /** Some run of writes of exactly `log`, in that arrival order, ends in the series s. */
  ghost predicate Reachable<T(!new)>(less: (T, T) -> bool, log: seq<T>, s: seq<T>, limit: nat) {
    if log == [] then s == []
    else exists s0: seq<T> ::
        Reachable(less, log[..|log| - 1], s0, limit) && WriteStep(less, s0, Last(log), s, limit)
  }

  lemma ReachableStep<T(!new)>(less: (T, T) -> bool, log: seq<T>, s: seq<T>, p: T, s': seq<T>, limit: nat)
    requires Reachable(less, log, s, limit) && WriteStep(less, s, p, s', limit)
    ensures Reachable(less, log + [p], s', limit)
  {
    assert (log + [p])[..|log + [p]| - 1] == log && Last(log + [p]) == p;
  }

  // ----- what every run keeps -----

  /** The elements written to the series and evicted since. */
  ghost function Dropped<T>(log: seq<T>, s: seq<T>): multiset<T> {
    multiset(log) - multiset(s)
  }

  ghost predicate Below<T(!new)>(less: (T, T) -> bool, low: multiset<T>, high: multiset<T>) {
    forall d, t :: d in low && t in high ==> !less(t, d)
  }

  /** The newest write is always kept, whatever its key; nothing evicted exceeds anything else
      that is kept. */
  ghost predicate Retains<T(!new)>(less: (T, T) -> bool, log: seq<T>, s: seq<T>, limit: nat) {
    && Sorted(s, less)
    && multiset(s) <= multiset(log)
    && |s| == Min(|log|, limit)
    && (log != [] ==> Last(log) in multiset(s))
    && (log != [] ==> Below(less, Dropped(log, s), multiset(s) - multiset{Last(log)}))
  }

  lemma SameSize<T>(a: seq<T>, b: seq<T>)
    requires multiset(a) == multiset(b)
    ensures |a| == |b|
  {
    assert |multiset(a)| == |a| && |multiset(b)| == |b|;
  }

  lemma NothingDropped<T>(a: seq<T>, b: seq<T>)
    requires multiset(a) <= multiset(b) && |a| == |b|
    ensures multiset(a) == multiset(b)
  {
    var m := multiset(b) - multiset(a);
    assert multiset(b) == multiset(a) + m;
    assert |m| == 0;
  }

  /** Below the limit a write only adds. */
  lemma GrowingStepRetains<T(!new)>(less: (T, T) -> bool, log: seq<T>, s: seq<T>, p: T, s': seq<T>, limit: nat)
    requires Retains(less, log, s, limit) && WriteStep(less, s, p, s', limit) && |s| < limit
    ensures Retains(less, log + [p], s', limit)
  {
    SameSize(s', s + [p]);
    NothingDropped(s, log);
  }

  /** At the limit a write evicts position 0, a least element. */
  lemma FullStepRetains<T(!new)>(less: (T, T) -> bool, log: seq<T>, s: seq<T>, p: T, s': seq<T>, limit: nat)
    requires StrictWeakOrder(less) && 0 < limit == |s|
    requires Retains(less, log, s, limit) && WriteStep(less, s, p, s', limit)
    ensures Retains(less, log + [p], s', limit)
  {
    assert LastUpTo(s + [p], limit) == s[1..] + [p];
    SameSize(s', s[1..] + [p]);
    EvictionBalance(log, s, p, s');
    EvictedBelowKept(less, log, s);
    assert Last(log + [p]) == p;
  }

  /** Bookkeeping of an eviction: what was dropped grows by position 0. */
  lemma EvictionBalance<T>(log: seq<T>, s: seq<T>, p: T, s': seq<T>)
    requires s != [] && multiset(s) <= multiset(log) && multiset(s') == multiset(s[1..] + [p])
    ensures multiset(s') <= multiset(log + [p]) && p in multiset(s')
    ensures multiset(s') - multiset{p} == multiset(s[1..])
    ensures Dropped(log + [p], s') == Dropped(log, s) + multiset{s[0]}
  {
    assert s == [s[0]] + s[1..];
    assert multiset(s) == multiset{s[0]} + multiset(s[1..]);
  }

  lemma EvictedBelowKept<T(!new)>(less: (T, T) -> bool, log: seq<T>, s: seq<T>)
    requires StrictWeakOrder(less) && log != [] && s != [] && Sorted(s, less)
    requires Below(less, Dropped(log, s), multiset(s) - multiset{Last(log)})
    ensures Below(less, Dropped(log, s) + multiset{s[0]}, multiset(s[1..]))
  {
    forall d, t | d in Dropped(log, s) + multiset{s[0]} && t in multiset(s[1..]) ensures !less(t, d) {
      var i :| 0 <= i < |s[1..]| && s[1..][i] == t;
      assert !less(s[i + 1], s[0]);
      if d in Dropped(log, s) && t !in multiset(s) - multiset{Last(log)} {
        OnlyTheLastIsMissing(s, Last(log), t);
        assert !less(s[0], d);
      }
    }
  }

  lemma OnlyTheLastIsMissing<T>(s: seq<T>, last: T, t: T)
    requires s != [] && t in multiset(s[1..]) && t !in multiset(s) - multiset{last}
    ensures s[0] in multiset(s) - multiset{last}
  {
    assert s == [s[0]] + s[1..];
    assert t == last;
  }

  lemma StepRetains<T(!new)>(less: (T, T) -> bool, log: seq<T>, s: seq<T>, p: T, s': seq<T>, limit: nat)
    requires StrictWeakOrder(less) && limit > 0
    requires Retains(less, log, s, limit) && WriteStep(less, s, p, s', limit)
    ensures Retains(less, log + [p], s', limit)
  {
    if |s| < limit {
      GrowingStepRetains(less, log, s, p, s', limit);
    } else {
      FullStepRetains(less, log, s, p, s', limit);
    }
  }

  /** Every run keeps the invariant: safety over all arrival orders. */
  lemma {:induction false} ReachableRetains<T(!new)>(less: (T, T) -> bool, log: seq<T>, s: seq<T>, limit: nat)
    requires StrictWeakOrder(less) && limit > 0 && Reachable(less, log, s, limit)
    ensures Retains(less, log, s, limit)
  {
    if log != [] {
      var before := log[..|log| - 1];
      SplitLast(log);
      var s0: seq<T> :| Reachable(less, before, s0, limit) && WriteStep(less, s0, Last(log), s, limit);
      ReachableRetains(less, before, s0, limit);
      StepRetains(less, before, s0, Last(log), s, limit);
    }
  }

  // ----- many series side by side -----

  ghost predicate Pairwise<K, T>(ok: (seq<T>, seq<T>) -> bool, logs: map<K, seq<T>>, series: map<K, seq<T>>) {
    logs.Keys == series.Keys && forall k :: k in series ==> ok(logs[k], series[k])
  }

  /** Every series is what some run of the writes in its log leaves. */
  ghost predicate Follow<K, T(!new)>(less: (T, T) -> bool, logs: map<K, seq<T>>, series: map<K, seq<T>>, limit: nat) {
    Pairwise((log, s) => Reachable(less, log, s, limit), logs, series)
  }

  lemma WriteFollows<K, T(!new)>(less: (T, T) -> bool, logs: map<K, seq<T>>, series: map<K, seq<T>>, limit: nat,
                                 k: K, p: T, s': seq<T>)
    requires Follow(less, logs, series, limit) && WriteStep(less, At(series, k), p, s', limit)
    ensures Follow(less, logs[k := At(logs, k) + [p]], series[k := s'], limit)
  {
    ReachableStep(less, At(logs, k), At(series, k), p, s', limit);
    OnePairChanges((log, s) => Reachable(less, log, s, limit), logs, series, k, At(logs, k) + [p], s');
  }

  lemma OnePairChanges<K, T>(ok: (seq<T>, seq<T>) -> bool, logs: map<K, seq<T>>, series: map<K, seq<T>>,
                             k: K, log': seq<T>, s': seq<T>)
    requires Pairwise(ok, logs, series) && ok(log', s')
    ensures Pairwise(ok, logs[k := log'], series[k := s'])
  {
  }

  // ----- the horizon -----

  /** Nothing evicted exceeds the second element of a series. */
  lemma DroppedBelowHorizon<T(!new)>(less: (T, T) -> bool, log: seq<T>, s: seq<T>, limit: nat, d: T)
    requires StrictWeakOrder(less) && Retains(less, log, s, limit) && |s| >= 2 && d in Dropped(log, s)
    ensures !less(s[1], d)
  {
    var p := Last(log);
    assert !less(s[1], s[0]);
    if s[1] !in multiset(s) - multiset{p} {
      assert s[1] == s[1..][0];
      OnlyTheLastIsMissing(s, p, s[1]);
      assert !less(s[0], d);
    }
  }

  /** Writing elements that are already in order, up to the limit, stores them as they are. */
  lemma {:induction false} SortedLogIsStored<T(!new)>(less: (T, T) -> bool, log: seq<T>, limit: nat)
    requires Sorted(log, less) && |log| <= limit
    ensures Reachable(less, log, log, limit)
  {
    if log != [] {
      var before := log[..|log| - 1];
      SortedLogIsStored(less, before, limit);
      SplitLast(log);
      assert WriteStep(less, before, Last(log), log, limit);
    }
  }

  lemma EvictFirst<T>(d: T, s: seq<T>, limit: nat)
    requires 0 < limit == |s|
    ensures multiset(s) == multiset(LastUpTo([d] + s[1..] + [s[0]], limit))
    ensures d in Dropped([d] + s[1..] + [s[0]], s)
  {
    assert s == [s[0]] + s[1..];
    assert LastUpTo([d] + s[1..] + [s[0]], limit) == s[1..] + [s[0]];
    assert multiset([d] + s[1..] + [s[0]]) == multiset(s) + multiset{d};
  }

  lemma SortedCons<T(!new)>(less: (T, T) -> bool, d: T, s: seq<T>)
    requires StrictWeakOrder(less) && Sorted(s, less) && (s != [] ==> !less(s[0], d))
    ensures Sorted([d] + s, less)
  {
    forall j | 0 <= j < |s| ensures !less(s[j], d) {
      assert j == 0 || !less(s[j], s[0]);
    }
  }

  /** The horizon cannot be moved down: any full series ends some run that evicted d, for every d
      that does not exceed the element at position 1. */
  lemma HorizonWitness<T(!new)>(less: (T, T) -> bool, s: seq<T>, limit: nat, d: T) returns (log: seq<T>)
    requires StrictWeakOrder(less) && 0 < limit == |s| && Sorted(s, less) && (limit >= 2 ==> !less(s[1], d))
    ensures Reachable(less, log, s, limit) && d in Dropped(log, s) && log == [d] + s[1..] + [s[0]]
  {
    var ordered := [d] + s[1..];
    SortedCons(less, d, s[1..]);
    SortedLogIsStored(less, ordered, limit);
    log := ordered + [s[0]];
    EvictFirst(d, s, limit);
    ReachableStep(less, ordered, ordered, s[0], s, limit);
  }

  /** A filtered series equals the filtered log if and only if nothing evicted passes the filter. */
  lemma FilterAgreesIffNothingDropped<T(!new)>(log: seq<T>, s: seq<T>, p: T -> bool)
    requires multiset(s) <= multiset(log)
    ensures multiset(Filter(s, p)) == multiset(Filter(log, p)) <==> forall d :: d in Dropped(log, s) ==> !p(d)
  {
    forall x: T
      ensures multiset(Filter(s, p))[x] == if p(x) then multiset(s)[x] else 0
      ensures multiset(Filter(log, p))[x] == if p(x) then multiset(log)[x] else 0
    {
      FilterMultiplicity(s, p, x);
      FilterMultiplicity(log, p, x);
    }
    if multiset(Filter(s, p)) == multiset(Filter(log, p)) {
      forall d | d in Dropped(log, s) ensures !p(d) {
        assert multiset(Filter(s, p))[d] == multiset(Filter(log, p))[d];
      }
    }
    if forall d :: d in Dropped(log, s) ==> !p(d) {
      forall x: T ensures multiset(Filter(s, p))[x] == multiset(Filter(log, p))[x] {
        assert x in Dropped(log, s) <==> multiset(log)[x] > multiset(s)[x];
      }
    }
  }

  // ----- the closed form, on keys that are totally ordered -----

  ghost predicate TotalOrder<K(!new)>(less: (K, K) -> bool) {
    StrictWeakOrder(less) && forall a, b :: a == b || less(a, b) || less(b, a)
  }

  /** Reference sort by insertion. */
  function InsertKey<K>(less: (K, K) -> bool, s: seq<K>, k: K): seq<K> {
    if s == [] then [k]
    else if less(k, Last(s)) then InsertKey(less, s[..|s| - 1], k) + [Last(s)]
    else s + [k]
  }

  function SortKeys<K>(less: (K, K) -> bool, s: seq<K>): seq<K> {
    if s == [] then [] else InsertKey(less, SortKeys(less, s[..|s| - 1]), Last(s))
  }

  lemma {:induction false} InsertKeyContents<K>(less: (K, K) -> bool, s: seq<K>, k: K)
    ensures multiset(InsertKey(less, s, k)) == multiset(s) + multiset{k}
  {
    if s != [] && less(k, Last(s)) {
      SplitLast(s);
      InsertKeyContents(less, s[..|s| - 1], k);
    }
  }

  lemma BelowOneMore<K(!new)>(less: (K, K) -> bool, low: multiset<K>, k: K, x: K)
    requires StrictWeakOrder(less) && Below(less, low, multiset{x}) && less(k, x)
    ensures Below(less, low + multiset{k}, multiset{x})
  {
  }

  lemma {:induction false} InsertKeySorts<K(!new)>(less: (K, K) -> bool, s: seq<K>, k: K)
    requires StrictWeakOrder(less) && Sorted(s, less)
    ensures Sorted(InsertKey(less, s, k), less) && multiset(InsertKey(less, s, k)) == multiset(s) + multiset{k}
  {
    InsertKeyContents(less, s, k);
    if s != [] {
      var s', x := s[..|s| - 1], Last(s);
      SplitLast(s);
      LastIsGreatest(less, s);
      if less(k, x) {
        InsertKeySorts(less, s', k);
        BelowOneMore(less, multiset(s'), k, x);
        SortedSnoc(less, InsertKey(less, s', k), x);
      } else {
        SortedSnoc(less, s, k);
      }
    }
  }

  lemma LastIsGreatest<K(!new)>(less: (K, K) -> bool, s: seq<K>)
    requires s != [] && Sorted(s, less)
    ensures Below(less, multiset(s[..|s| - 1]), multiset{Last(s)})
  {
    forall d | d in multiset(s[..|s| - 1]) ensures !less(Last(s), d) {
      var i :| 0 <= i < |s| - 1 && s[i] == d;
    }
  }

  lemma SortedSnoc<K(!new)>(less: (K, K) -> bool, s: seq<K>, x: K)
    requires Sorted(s, less) && Below(less, multiset(s), multiset{x})
    ensures Sorted(s + [x], less)
  {
    forall i | 0 <= i < |s| ensures !less(x, s[i]) {
      assert s[i] in multiset(s);
    }
  }

  lemma {:induction false} SortKeysSorts<K(!new)>(less: (K, K) -> bool, s: seq<K>)
    requires StrictWeakOrder(less)
    ensures Sorted(SortKeys(less, s), less) && multiset(SortKeys(less, s)) == multiset(s)
  {
    if s != [] {
      SortKeysSorts(less, s[..|s| - 1]);
      InsertKeySorts(less, SortKeys(less, s[..|s| - 1]), Last(s));
      SplitLast(s);
    }
  }

  lemma SameGreatest<K(!new)>(less: (K, K) -> bool, a: seq<K>, b: seq<K>)
    requires TotalOrder(less) && Sorted(a, less) && Sorted(b, less) && multiset(a) == multiset(b)
    requires a != [] && b != []
    ensures Last(a) == Last(b)
  {
    assert Last(a) in multiset(b) && Last(b) in multiset(a);
  }

  /** A total order leaves only one sorted arrangement. */
  lemma {:induction false} SortedUnique<K(!new)>(less: (K, K) -> bool, a: seq<K>, b: seq<K>)
    requires TotalOrder(less) && Sorted(a, less) && Sorted(b, less) && multiset(a) == multiset(b)
    ensures a == b
  {
    SameSize(a, b);
    if a != [] {
      SameGreatest(less, a, b);
      SplitLast(a);
      SplitLast(b);
      SortedUnique(less, a[..|a| - 1], b[..|b| - 1]);
    }
  }

  /** The comparator of the series looks at the keys only. */
  ghost predicate ComparesKeys<T(!new), K(!new)>(less: (T, T) -> bool, key: T -> K, keyLess: (K, K) -> bool) {
    TotalOrder(keyLess) && forall a, b :: less(a, b) == keyLess(key(a), key(b))
  }

  lemma KeysOfSorted<T(!new), K(!new)>(less: (T, T) -> bool, key: T -> K, keyLess: (K, K) -> bool, s: seq<T>)
    requires ComparesKeys(less, key, keyLess) && Sorted(s, less)
    ensures Sorted(Map(s, key), keyLess)
  {
    var ks := Map(s, key);
    forall i, j | 0 <= i < j < |ks| ensures !keyLess(ks[j], ks[i]) {
      assert !less(s[j], s[i]);
    }
  }

  /** The keys of a sorted series are the keys of any of its permutations, sorted. */
  lemma KeysOfPermutation<T(!new), K(!new)>(less: (T, T) -> bool, key: T -> K, keyLess: (K, K) -> bool,
                                            s: seq<T>, log: seq<T>)
    requires ComparesKeys(less, key, keyLess) && Sorted(s, less) && multiset(s) == multiset(log)
    ensures Map(s, key) == SortKeys(keyLess, Map(log, key))
  {
    KeysOfSorted(less, key, keyLess, s);
    MapPermutation(s, log, key);
    SortKeysSorts(keyLess, Map(log, key));
    SortedUnique(keyLess, Map(s, key), SortKeys(keyLess, Map(log, key)));
  }

  lemma SortedWithoutOne<T>(less: (T, T) -> bool, before: seq<T>, x: T, after: seq<T>)
    requires Sorted(before + [x] + after, less)
    ensures Sorted(before + after, less)
  {
    var s, r := before + [x] + after, before + after;
    forall i, j | 0 <= i < j < |r| ensures !less(r[j], r[i]) {
      var i', j' := if i < |before| then i else i + 1, if j < |before| then j else j + 1;
      assert !less(s[j'], s[i']);
    }
  }

  lemma {:induction false} SequenceOf<T>(m: multiset<T>) returns (d: seq<T>)
    ensures multiset(d) == m
    decreases |m|
  {
    d := [];
    if m != multiset{} {
      var x :| x in m;
      d := SequenceOf(m - multiset{x});
      d := d + [x];
    }
  }

  lemma EarlierBalance<T>(log: seq<T>, s: seq<T>, d: seq<T>, kept: seq<T>)
    requires log != [] && multiset(s) <= multiset(log) && Last(log) in multiset(s)
    requires multiset(d) == Dropped(log, s) && multiset(kept) == multiset(s) - multiset{Last(log)}
    ensures multiset(d + kept) == multiset(log[..|log| - 1])
  {
    SplitLast(log);
  }

  lemma SortedConcat<K(!new)>(less: (K, K) -> bool, a: seq<K>, b: seq<K>)
    requires Sorted(a, less) && Sorted(b, less) && Below(less, multiset(a), multiset(b))
    ensures Sorted(a + b, less)
  {
    forall i, j | 0 <= i < j < |a + b| ensures !less((a + b)[j], (a + b)[i]) {
      if i < |a| <= j {
        assert a[i] in multiset(a) && b[j - |a|] in multiset(b);
      }
    }
  }

  lemma BelowOfKeys<T(!new), K(!new)>(less: (T, T) -> bool, key: T -> K, keyLess: (K, K) -> bool,
                                      d: seq<T>, kept: seq<T>)
    requires ComparesKeys(less, key, keyLess) && Below(less, multiset(d), multiset(kept))
    ensures Below(keyLess, multiset(Map(d, key)), multiset(Map(kept, key)))
  {
    forall x, y | x in multiset(Map(d, key)) && y in multiset(Map(kept, key)) ensures !keyLess(y, x) {
      var i :| 0 <= i < |d| && Map(d, key)[i] == x;
      var j :| 0 <= j < |kept| && Map(kept, key)[j] == y;
      assert d[i] in multiset(d) && kept[j] in multiset(kept);
      assert !less(kept[j], d[i]);
    }
  }

  /** All writes but the last, sorted: first the evicted keys, then the kept ones. */
  lemma EarlierKeysSplit<T(!new), K(!new)>(less: (T, T) -> bool, key: T -> K, keyLess: (K, K) -> bool,
                                           log: seq<T>, d: seq<T>, kept: seq<T>)
    requires ComparesKeys(less, key, keyLess) && log != [] && Sorted(kept, less)
    requires multiset(d + kept) == multiset(log[..|log| - 1]) && Below(less, multiset(d), multiset(kept))
    ensures SortKeys(keyLess, Map(log[..|log| - 1], key)) == SortKeys(keyLess, Map(d, key)) + Map(kept, key)
  {
    var earlier, low, high := Map(log[..|log| - 1], key), SortKeys(keyLess, Map(d, key)), Map(kept, key);
    SortKeysSorts(keyLess, Map(d, key));
    KeysOfSorted(less, key, keyLess, kept);
    BelowOfKeys(less, key, keyLess, d, kept);
    SortedConcat(keyLess, low, high);
    MapConcat(d, kept, key);
    MapPermutation(d + kept, log[..|log| - 1], key);
    assert multiset(low + high) == multiset(Map(d, key) + high) == multiset(earlier);
    SortKeysSorts(keyLess, earlier);
    SortedUnique(keyLess, low + high, SortKeys(keyLess, earlier));
  }

  lemma KeysWithNewest<T(!new), K(!new)>(less: (T, T) -> bool, key: T -> K, keyLess: (K, K) -> bool,
                                         s: seq<T>, kept: seq<T>, p: T)
    requires ComparesKeys(less, key, keyLess) && Sorted(s, less) && Sorted(kept, less)
    requires multiset(s) == multiset(kept + [p])
    ensures Map(s, key) == InsertKey(keyLess, Map(kept, key), key(p))
  {
    KeysOfSorted(less, key, keyLess, s);
    KeysOfSorted(less, key, keyLess, kept);
    InsertKeySorts(keyLess, Map(kept, key), key(p));
    MapPermutation(s, kept + [p], key);
    MapConcat(kept, [p], key);
    assert Map([p], key) == [key(p)];
    SortedUnique(keyLess, Map(s, key), InsertKey(keyLess, Map(kept, key), key(p)));
  }

  /** Up to the limit all keys are kept.  Beyond it, exactly the limit-1 greatest keys of all
      writes but the last, and the last write whatever its key. */
  lemma RetentionClosedForm<T(!new), K(!new)>(less: (T, T) -> bool, key: T -> K, keyLess: (K, K) -> bool,
                                              log: seq<T>, s: seq<T>, limit: nat)
    requires ComparesKeys(less, key, keyLess) && limit > 0 && Retains(less, log, s, limit)
    ensures |log| <= limit ==> Map(s, key) == SortKeys(keyLess, Map(log, key))
    ensures |log| > limit ==>
              Map(s, key) == InsertKey(keyLess, LastUpTo(SortKeys(keyLess, Map(log[..|log| - 1], key)), limit - 1),
                                       key(Last(log)))
  {
    if |log| <= limit {
      NothingDropped(s, log);
      KeysOfPermutation(less, key, keyLess, s, log);
    } else {
      FullClosedForm(less, key, keyLess, log, s, limit);
    }
  }

  lemma FullClosedForm<T(!new), K(!new)>(less: (T, T) -> bool, key: T -> K, keyLess: (K, K) -> bool,
                                         log: seq<T>, s: seq<T>, limit: nat)
    requires ComparesKeys(less, key, keyLess) && Sorted(s, less) && 0 < limit == |s| < |log|
    requires multiset(s) <= multiset(log) && Last(log) in multiset(s)
    requires Below(less, Dropped(log, s), multiset(s) - multiset{Last(log)})
    ensures Map(s, key) == InsertKey(keyLess, LastUpTo(SortKeys(keyLess, Map(log[..|log| - 1], key)), limit - 1),
                                     key(Last(log)))
  {
    var d, kept := SplitLog(less, log, s);
    assert |kept| == limit - 1 by { SameSize(kept + [Last(log)], s); }
    EarlierKeysSplit(less, key, keyLess, log, d, kept);
    KeysWithNewest(less, key, keyLess, s, kept, Last(log));
    LastUpToConcat(SortKeys(keyLess, Map(d, key)), Map(kept, key));
  }

  /** The earlier writes are the evicted ones and those still kept. */
  lemma SplitLog<T(!new)>(less: (T, T) -> bool, log: seq<T>, s: seq<T>) returns (d: seq<T>, kept: seq<T>)
    requires Sorted(s, less) && log != [] && multiset(s) <= multiset(log) && Last(log) in multiset(s)
    requires Below(less, Dropped(log, s), multiset(s) - multiset{Last(log)})
    ensures Sorted(kept, less) && multiset(s) == multiset(kept + [Last(log)])
    ensures multiset(d + kept) == multiset(log[..|log| - 1]) && Below(less, multiset(d), multiset(kept))
  {
    var before, after := RemoveOne(s, Last(log));
    kept := before + after;
    SortedWithoutOne(less, before, Last(log), after);
    d := SequenceOf(Dropped(log, s));
    EarlierBalance(log, s, d, kept);
  }
}
