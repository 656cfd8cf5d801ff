/** The sliding window of a rule: an incremental buffer against the window computed from history. */
module RuleWindow {
  import opened Sequences
  import opened TimeSeriesModel

  const BUFFER_LIMIT: nat := 1000

  predicate Fresh(cutoff: Time, p: Point) { p.timestamp >= cutoff }

  // ----- pruning by binary search -----

  /** Go's `sort.Search` for the first unexpired position of s[i..j]. */
  function SearchFrom(s: seq<Point>, cutoff: Time, i: nat, j: nat): (idx: nat)
    requires i <= j <= |s|
    ensures i <= idx <= j
    decreases j - i
  {
    if i >= j then i
    else
      var h := (i + j) / 2;
      if !Fresh(cutoff, s[h]) then SearchFrom(s, cutoff, h + 1, j) else SearchFrom(s, cutoff, i, h)
  }

  function Prune(s: seq<Point>, cutoff: Time): seq<Point> {
    s[SearchFrom(s, cutoff, 0, |s|)..]
  }

  predicate ExpiredUpTo(s: seq<Point>, cutoff: Time, i: nat)
    requires i <= |s|
  {
    i == 0 || !Fresh(cutoff, s[i - 1])
  }

  predicate FreshAt(s: seq<Point>, cutoff: Time, j: nat)
    requires j <= |s|
  {
    j == |s| || Fresh(cutoff, s[j])
  }

  lemma MiddleIsInside(i: nat, j: nat)
    requires i < j
    ensures i <= (i + j) / 2 < j
  {
  }

  /** Whatever the order of the points, the search stops at a boundary: it lands on an unexpired
      point or the end, right behind an expired point or the start. */
  lemma {:induction false} SearchFindsBoundary(s: seq<Point>, cutoff: Time, i: nat, j: nat)
    requires i <= j <= |s|
    requires ExpiredUpTo(s, cutoff, i) && FreshAt(s, cutoff, j)
    ensures ExpiredUpTo(s, cutoff, SearchFrom(s, cutoff, i, j)) && FreshAt(s, cutoff, SearchFrom(s, cutoff, i, j))
    decreases j - i
  {
    if i < j {
      MiddleIsInside(i, j);
      var h := (i + j) / 2;
      if !Fresh(cutoff, s[h]) {
        SearchFindsBoundary(s, cutoff, h + 1, j);
      } else {
        SearchFindsBoundary(s, cutoff, i, h);
      }
    }
  }

  /** So pruning keeps a suffix that is empty or starts with an unexpired point, and whose
      predecessor, if any, is expired. */
  lemma PruneKeepsBoundary(s: seq<Point>, cutoff: Time)
    ensures exists idx: nat :: idx <= |s| && Prune(s, cutoff) == s[idx..]
              && ExpiredUpTo(s, cutoff, idx) && FreshAt(s, cutoff, idx)
  {
    SearchFindsBoundary(s, cutoff, 0, |s|);
  }

  /** `prunePoints`: the loop of `sort.Search`, then the suffix. */
  method PrunePoints(s: seq<Point>, cutoff: Time) returns (kept: seq<Point>)
    ensures kept == Prune(s, cutoff)
  {
    var i, j := 0, |s|;
    while i < j
      invariant 0 <= i <= j <= |s|
      invariant SearchFrom(s, cutoff, i, j) == SearchFrom(s, cutoff, 0, |s|)
      decreases j - i
    {
      var h := (i + j) / 2;
      if s[h].timestamp < cutoff {
        i := h + 1;
      } else {
        j := h;
      }
    }
    kept := s[i..];
  }

  lemma {:induction false} FilterKeepsAll<T>(s: seq<T>, p: T -> bool)
    requires forall x :: x in s ==> p(x)
    ensures Filter(s, p) == s
  {
    if s != [] {
      FilterKeepsAll(s[..|s| - 1], p);
      SplitLast(s);
    }
  }

  lemma {:induction false} FilterDropsAll<T>(s: seq<T>, p: T -> bool)
    requires forall x :: x in s ==> !p(x)
    ensures Filter(s, p) == []
  {
    if s != [] {
      FilterDropsAll(s[..|s| - 1], p);
    }
  }

  function Window(s: seq<Point>, cutoff: Time): seq<Point> { Filter(s, p => Fresh(cutoff, p)) }

  lemma ExpiredBefore(s: seq<Point>, cutoff: Time, idx: nat)
    requires InTimeOrder(s) && idx <= |s| && (idx == 0 || !Fresh(cutoff, s[idx - 1]))
    ensures Window(s[..idx], cutoff) == []
  {
    forall x | x in s[..idx] ensures !Fresh(cutoff, x) {
      var k :| 0 <= k < |s[..idx]| && s[..idx][k] == x;
      assert s[k].timestamp <= s[idx - 1].timestamp;
    }
    FilterDropsAll(s[..idx], p => Fresh(cutoff, p));
  }

  lemma FreshFrom(s: seq<Point>, cutoff: Time, idx: nat)
    requires InTimeOrder(s) && idx <= |s| && (idx == |s| || Fresh(cutoff, s[idx]))
    ensures Window(s[idx..], cutoff) == s[idx..]
  {
    forall x | x in s[idx..] ensures Fresh(cutoff, x) {
      var k :| 0 <= k < |s[idx..]| && s[idx..][k] == x;
      assert s[idx].timestamp <= s[idx + k].timestamp;
    }
    FilterKeepsAll(s[idx..], p => Fresh(cutoff, p));
  }

  /** On points in time order, pruning is exactly the filter. */
  lemma PruneIsFilter(s: seq<Point>, cutoff: Time)
    requires InTimeOrder(s)
    ensures Prune(s, cutoff) == Window(s, cutoff)
  {
    var idx := SearchFrom(s, cutoff, 0, |s|);
    SearchFindsBoundary(s, cutoff, 0, |s|);
    ExpiredBefore(s, cutoff, idx);
    FreshFrom(s, cutoff, idx);
    FilterConcat(s[..idx], s[idx..], p => Fresh(cutoff, p));
    SplitAt(s, idx);
  }

  // ----- the buffer -----

  /** A point that reached the rule, with the cutoff in force when it did. */
  datatype Arrival = Arrival(point: Point, cutoff: Time)

  function NextBuffer(buffer: seq<Point>, a: Arrival): seq<Point> {
    LastUpTo(Prune(buffer + [a.point], a.cutoff), BUFFER_LIMIT)
  }

  type Buffering = (seq<Point>, Arrival) -> seq<Point>

  /** The buffer a history leaves under any way of buffering. */
  function Buffer(next: Buffering, history: seq<Arrival>): seq<Point> {
    if history == [] then [] else next(Buffer(next, history[..|history| - 1]), Last(history))
  }

  function BufferAfter(history: seq<Arrival>): seq<Point> { Buffer(NextBuffer, history) }

  lemma BufferSnoc(next: Buffering, history: seq<Arrival>, a: Arrival)
    ensures Buffer(next, history + [a]) == next(Buffer(next, history), a)
  {
    assert (history + [a])[..|history|] == history;
  }

  function Points(history: seq<Arrival>): seq<Point> { Map(history, (a: Arrival) => a.point) }

  /** Points in time order, and a cutoff that never moves back: a fixed window under a
      nondecreasing clock, or one that is only ever narrowed. */
  ghost predicate InOrder(history: seq<Arrival>) {
    && InTimeOrder(Points(history))
    && forall i, j :: 0 <= i < j < |history| ==> history[i].cutoff <= history[j].cutoff
  }

  lemma LastUpToSuffix<T>(a: seq<T>, b: seq<T>, n: nat)
    requires |b| >= n
    ensures LastUpTo(a + b, n) == LastUpTo(b, n)
  {
  }

  /** Cutting the window before it moves on loses nothing that the next cut would have kept. */
  lemma CutThenFilter(full: seq<Point>, cutoff: Time, more: seq<Point>)
    requires InTimeOrder(full)
    ensures LastUpTo(Window(LastUpTo(full, BUFFER_LIMIT), cutoff) + more, BUFFER_LIMIT)
         == LastUpTo(Window(full, cutoff) + more, BUFFER_LIMIT)
  {
    if |full| > BUFFER_LIMIT {
      var a, b := full[..|full| - BUFFER_LIMIT], full[|full| - BUFFER_LIMIT..];
      SplitAt(full, |full| - BUFFER_LIMIT);
      FilterConcat(a, b, p => Fresh(cutoff, p));
      if Window(a, cutoff) != [] {
        var x := Window(a, cutoff)[0];
        FilterMember(a, p => Fresh(cutoff, p), x);
        var i :| 0 <= i < |a| && a[i] == x;
        forall y | y in b ensures Fresh(cutoff, y) {
          var j :| 0 <= j < |b| && b[j] == y;
          assert full[i].timestamp <= full[|a| + j].timestamp;
        }
        FilterKeepsAll(b, p => Fresh(cutoff, p));
        ConcatAssociates(Window(a, cutoff), b, more);
        LastUpToSuffix(Window(a, cutoff), b + more, BUFFER_LIMIT);
      } else {
        assert [] + Window(b, cutoff) == Window(b, cutoff);
      }
    }
  }

  lemma WindowOrdered(s: seq<Point>, cutoff: Time)
    requires InTimeOrder(s)
    ensures InTimeOrder(Window(s, cutoff))
  {
    FilterSorted(s, p => Fresh(cutoff, p));
    assert Window(s, cutoff) == Filter(s, p => Fresh(cutoff, p));
  }

  /** One arrival keeps the buffer equal to the cut window of the history so far. */
  lemma ArrivalKeepsWindow(past: seq<Point>, before: Time, a: Arrival)
    requires InTimeOrder(past + [a.point]) && before <= a.cutoff
    ensures NextBuffer(LastUpTo(Window(past, before), BUFFER_LIMIT), a)
         == LastUpTo(Window(past + [a.point], a.cutoff), BUFFER_LIMIT)
  {
    assert past == (past + [a.point])[..|past|];
    var full := Window(past, before);
    WindowOrdered(past, before);
    var buffer := LastUpTo(full, BUFFER_LIMIT);
    BufferThenPoint(past, before, a);
    PruneIsFilter(buffer + [a.point], a.cutoff);
    FilterConcat(buffer, [a.point], p => Fresh(a.cutoff, p));
    FilterConcat(past, [a.point], p => Fresh(a.cutoff, p));
    FilterTwice(past, p => Fresh(before, p), p => Fresh(a.cutoff, p), p => Fresh(a.cutoff, p));
    CutThenFilter(full, a.cutoff, Window([a.point], a.cutoff));
  }

  lemma BufferThenPoint(past: seq<Point>, before: Time, a: Arrival)
    requires InTimeOrder(past + [a.point])
    ensures InTimeOrder(LastUpTo(Window(past, before), BUFFER_LIMIT) + [a.point])
  {
    assert past == (past + [a.point])[..|past|];
    WindowOrdered(past, before);
    var full := Window(past, before);
    forall i | 0 <= i < |full| ensures full[i].timestamp <= a.point.timestamp {
      FilterMember(past, p => Fresh(before, p), full[i]);
      var k :| 0 <= k < |past| && past[k] == full[i];
      assert (past + [a.point])[k].timestamp <= (past + [a.point])[|past|].timestamp;
    }
  }

  /** Refinement: after every arrival the incremental, binary-searched, capped buffer is the last
      at most 1000 points of the whole history inside the window. */
  lemma {:induction false} BufferIsWindow(history: seq<Arrival>)
    requires history != [] && InOrder(history)
    ensures BufferAfter(history) == LastUpTo(Window(Points(history), Last(history).cutoff), BUFFER_LIMIT)
  {
    var past, a := history[..|history| - 1], Last(history);
    PastInOrder(history);
    assert BufferAfter(history) == NextBuffer(BufferAfter(past), a);
    if past == [] {
      assert Points(past) == [] && LastUpTo(Window([], a.cutoff), BUFFER_LIMIT) == [];
      ArrivalKeepsWindow([], a.cutoff, a);
    } else {
      BufferIsWindow(past);
      ArrivalKeepsWindow(Points(past), Last(past).cutoff, a);
    }
  }

  lemma PastInOrder(history: seq<Arrival>)
    requires history != [] && InOrder(history)
    ensures InOrder(history[..|history| - 1])
    ensures Points(history) == Points(history[..|history| - 1]) + [Last(history).point]
    ensures |history| > 1 ==> Last(history[..|history| - 1]).cutoff <= Last(history).cutoff
  {
    var past, a := history[..|history| - 1], Last(history);
    SplitLast(history);
    MapConcat(past, [a], (x: Arrival) => x.point);
    assert Points(past) == Points(history)[..|past|];
  }
}
