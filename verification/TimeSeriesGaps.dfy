/** Gap detection over the sample times of a series. */
module TimeSeriesGaps {
  import opened Sequences
  import opened TimeSeriesModel

  datatype GapRequest = GapRequest(deviceId: string, property: string, start: Time, end: Time,
                                   expectedInterval: Duration)

  datatype Gap = Gap(deviceId: string, property: string, start: Time, end: Time, duration: Duration,
                     expectedInterval: Duration)

  /** Go's integer division, which truncates toward zero. */
  function GoDiv(a: int, b: int): int
    requires b > 0
  {
    if a >= 0 then a / b else -(-a / b)
  }

  function Threshold(interval: Duration): Duration { GoDiv(interval * 3, 2) }

  /** Longer than one and a half intervals. */
  predicate TooLong(interval: Duration, length: Duration) { 2 * length > 3 * interval }

  /** Rounding the threshold down makes no difference to lengths in whole nanoseconds. */
  lemma AboveThresholdIffTooLong(interval: Duration, length: Duration)
    requires interval > 0
    ensures length > Threshold(interval) <==> TooLong(interval, length)
  {
  }

  function Times(s: seq<Point>): seq<Time> { Map(s, (p: Point) => p.timestamp) }

  ghost predicate InOrder(ts: seq<Time>) { forall i, j :: 0 <= i < j < |ts| ==> ts[i] <= ts[j] }

  function MakeGap(req: GapRequest, a: Time, b: Time): Gap {
    Gap(req.deviceId, req.property, a, b, b - a, req.expectedInterval)
  }

  /** Neighbouring times more than the threshold apart, in order. */
  function GapsOf(req: GapRequest, ts: seq<Time>): seq<Gap> {
    if |ts| < 2 then []
    else
      var a, b := ts[|ts| - 2], ts[|ts| - 1];
      GapsOf(req, ts[..|ts| - 1]) + if b - a > Threshold(req.expectedInterval) then [MakeGap(req, a, b)] else []
  }

  /** (a, b) is an empty stretch between two samples, longer than tolerated. */
  ghost predicate IsGap(req: GapRequest, ts: seq<Time>, a: Time, b: Time) {
    && a in ts && b in ts
    && (forall t :: t in ts ==> !(a < t < b))
    && TooLong(req.expectedInterval, b - a)
  }

  lemma {:induction false} GapsAreNeighbours(req: GapRequest, ts: seq<Time>, g: Gap) returns (i: nat)
    requires g in GapsOf(req, ts)
    ensures i + 1 < |ts| && g == MakeGap(req, ts[i], ts[i + 1]) && g.duration > Threshold(req.expectedInterval)
  {
    if g in GapsOf(req, ts[..|ts| - 1]) {
      i := GapsAreNeighbours(req, ts[..|ts| - 1], g);
    } else {
      i := |ts| - 2;
    }
  }

  lemma {:induction false} NeighboursAreGaps(req: GapRequest, ts: seq<Time>, i: nat)
    requires i + 1 < |ts| && ts[i + 1] - ts[i] > Threshold(req.expectedInterval)
    ensures MakeGap(req, ts[i], ts[i + 1]) in GapsOf(req, ts)
  {
    if i + 1 < |ts| - 1 {
      NeighboursAreGaps(req, ts[..|ts| - 1], i);
    }
  }

  lemma ReportedIsGap(req: GapRequest, ts: seq<Time>, a: Time, b: Time)
    requires InOrder(ts) && req.expectedInterval > 0 && MakeGap(req, a, b) in GapsOf(req, ts)
    ensures IsGap(req, ts, a, b)
  {
    AboveThresholdIffTooLong(req.expectedInterval, b - a);
    var i := GapsAreNeighbours(req, ts, MakeGap(req, a, b));
    assert ts[i] in ts && ts[i + 1] in ts;
    forall t | t in ts ensures !(a < t < b) {
      var j :| 0 <= j < |ts| && ts[j] == t;
      assert j <= i ==> t <= ts[i];
      assert j > i ==> ts[i + 1] <= t;
    }
  }

  lemma GapIsReported(req: GapRequest, ts: seq<Time>, a: Time, b: Time)
    requires InOrder(ts) && req.expectedInterval > 0 && IsGap(req, ts, a, b)
    ensures MakeGap(req, a, b) in GapsOf(req, ts)
  {
    var k :| 0 <= k < |ts| && ts[k] == a;
    assert ts[0] <= ts[k];
    var i := LastAt(ts, a);
    var j :| 0 <= j < |ts| && ts[j] == b;
    assert ts[Min(i, j)] <= ts[i];
    assert ts[i + 1] in ts && ts[i + 1] <= ts[j];
    AboveThresholdIffTooLong(req.expectedInterval, b - a);
    NeighboursAreGaps(req, ts, i);
  }

  /** Sound and complete: a stretch is reported if and only if it is an empty stretch between two
      samples that is longer than one and a half intervals. */
  lemma ReportedIffGap(req: GapRequest, ts: seq<Time>, a: Time, b: Time)
    requires InOrder(ts) && req.expectedInterval > 0
    ensures MakeGap(req, a, b) in GapsOf(req, ts) <==> IsGap(req, ts, a, b)
  {
    if MakeGap(req, a, b) in GapsOf(req, ts) {
      ReportedIsGap(req, ts, a, b);
    }
    if IsGap(req, ts, a, b) {
      GapIsReported(req, ts, a, b);
    }
  }

  /** The last position that holds a time no later than x. */
  lemma {:induction false} LastAt(ts: seq<Time>, x: Time) returns (i: nat)
    requires InOrder(ts) && ts != [] && ts[0] <= x
    ensures i < |ts| && ts[i] <= x && (i + 1 < |ts| ==> x < ts[i + 1])
    ensures x in ts ==> ts[i] == x
  {
    i := |ts| - 1;
    while ts[i] > x
      invariant i < |ts| && forall j :: i < j < |ts| ==> x < ts[j]
      decreases i
    {
      i := i - 1;
    }
    if x in ts {
      var j :| 0 <= j < |ts| && ts[j] == x;
      assert ts[j] <= ts[i];
    }
  }

  /** Reported in order, once each, without overlap. */
  lemma {:induction false} GapsInOrder(req: GapRequest, ts: seq<Time>)
    requires InOrder(ts) && req.expectedInterval > 0
    ensures forall g :: g in GapsOf(req, ts) ==>
                          g.start < g.end && g == MakeGap(req, g.start, g.end) && g.duration == g.end - g.start
                          && g.deviceId == req.deviceId && g.property == req.property
                          && g.expectedInterval == req.expectedInterval
    ensures forall i, j :: 0 <= i < j < |GapsOf(req, ts)| ==> GapsOf(req, ts)[i].end <= GapsOf(req, ts)[j].start
  {
    if |ts| >= 2 {
      var ts' := ts[..|ts| - 1];
      GapsInOrder(req, ts');
      var gs := GapsOf(req, ts');
      forall i | 0 <= i < |gs| ensures gs[i].end <= ts[|ts| - 2] {
        var k := GapsAreNeighbours(req, ts', gs[i]);
      }
    }
  }

  /** Nothing long is missed: a sample-free stretch between the first and the last sample that is
      longer than the threshold lies inside one reported gap. */
  lemma LongStretchIsCovered(req: GapRequest, ts: seq<Time>, x: Time, y: Time)
    requires InOrder(ts) && req.expectedInterval > 0 && ts != []
    requires ts[0] <= x && y <= Last(ts) && TooLong(req.expectedInterval, y - x)
    requires forall t :: t in ts ==> !(x < t < y)
    ensures exists g :: g in GapsOf(req, ts) && g.start <= x && y <= g.end
  {
    var i := LastAt(ts, x);
    assert ts[i + 1] in ts;
    AboveThresholdIffTooLong(req.expectedInterval, ts[i + 1] - ts[i]);
    NeighboursAreGaps(req, ts, i);
  }
}
