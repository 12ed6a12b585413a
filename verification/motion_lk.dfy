/** The point-tracking estimator (`LKMotionEstimator`) as a state machine.
    The corner detector and the pyramidal optical flow are not modelled: their
    outputs for the current call come in as parameters. */
module MotionLk {
  import opened Optional
  import opened Frames
  import Selection
  import Stats

  /** Re-detect when fewer points than this are stored. */
  const MinTracks: nat := 100
  /** Re-detect when fewer points than this survive tracking. */
  const MinSurvivors: nat := 20

  /** `Empty` is `prev_gray is None`; `Tracking` holds the previous frame and
      the corners detected on or tracked into it (`None` when the detector
      found nothing). */
  datatype LkState =
    | Empty
    | Tracking(prevGray: Gray, prevPts: Option<seq<Point>>)

  /** What `calcOpticalFlowPyrLK` returns: each stored point's position in the
      current frame and its status (1 when it was found). */
  datatype Flow = Flow(nextPts: seq<Point>, status: seq<int>)

  /** The result dict `{dx_px, dy_px, num_tracks}`. */
  datatype LkResult = LkResult(dxPx: real, dyPx: real, numTracks: nat)

  datatype LkStep = LkStep(result: Option<LkResult>, state: LkState)

  /** `reset()`: forget the previous frame and its points. */
  function Reset(): (st: LkState)
    ensures !Tracks(st) && st.Empty?
  {
    Empty
  }

  /** The stored points are tracked (rather than re-detected) on this call. */
  predicate Tracks(st: LkState) {
    st.Tracking? && st.prevPts.Some? && |st.prevPts.value| >= MinTracks
  }

  /** The flow reports one position and one status per stored point. */
  predicate FlowFits(pts: seq<Point>, flow: Flow) {
    |flow.nextPts| == |pts| && |flow.status| == |pts|
  }

  /** `status.flatten() == 1`. */
  function Found(status: seq<int>): seq<bool> {
    seq(|status|, i requires 0 <= i < |status| => status[i] == 1)
  }

  /** The indices of the points whose status is 1, ascending. */
  function SurvivorIndices(status: seq<int>): (ix: seq<nat>)
    ensures forall k :: 0 <= k < |ix| ==> ix[k] < |status| && status[ix[k]] == 1
    ensures forall i :: 0 <= i < |status| && status[i] == 1 ==> i in ix
  {
    Selection.Indices(Found(status))
  }

  /** Per-point displacement along x of paired points. */
  function DeltaX(from: seq<Point>, to: seq<Point>): (d: seq<real>)
    requires |from| == |to|
    ensures |d| == |from|
  {
    seq(|from|, k requires 0 <= k < |from| => to[k].x - from[k].x)
  }

  /** Per-point displacement along y of paired points. */
  function DeltaY(from: seq<Point>, to: seq<Point>): (d: seq<real>)
    requires |from| == |to|
    ensures |d| == |from|
  {
    seq(|from|, k requires 0 <= k < |from| => to[k].y - from[k].y)
  }

  /** The points that survived tracking, in the current frame. */
  function GoodNext(prev: seq<Point>, flow: Flow): (pts: seq<Point>)
    requires FlowFits(prev, flow)
    ensures |pts| == |SurvivorIndices(flow.status)|
    ensures forall k :: 0 <= k < |pts| ==> pts[k] == flow.nextPts[SurvivorIndices(flow.status)[k]]
  {
    Selection.Mask(flow.nextPts, Found(flow.status))
  }

  /** The survivors' positions in the previous frame. */
  function GoodPrev(prev: seq<Point>, flow: Flow): (pts: seq<Point>)
    requires FlowFits(prev, flow)
    ensures |pts| == |SurvivorIndices(flow.status)|
    ensures forall k :: 0 <= k < |pts| ==> pts[k] == prev[SurvivorIndices(flow.status)[k]]
  {
    Selection.Mask(prev, Found(flow.status))
  }

  /** The survivors' x displacements, `flow[:, 0]`, in survivor order. */
  function SurvivorDx(prev: seq<Point>, flow: Flow): (d: seq<real>)
    requires FlowFits(prev, flow)
    ensures var ix := SurvivorIndices(flow.status);
            |d| == |ix| && forall k :: 0 <= k < |ix| ==> d[k] == flow.nextPts[ix[k]].x - prev[ix[k]].x
  {
    DeltaX(GoodPrev(prev, flow), GoodNext(prev, flow))
  }

  /** The survivors' y displacements, `flow[:, 1]`, in survivor order. */
  function SurvivorDy(prev: seq<Point>, flow: Flow): (d: seq<real>)
    requires FlowFits(prev, flow)
    ensures var ix := SurvivorIndices(flow.status);
            |d| == |ix| && forall k :: 0 <= k < |ix| ==> d[k] == flow.nextPts[ix[k]].y - prev[ix[k]].y
  {
    DeltaY(GoodPrev(prev, flow), GoodNext(prev, flow))
  }

  /** The median x displacement lies between two survivors' own x displacements. */
  lemma MedianDxAmongSurvivors(prev: seq<Point>, flow: Flow)
    requires FlowFits(prev, flow)
    requires |SurvivorIndices(flow.status)| > 0
    ensures var ix := SurvivorIndices(flow.status);
            var m := Stats.Median(SurvivorDx(prev, flow));
            && (exists k :: 0 <= k < |ix| && flow.nextPts[ix[k]].x - prev[ix[k]].x <= m)
            && (exists k :: 0 <= k < |ix| && m <= flow.nextPts[ix[k]].x - prev[ix[k]].x)
  {
    var ix := SurvivorIndices(flow.status);
    var d := SurvivorDx(prev, flow);
    var m := Stats.Median(d);
    var i :| 0 <= i < |d| && d[i] <= m;
    var j :| 0 <= j < |d| && m <= d[j];
    assert d[i] == flow.nextPts[ix[i]].x - prev[ix[i]].x;
    assert d[j] == flow.nextPts[ix[j]].x - prev[ix[j]].x;
  }

  /** The median y displacement lies between two survivors' own y displacements. */
  lemma MedianDyAmongSurvivors(prev: seq<Point>, flow: Flow)
    requires FlowFits(prev, flow)
    requires |SurvivorIndices(flow.status)| > 0
    ensures var ix := SurvivorIndices(flow.status);
            var m := Stats.Median(SurvivorDy(prev, flow));
            && (exists k :: 0 <= k < |ix| && flow.nextPts[ix[k]].y - prev[ix[k]].y <= m)
            && (exists k :: 0 <= k < |ix| && m <= flow.nextPts[ix[k]].y - prev[ix[k]].y)
  {
    var ix := SurvivorIndices(flow.status);
    var d := SurvivorDy(prev, flow);
    var m := Stats.Median(d);
    var i :| 0 <= i < |d| && d[i] <= m;
    var j :| 0 <= j < |d| && m <= d[j];
    assert d[i] == flow.nextPts[ix[i]].y - prev[ix[i]].y;
    assert d[j] == flow.nextPts[ix[j]].y - prev[ix[j]].y;
  }

  /** The median displacement of the survivors and their count; each median
      lies between two survivors' own displacements, and a displacement shared
      by more than half the survivors is the result exactly. */
  function Aggregate(prev: seq<Point>, flow: Flow): (r: LkResult)
    requires FlowFits(prev, flow)
    requires |SurvivorIndices(flow.status)| > 0
    ensures r.numTracks == |SurvivorIndices(flow.status)|
    ensures var ix := SurvivorIndices(flow.status);
            && (exists k :: 0 <= k < |ix| && flow.nextPts[ix[k]].x - prev[ix[k]].x <= r.dxPx)
            && (exists k :: 0 <= k < |ix| && r.dxPx <= flow.nextPts[ix[k]].x - prev[ix[k]].x)
            && (exists k :: 0 <= k < |ix| && flow.nextPts[ix[k]].y - prev[ix[k]].y <= r.dyPx)
            && (exists k :: 0 <= k < |ix| && r.dyPx <= flow.nextPts[ix[k]].y - prev[ix[k]].y)
    ensures forall d :: 2 * Stats.Count(SurvivorDx(prev, flow), d) > r.numTracks ==> r.dxPx == d
    ensures forall d :: 2 * Stats.Count(SurvivorDy(prev, flow), d) > r.numTracks ==> r.dyPx == d
  {
    MedianDxAmongSurvivors(prev, flow);
    MedianDyAmongSurvivors(prev, flow);
    MajorityIsMedian(SurvivorDx(prev, flow));
    MajorityIsMedian(SurvivorDy(prev, flow));
    LkResult(Stats.Median(SurvivorDx(prev, flow)), Stats.Median(SurvivorDy(prev, flow)),
             |SurvivorIndices(flow.status)|)
  }

  /** `Stats.MedianOfMajority` for every candidate value at once. */
  lemma MajorityIsMedian(xs: seq<real>)
    requires |xs| > 0
    ensures forall d :: 2 * Stats.Count(xs, d) > |xs| ==> Stats.Median(xs) == d
  {
    forall d | 2 * Stats.Count(xs, d) > |xs| ensures Stats.Median(xs) == d {
      Stats.MedianOfMajority(xs, d);
    }
  }

  /** `process(frame)` given the current frame, what the detector would return
      on it, and what the flow would return for the stored points.
      The frame is always stored; a result is produced exactly when the stored
      points are tracked and at least 20 of them survive; otherwise the freshly
      detected corners are stored. On success the survivors' new positions
      (status 1, in order) become the stored points, and the result is their
      aggregate. */
  function Process(st: LkState, gray: Gray, detected: Option<seq<Point>>, flow: Flow): (step: LkStep)
    requires Tracks(st) ==> FlowFits(st.prevPts.value, flow)
    ensures step.state.Tracking? && step.state.prevGray == gray
    ensures step.result.Some? <==> Tracks(st) && |SurvivorIndices(flow.status)| >= MinSurvivors
    ensures step.result.None? ==> step.state.prevPts == detected
    ensures step.result.Some? ==>
              && step.result.value.numTracks >= MinSurvivors
              && step.result == Some(Aggregate(st.prevPts.value, flow))
              && step.state.prevPts == Some(GoodNext(st.prevPts.value, flow))
  {
    match st
    case Empty =>
      LkStep(None, Tracking(gray, detected))
    case Tracking(prevGray, prevPts) =>
      if prevPts.None? || |prevPts.value| < MinTracks then
        LkStep(None, Tracking(gray, detected))
      else
        var goodPrev := GoodPrev(prevPts.value, flow);
        var goodNext := GoodNext(prevPts.value, flow);
        if |goodPrev| < MinSurvivors then
          LkStep(None, Tracking(gray, detected))
        else
          var dx := DeltaX(goodPrev, goodNext);
          var dy := DeltaY(goodPrev, goodNext);
          LkStep(Some(LkResult(Stats.Median(dx), Stats.Median(dy), |dx|)), Tracking(gray, Some(goodNext)))
  }

  /** The first call after `reset()` yields no result and stores the frame and
      the detected corners. */
  lemma FirstCallInitialises(gray: Gray, detected: Option<seq<Point>>, flow: Flow)
    ensures Process(Reset(), gray, detected, flow) == LkStep(None, Tracking(gray, detected))
  {
  }

  /** When every surviving point moved by the same (dx, dy), the result is
      exactly that displacement. */
  lemma UniformMotionIsExact(st: LkState, gray: Gray, detected: Option<seq<Point>>, flow: Flow,
                             dx: real, dy: real)
    requires Tracks(st) && FlowFits(st.prevPts.value, flow)
    requires forall i :: 0 <= i < |flow.status| && flow.status[i] == 1 ==>
               flow.nextPts[i].x - st.prevPts.value[i].x == dx && flow.nextPts[i].y - st.prevPts.value[i].y == dy
    ensures var step := Process(st, gray, detected, flow);
            step.result.Some? ==> step.result.value.dxPx == dx && step.result.value.dyPx == dy
  {
    var prev := st.prevPts.value;
    var goodPrev := GoodPrev(prev, flow);
    var goodNext := GoodNext(prev, flow);
    var ix := SurvivorIndices(flow.status);
    if |goodPrev| >= MinSurvivors {
      forall k | 0 <= k < |goodPrev|
        ensures DeltaX(goodPrev, goodNext)[k] == dx && DeltaY(goodPrev, goodNext)[k] == dy
      {
        assert goodPrev[k] == prev[ix[k]] && goodNext[k] == flow.nextPts[ix[k]];
      }
      Stats.MedianOfConstant(DeltaX(goodPrev, goodNext), dx);
      Stats.MedianOfConstant(DeltaY(goodPrev, goodNext), dy);
    }
  }

  /** When more than half the survivors moved by dx horizontally, the result's
      dx_px is exactly dx, whatever the others did; likewise vertically. The
      median makes the estimate robust to a minority of bad tracks. */
  lemma MajorityMotionIsExact(st: LkState, gray: Gray, detected: Option<seq<Point>>, flow: Flow,
                              dx: real, dy: real)
    requires Tracks(st) && FlowFits(st.prevPts.value, flow)
    ensures var step := Process(st, gray, detected, flow);
            var prev := st.prevPts.value;
            step.result.Some? ==>
              var r := step.result.value;
              && (2 * Stats.Count(SurvivorDx(prev, flow), dx) > r.numTracks ==> r.dxPx == dx)
              && (2 * Stats.Count(SurvivorDy(prev, flow), dy) > r.numTracks ==> r.dyPx == dy)
  {
    var step := Process(st, gray, detected, flow);
    if step.result.Some? {
      assert step.result.value == Aggregate(st.prevPts.value, flow);
    }
  }
}
