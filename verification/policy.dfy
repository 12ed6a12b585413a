/** The per-frame policy of the main loop: validity and displacement read from
    the result dict with defaults, a speed only for a valid result, and the
    duplicate-frame freeze that carries the previous speed over a frame whose
    speed is implausibly low. */
module Policy {
  import opened Optional
  import opened Geometry
  import opened Readings
  import MotionLk
  import MotionOrb

  /** Below this speed a frame (other than the first two) is treated as a duplicate. */
  const FreezeBelow: real := 1.0
  /** `HEIGHT_M`. */
  const HeightM: real := 30.0
  /** The frame rate assumed when the video reports none. */
  const DefaultFps: real := 30.0

  /** `cap.get(CAP_PROP_FPS) or 30.0`: never zero, and the reported rate when
      there is one. */
  function EffectiveFps(reported: real): (fps: real)
    ensures fps != 0.0
    ensures reported != 0.0 ==> fps == reported
    ensures reported == 0.0 ==> fps == DefaultFps
  {
    if reported != 0.0 then reported else DefaultFps
  }

  /** What the loop derives from one result before the freeze. */
  datatype FrameEstimate = FrameEstimate(ok: bool, dxPx: real, dyPx: real, speed: real)

  /** main.py:82-92: no result gives a zero estimate; otherwise `ok` is the
      `valid` entry (true when absent), the displacement the `dx_px`, `dy_px`
      entries (0.0 when absent), and the speed is converted only when `ok`. */
  function Estimate(res: Option<Reading>, cam: Camera, sqrt: real -> real): (e: FrameEstimate)
    requires cam.Usable() && IsSqrt(sqrt)
    ensures res.None? ==> e == FrameEstimate(false, 0.0, 0.0, 0.0)
    ensures e.ok ==> e.speed == Speed(cam, e.dxPx, e.dyPx, sqrt)
    ensures !e.ok ==> e.speed == 0.0
    ensures 0.0 <= cam.fps ==> 0.0 <= e.speed
  {
    var ok := res.Some? && res.value.valid.GetOr(true);
    var dx := if res.Some? then res.value.dxPx.GetOr(0.0) else 0.0;
    var dy := if res.Some? then res.value.dyPx.GetOr(0.0) else 0.0;
    FrameEstimate(ok, dx, dy, if ok then Speed(cam, dx, dy, sqrt) else 0.0)
  }

  /** Every point-tracking result counts as valid: it has no `valid` entry. */
  lemma LkResultIsOk(r: MotionLk.LkResult, cam: Camera, sqrt: real -> real)
    requires cam.Usable() && IsSqrt(sqrt)
    ensures Estimate(Some(FromLk(r)), cam, sqrt)
            == FrameEstimate(true, r.dxPx, r.dyPx, Speed(cam, r.dxPx, r.dyPx, sqrt))
  {
  }

  /** A consensus result is ok exactly when it passed the quality gate; a
      rejection carries no displacement, so it reads as zero. */
  lemma OrbResultOkIffValid(r: MotionOrb.OrbResult, cam: Camera, sqrt: real -> real)
    requires cam.Usable() && IsSqrt(sqrt)
    ensures Estimate(Some(FromOrb(r)), cam, sqrt).ok <==> r.IsValid()
    ensures r.Rejected? ==> Estimate(Some(FromOrb(r)), cam, sqrt) == FrameEstimate(false, 0.0, 0.0, 0.0)
    ensures r.Estimated? ==> Estimate(Some(FromOrb(r)), cam, sqrt).dxPx == r.dxPx
                             && Estimate(Some(FromOrb(r)), cam, sqrt).dyPx == r.dyPx
  {
  }

  /** The frame whose computed speed frame `i` reports after the freeze: the
      latest frame at or before `i` that is one of the first two or is not
      below the threshold. */
  function Anchor(s: seq<real>, i: nat): (j: nat)
    requires i < |s|
    ensures j <= i
    ensures j <= 1 || s[j] >= FreezeBelow
    ensures forall k :: j < k <= i ==> 1 < k && s[k] < FreezeBelow
  {
    if i <= 1 || s[i] >= FreezeBelow then i else Anchor(s, i - 1)
  }

  /** The frozen series: each frame reports the computed speed of its anchor. */
  function Frozen(s: seq<real>): (fin: seq<real>)
    ensures |fin| == |s|
    ensures forall i :: 0 <= i < |s| && i <= 1 ==> fin[i] == s[i]
    ensures forall i :: 1 < i < |s| ==> (s[i] >= FreezeBelow && fin[i] == s[i]) || (s[i] < FreezeBelow && fin[i] == fin[i - 1])
  {
    seq(|s|, i requires 0 <= i < |s| => s[Anchor(s, i)])
  }

  /** One row written by the loop (its fixed columns). */
  datatype MainRow = MainRow(frameIdx: nat, tSec: real, ok: bool, dxPx: real, dyPx: real, speed: real)

  /** `row` is what the loop writes for frame `i` with estimate `e`, before its speed. */
  predicate RowOf(row: MainRow, i: nat, e: FrameEstimate, fps: real)
    requires fps != 0.0
  {
    && row.frameIdx == i
    && row.tSec == i as real / fps
    && row.ok == e.ok && row.dxPx == e.dxPx && row.dyPx == e.dyPx
  }

  /** The estimates of a run, one per result. */
  function Estimates(results: seq<Option<Reading>>, cam: Camera, sqrt: real -> real): (es: seq<FrameEstimate>)
    requires cam.Usable() && IsSqrt(sqrt)
    ensures |es| == |results|
    ensures forall i :: 0 <= i < |results| ==> es[i] == Estimate(results[i], cam, sqrt)
  {
    seq(|results|, i requires 0 <= i < |results| => Estimate(results[i], cam, sqrt))
  }

  function SpeedsOf(es: seq<FrameEstimate>): (s: seq<real>)
    ensures |s| == |es|
  {
    seq(|es|, i requires 0 <= i < |es| => es[i].speed)
  }

  /** The loop of main.py:69-123, given each frame's estimate: the frame index
      counts up from 0, the time is index / fps, ok and the displacement are
      the estimate's, and the written speed is the frozen series, starting from
      a previous speed of 0. */
  method WriteRows(es: seq<FrameEstimate>, fps: real) returns (rows: seq<MainRow>)
    requires fps != 0.0
    ensures |rows| == |es|
    ensures forall i :: 0 <= i < |rows| ==> RowOf(rows[i], i, es[i], fps)
    ensures forall i :: 0 <= i < |rows| ==> rows[i].speed == Frozen(SpeedsOf(es))[i]
  {
    var s := SpeedsOf(es);
    ghost var fin := Frozen(s);
    rows := [];
    var frameIdx := 0;
    var prevSpeed := 0.0;
    while frameIdx < |es|
      invariant 0 <= frameIdx <= |es| && |rows| == frameIdx
      invariant forall i :: 0 <= i < frameIdx ==> RowOf(rows[i], i, es[i], fps)
      invariant forall i :: 0 <= i < frameIdx ==> rows[i].speed == fin[i]
      invariant 0 < frameIdx ==> prevSpeed == rows[frameIdx - 1].speed
    {
      var e := es[frameIdx];
      var tSec := frameIdx as real / fps;
      var speed := e.speed;
      if speed < FreezeBelow && frameIdx > 1 {
        speed := prevSpeed;
      }
      assert speed == fin[frameIdx];
      rows := rows + [MainRow(frameIdx, tSec, e.ok, e.dxPx, e.dyPx, speed)];
      prevSpeed := speed;
      frameIdx := frameIdx + 1;
    }
  }

  /** The camera the main loop converts with (main.py:45-50): the intrinsics
      of a `widthPx`×`heightPx` frame, the fixed height `HEIGHT_M`, and the
      effective frame rate. Its focal lengths are usable exactly when the
      width is non-zero. */
  function MainCamera(widthPx: int, heightPx: int, tanHalfHfov: real, reportedFps: real): (cam: Camera)
    requires tanHalfHfov != 0.0
    ensures var k := IntrinsicsFromHfov(widthPx, heightPx, tanHalfHfov);
            cam.fx == k.fx && cam.fy == k.fy
    ensures cam.heightM == HeightM
    ensures cam.fps == EffectiveFps(reportedFps) && cam.fps != 0.0
    ensures cam.Usable() <==> widthPx != 0
  {
    var k := IntrinsicsFromHfov(widthPx, heightPx, tanHalfHfov);
    assert k.fx == 0.0 <==> widthPx == 0 by {
      assert k.fx * (2.0 * tanHalfHfov) == widthPx as real;
    }
    Camera(k.fx, k.fy, HeightM, EffectiveFps(reportedFps))
  }

  /** The main loop over the estimator's results, one per frame, for a video
      of the given size and reported frame rate. */
  method RunMain(results: seq<Option<Reading>>, widthPx: int, heightPx: int, tanHalfHfov: real,
                 reportedFps: real, sqrt: real -> real) returns (rows: seq<MainRow>)
    requires tanHalfHfov != 0.0 && widthPx != 0 && IsSqrt(sqrt)
    ensures |rows| == |results|
    ensures var cam := MainCamera(widthPx, heightPx, tanHalfHfov, reportedFps);
            forall i :: 0 <= i < |rows| ==> RowOf(rows[i], i, Estimate(results[i], cam, sqrt), cam.fps)
    ensures var cam := MainCamera(widthPx, heightPx, tanHalfHfov, reportedFps);
            forall i :: 0 <= i < |rows| ==> rows[i].speed == Frozen(SpeedsOf(Estimates(results, cam, sqrt)))[i]
  {
    var cam := MainCamera(widthPx, heightPx, tanHalfHfov, reportedFps);
    rows := WriteRows(Estimates(results, cam, sqrt), cam.fps);
  }

  /** From frame 2 on, a final speed is at least the threshold or repeats the
      previous frame's. */
  lemma FrozenHoldsOrRepeats(s: seq<real>, i: nat)
    requires 2 <= i < |s|
    ensures Frozen(s)[i] >= FreezeBelow || Frozen(s)[i] == Frozen(s)[i - 1]
  {
  }

  /** The freeze never invents a speed: every final speed is the computed speed
      of an earlier or the same frame that was exempt or not below the threshold. */
  lemma FrozenComesFromAnchor(s: seq<real>, i: nat)
    requires i < |s|
    ensures exists j :: 0 <= j <= i && (j <= 1 || s[j] >= FreezeBelow) && Frozen(s)[i] == s[j]
  {
    var j := Anchor(s, i);
    assert Frozen(s)[i] == s[j];
  }

  /** If the first two frames are at or above the threshold, no final speed is below it. */
  lemma FrozenNeverDips(s: seq<real>, i: nat)
    requires 2 <= |s| && s[0] >= FreezeBelow && s[1] >= FreezeBelow
    requires i < |s|
    ensures Frozen(s)[i] >= FreezeBelow
  {
    var j := Anchor(s, i);
    assert Frozen(s)[i] == s[j];
  }

  /** Frames 0 and 1 are exempt, so a dip at frame 1 is kept and then carried
      into frame 2. */
  lemma FreezeExample()
    ensures Frozen([10.0, 0.3, 0.2, 8.0]) == [10.0, 0.3, 0.3, 8.0]
  {
    var s := [10.0, 0.3, 0.2, 8.0];
    assert Anchor(s, 2) == 1;
    assert Anchor(s, 3) == 3;
  }
}
