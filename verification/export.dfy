/** The batch exporter: per-frame samples of both estimators, the raw speed
    series with invalid frames as 0.0, and their trailing moving average. */
module Export {
  import opened Optional
  import opened Geometry
  import opened Readings
  import MotionLk
  import MotionOrb

  /** `SMOOTH_WINDOW`. */
  const SmoothWindow: int := 7

  function Sum(xs: seq<real>): real {
    if |xs| == 0 then 0.0 else xs[0] + Sum(xs[1..])
  }

  lemma {:induction false} SumAppend(xs: seq<real>, x: real)
    ensures Sum(xs + [x]) == Sum(xs) + x
  {
    if |xs| > 0 {
      assert (xs + [x])[1..] == xs[1..] + [x];
      SumAppend(xs[1..], x);
    }
  }

  /** The first index of the trailing window of width `w` that ends at `i`. */
  function WindowStart(i: nat, w: int): nat {
    if i + 1 - w > 0 then i + 1 - w else 0
  }

  /** The mean of `xs[max(0, i - w + 1) .. i]`, whose length is `min(i + 1, w)`. */
  function WindowMean(xs: seq<real>, i: nat, w: int): real
    requires i < |xs| && w >= 1
  {
    var lo := WindowStart(i, w);
    Sum(xs[lo..i + 1]) / (i + 1 - lo) as real
  }

  /** The trailing moving average, stated window by window; a window of 1 or
      less leaves the sequence as it is. */
  function Smoothed(xs: seq<real>, w: int): seq<real> {
    if w <= 1 then xs
    else seq(|xs|, i requires 0 <= i < |xs| => WindowMean(xs, i, w))
  }

  /** `moving_average(xs, w)`: a running sum over a FIFO queue of the last `w`
      inputs. */
  method MovingAverage(xs: seq<real>, w: int) returns (out: seq<real>)
    ensures w <= 1 ==> out == xs
    ensures |out| == |xs|
    ensures w > 1 ==> forall i :: 0 <= i < |xs| ==> out[i] == WindowMean(xs, i, w)
    ensures out == Smoothed(xs, w)
  {
    if w <= 1 {
      return xs;
    }
    out := [];
    var s := 0.0;
    var q: seq<real> := [];
    var n := 0;
    while n < |xs|
      invariant 0 <= n <= |xs| && |out| == n
      invariant q == xs[(if n - w > 0 then n - w else 0)..n]
      invariant s == Sum(q)
      invariant forall i :: 0 <= i < n ==> out[i] == WindowMean(xs, i, w)
    {
      var x := xs[n];
      SumAppend(q, x);
      q := q + [x];
      s := s + x;
      if |q| > w {
        s := s - q[0];
        q := q[1..];
      }
      assert q == xs[WindowStart(n, w)..n + 1];
      out := out + [s / |q| as real];
      n := n + 1;
    }
  }

  /** Bounds on every term bound the sum. */
  lemma {:induction false} SumBounds(xs: seq<real>, lo: real, hi: real)
    requires forall k :: 0 <= k < |xs| ==> lo <= xs[k] <= hi
    ensures |xs| as real * lo <= Sum(xs) <= |xs| as real * hi
  {
    if |xs| > 0 {
      SumBounds(xs[1..], lo, hi);
    }
  }

  /** A window mean lies between any bounds on the window's values. */
  lemma WindowMeanBounds(xs: seq<real>, i: nat, w: int, lo: real, hi: real)
    requires i < |xs| && w >= 1
    requires forall k :: WindowStart(i, w) <= k <= i ==> lo <= xs[k] <= hi
    ensures lo <= WindowMean(xs, i, w) <= hi
  {
    var win := xs[WindowStart(i, w)..i + 1];
    assert forall k :: 0 <= k < |win| ==> win[k] == xs[WindowStart(i, w) + k];
    SumBounds(win, lo, hi);
    DivideBounds(Sum(win), |win| as real, lo, hi);
  }

  lemma DivideBounds(s: real, n: real, lo: real, hi: real)
    requires 0.0 < n
    requires n * lo <= s <= n * hi
    ensures lo <= s / n <= hi
  {
    var m := s / n;
    assert m * n == s;
    assert (m - lo) * n >= 0.0 && (hi - m) * n >= 0.0;
  }

  /** Every smoothed value lies between the least and greatest input of its window. */
  lemma SmoothedWithinWindow(xs: seq<real>, w: int, i: nat, lo: real, hi: real)
    requires i < |xs|
    requires forall k :: (if w <= 1 then i else WindowStart(i, w)) <= k <= i ==> lo <= xs[k] <= hi
    ensures |Smoothed(xs, w)| == |xs|
    ensures lo <= Smoothed(xs, w)[i] <= hi
  {
    if w > 1 {
      WindowMeanBounds(xs, i, w, lo, hi);
    }
  }

  /** A constant series is its own moving average. */
  lemma SmoothedConstant(xs: seq<real>, w: int, c: real)
    requires forall k :: 0 <= k < |xs| ==> xs[k] == c
    ensures Smoothed(xs, w) == seq(|xs|, _ => c)
  {
    if w > 1 {
      forall i | 0 <= i < |xs| ensures WindowMean(xs, i, w) == c {
        WindowMeanBounds(xs, i, w, c, c);
      }
    }
  }

  /** Non-negative speeds smooth to non-negative speeds. */
  lemma SmoothedNonNegative(xs: seq<real>, w: int)
    requires forall k :: 0 <= k < |xs| ==> 0.0 <= xs[k]
    ensures forall i :: 0 <= i < |Smoothed(xs, w)| ==> 0.0 <= Smoothed(xs, w)[i]
  {
    if w > 1 {
      forall i | 0 <= i < |xs| ensures 0.0 <= WindowMean(xs, i, w) {
        WindowMeanBounds(xs, i, w, 0.0, MaxOf(xs));
      }
    }
  }

  function MaxOf(xs: seq<real>): (m: real)
    ensures forall k :: 0 <= k < |xs| ==> xs[k] <= m
  {
    if |xs| == 0 then 0.0
    else var m := MaxOf(xs[1..]); if xs[0] < m then m else xs[0]
  }

  /** The point-tracking sample counts when there is a result with a
      displacement (export.py:64). */
  predicate LkSampleValid(res: Option<Reading>) {
    res.Some? && res.value.dxPx.Some?
  }

  /** The consensus sample counts when its `valid` entry is `True` (export.py:69). */
  predicate OrbSampleValid(res: Option<Reading>) {
    res.Some? && res.value.valid == Some(true)
  }

  /** One exported row; an absent speed is the empty cell. */
  datatype ExportRow = ExportRow(frameIdx: nat, timeSec: real,
                                 lkSpeed: Option<real>, orbSpeed: Option<real>,
                                 validLk: bool, validOrb: bool,
                                 tracksLk: int, orbInlierRatio: real)

  /** The row of frame `frameIdx` (export.py:52-86): a speed only for a valid
      sample, and the quality fields at their defaults otherwise. A
      point-tracking sample is valid exactly when there is a result; a
      consensus sample exactly when the fit passed the quality gate. */
  function ExportFrame(frameIdx: nat, lk: Option<MotionLk.LkResult>, orb: Option<MotionOrb.OrbResult>,
                       cam: Camera, sqrt: real -> real): (row: ExportRow)
    requires cam.Usable() && cam.fps != 0.0 && IsSqrt(sqrt)
    ensures row.frameIdx == frameIdx && row.timeSec * cam.fps == frameIdx as real
    ensures row.validLk <==> lk.Some?
    ensures row.validOrb <==> orb.Some? && orb.value.IsValid()
    ensures row.lkSpeed.Some? <==> row.validLk
    ensures row.orbSpeed.Some? <==> row.validOrb
    ensures row.validLk ==> row.lkSpeed.value == Speed(cam, lk.value.dxPx, lk.value.dyPx, sqrt)
                            && row.tracksLk == lk.value.numTracks
    ensures !row.validLk ==> row.tracksLk == 0
    ensures row.validOrb ==> row.orbSpeed.value == Speed(cam, orb.value.dxPx, orb.value.dyPx, sqrt)
                             && row.orbInlierRatio == orb.value.inlierRatio
    ensures !row.validOrb ==> row.orbInlierRatio == 0.0
  {
    var lkRes := LkReading(lk);
    var orbRes := OrbReading(orb);
    var lkValid := LkSampleValid(lkRes);
    var orbValid := OrbSampleValid(orbRes);
    ExportRow(frameIdx, frameIdx as real / cam.fps,
              if lkValid then Some(Speed(cam, lkRes.value.dxPx.value, lkRes.value.dyPx.value, sqrt)) else None,
              if orbValid then Some(Speed(cam, orbRes.value.dxPx.value, orbRes.value.dyPx.value, sqrt)) else None,
              lkValid, orbValid,
              if lkValid then lkRes.value.numTracks.GetOr(0) else 0,
              if orbValid then orbRes.value.inlierRatio.GetOr(0.0) else 0.0)
  }

  /** `speed_*_raw`: each frame's speed, or 0.0 for an invalid sample. */
  function RawSeries(speeds: seq<Option<real>>): (raw: seq<real>)
    ensures |raw| == |speeds|
    ensures forall i :: 0 <= i < |speeds| ==> raw[i] == (if speeds[i].Some? then speeds[i].value else 0.0)
  {
    seq(|speeds|, i requires 0 <= i < |speeds| => speeds[i].GetOr(0.0))
  }

  /** The rows of a whole run, one per frame. */
  function ExportRows(lks: seq<Option<MotionLk.LkResult>>, orbs: seq<Option<MotionOrb.OrbResult>>,
                      cam: Camera, sqrt: real -> real): (rows: seq<ExportRow>)
    requires |lks| == |orbs|
    requires cam.Usable() && cam.fps != 0.0 && IsSqrt(sqrt)
    ensures |rows| == |lks|
    ensures forall i :: 0 <= i < |rows| ==> rows[i] == ExportFrame(i, lks[i], orbs[i], cam, sqrt)
  {
    seq(|lks|, i requires 0 <= i < |lks| => ExportFrame(i, lks[i], orbs[i], cam, sqrt))
  }

  /** The `speed_mps_lk_raw` column, an empty cell being `None`. */
  function LkSpeeds(rows: seq<ExportRow>): (col: seq<Option<real>>)
    ensures |col| == |rows| && forall i :: 0 <= i < |rows| ==> col[i] == rows[i].lkSpeed
  {
    seq(|rows|, i requires 0 <= i < |rows| => rows[i].lkSpeed)
  }

  /** The `speed_mps_orb_raw` column, an empty cell being `None`. */
  function OrbSpeeds(rows: seq<ExportRow>): (col: seq<Option<real>>)
    ensures |col| == |rows| && forall i :: 0 <= i < |rows| ==> col[i] == rows[i].orbSpeed
  {
    seq(|rows|, i requires 0 <= i < |rows| => rows[i].orbSpeed)
  }

  /** The two smoothed columns: the moving average over `SMOOTH_WINDOW` frames
      of each zero-filled raw series, one value per row. */
  function SmoothedColumns(rows: seq<ExportRow>): (cols: (seq<real>, seq<real>))
    ensures |cols.0| == |rows| && |cols.1| == |rows|
    ensures forall i :: 0 <= i < |rows| ==>
              && cols.0[i] == WindowMean(RawSeries(LkSpeeds(rows)), i, SmoothWindow)
              && cols.1[i] == WindowMean(RawSeries(OrbSpeeds(rows)), i, SmoothWindow)
  {
    (Smoothed(RawSeries(LkSpeeds(rows)), SmoothWindow), Smoothed(RawSeries(OrbSpeeds(rows)), SmoothWindow))
  }

  /** An invalid sample enters the raw series as 0.0 and a valid one as its speed. */
  lemma RawSeriesZeroFills(lks: seq<Option<MotionLk.LkResult>>, orbs: seq<Option<MotionOrb.OrbResult>>,
                           cam: Camera, sqrt: real -> real, i: nat)
    requires |lks| == |orbs| && i < |lks|
    requires cam.Usable() && cam.fps != 0.0 && IsSqrt(sqrt)
    ensures var rows := ExportRows(lks, orbs, cam, sqrt);
            var lkRaw := RawSeries(LkSpeeds(rows));
            var orbRaw := RawSeries(OrbSpeeds(rows));
            && lkRaw[i] == (if lks[i].Some? then Speed(cam, lks[i].value.dxPx, lks[i].value.dyPx, sqrt) else 0.0)
            && orbRaw[i] == (if orbs[i].Some? && orbs[i].value.IsValid()
                             then Speed(cam, orbs[i].value.dxPx, orbs[i].value.dyPx, sqrt) else 0.0)
  {
  }

  /** With a non-negative frame rate no smoothed speed is negative. */
  lemma SmoothedSpeedsNonNegative(lks: seq<Option<MotionLk.LkResult>>, orbs: seq<Option<MotionOrb.OrbResult>>,
                                  cam: Camera, sqrt: real -> real)
    requires |lks| == |orbs|
    requires cam.Usable() && 0.0 < cam.fps && IsSqrt(sqrt)
    ensures var cols := SmoothedColumns(ExportRows(lks, orbs, cam, sqrt));
            && (forall i :: 0 <= i < |cols.0| ==> 0.0 <= cols.0[i])
            && (forall i :: 0 <= i < |cols.1| ==> 0.0 <= cols.1[i])
  {
    var rows := ExportRows(lks, orbs, cam, sqrt);
    var lkRaw := RawSeries(LkSpeeds(rows));
    var orbRaw := RawSeries(OrbSpeeds(rows));
    forall i | 0 <= i < |rows| ensures 0.0 <= lkRaw[i] && 0.0 <= orbRaw[i] {
      RawSeriesZeroFills(lks, orbs, cam, sqrt, i);
    }
    SmoothedNonNegative(lkRaw, SmoothWindow);
    SmoothedNonNegative(orbRaw, SmoothWindow);
  }
}
