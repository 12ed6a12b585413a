/** The result dicts as the pipeline reads them: by key, with `.get`. Each
    estimator fills a different set of keys; a missing key is `None`. */
module Readings {
  import opened Optional
  import MotionLk
  import MotionOrb

  datatype Reading = Reading(valid: Option<bool>, dxPx: Option<real>, dyPx: Option<real>,
                             numTracks: Option<int>, inlierRatio: Option<real>)

  /** `{dx_px, dy_px, num_tracks}`: the point-tracking result has no `valid` key. */
  function FromLk(r: MotionLk.LkResult): (d: Reading)
    ensures d.valid.None? && d.inlierRatio.None?
    ensures d.dxPx == Some(r.dxPx) && d.dyPx == Some(r.dyPx) && d.numTracks == Some(r.numTracks as int)
  {
    Reading(None, Some(r.dxPx), Some(r.dyPx), Some(r.numTracks), None)
  }

  /** `{valid, num_matches, inlier_ratio}` for a rejection, and
      `{valid, dx_px, dy_px, num_matches, inlier_ratio, inliers}` after a fit. */
  function FromOrb(r: MotionOrb.OrbResult): (d: Reading)
    ensures d.valid == Some(r.IsValid())
    ensures d.dxPx.Some? <==> r.Estimated?
    ensures d.dyPx.Some? <==> r.Estimated?
    ensures r.Estimated? ==> d.dxPx.value == r.dxPx && d.dyPx.value == r.dyPx
    ensures d.inlierRatio == Some(r.InlierRatio()) && d.numTracks.None?
  {
    match r
    case Rejected(_) => Reading(Some(false), None, None, None, Some(0.0))
    case Estimated(valid, dx, dy, _, ratio, _) => Reading(Some(valid), Some(dx), Some(dy), None, Some(ratio))
  }

  function LkReading(res: Option<MotionLk.LkResult>): Option<Reading> {
    if res.Some? then Some(FromLk(res.value)) else None
  }

  function OrbReading(res: Option<MotionOrb.OrbResult>): Option<Reading> {
    if res.Some? then Some(FromOrb(res.value)) else None
  }
}
