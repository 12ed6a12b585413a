/** The consensus feature estimator (`ORBRansacMotionEstimator`) as a state
    machine. Keypoint detection, k-nearest-neighbour matching and the RANSAC
    fit are not modelled: detection and matching come in as values, and the
    fit as a function of the two point arrays the estimator builds. */
module MotionOrb {
  import opened Optional
  import opened Frames
  import Selection
  import Ints

  /** Fewer descriptors than this in either frame rejects the pair. */
  const MinDescriptors: nat := 50
  /** Fewer ratio-test survivors than this rejects the pair. */
  const MinMatches: nat := 50
  /** Lowe's ratio: keep a match only if it is this much closer than the runner-up. */
  const Ratio: real := 0.85
  /** The quality gate: at least this many RANSAC inliers ... */
  const MinInliers: int := 40
  /** ... making up at least this fraction of the matches. */
  const MinInlierRatio: real := 0.25

  /** A binary descriptor (32 bytes for ORB). */
  type Descriptor = seq<bv8>

  /** `detectAndCompute`: keypoint locations, and their descriptors, or `None`
      when there are none. */
  datatype Detection = Detection(kp: seq<Point>, des: Option<seq<Descriptor>>)

  /** A match of previous descriptor `queryIdx` to current descriptor `trainIdx`. */
  datatype DMatch = DMatch(queryIdx: int, trainIdx: int, distance: real)

  /** One row of `knnMatch(..., k=2)`: the nearest and second-nearest candidates. */
  datatype KnnPair = KnnPair(best: DMatch, second: DMatch)

  /** A 2×3 affine matrix `[[a, b, tx], [c, d, ty]]`. */
  datatype Affine = Affine(a: real, b: real, tx: real, c: real, d: real, ty: real)

  /** What `estimateAffinePartial2D` returns: the matrix and the inlier mask,
      either of which may be `None`. */
  datatype Fit = Fit(m: Option<Affine>, inliers: Option<seq<int>>)

  /** `Empty` is `prev_gray is None`; `Matching` holds the previous frame's
      keypoints and descriptors. */
  datatype OrbState =
    | Empty
    | Matching(prevGray: Gray, prevKp: seq<Point>, prevDes: Option<seq<Descriptor>>)

  /** The result dicts. `Rejected` is `{valid: False, num_matches, inlier_ratio: 0.0}`;
      `Estimated` carries the fitted translation, the counts and the gate's verdict. */
  datatype OrbResult =
    | Rejected(numMatches: nat)
    | Estimated(valid: bool, dxPx: real, dyPx: real, numMatches: nat, inlierRatio: real, inliers: int)
  {
    predicate IsValid() {
      Estimated? && valid
    }

    function InlierRatio(): real {
      if Estimated? then inlierRatio else 0.0
    }

    /** An estimate's ratio is its inlier count over its match count. */
    predicate RatioIsShare() {
      Estimated? ==> inlierRatio * (numMatches as real) == inliers as real
    }
  }

  datatype OrbStep = OrbStep(result: Option<OrbResult>, state: OrbState)

  /** `reset()`: forget the previous frame. */
  function Reset(): (st: OrbState)
    ensures st.Empty?
  {
    Empty
  }

  /** Both descriptor sets exist and hold at least 50 descriptors. */
  predicate EnoughDescriptors(prevDes: Option<seq<Descriptor>>, des: Option<seq<Descriptor>>) {
    prevDes.Some? && des.Some? && |prevDes.value| >= MinDescriptors && |des.value| >= MinDescriptors
  }

  /** The ratio test `m.distance < 0.85 * n.distance`. */
  predicate Distinctive(p: KnnPair) {
    p.best.distance < Ratio * p.second.distance
  }

  function RatioFlags(knn: seq<KnnPair>): seq<bool> {
    seq(|knn|, i requires 0 <= i < |knn| => Distinctive(knn[i]))
  }

  function Bests(knn: seq<KnnPair>): seq<DMatch> {
    seq(|knn|, i requires 0 <= i < |knn| => knn[i].best)
  }

  /** The rows that pass the ratio test, ascending. */
  function GoodIndices(knn: seq<KnnPair>): (ix: seq<nat>)
    ensures forall k :: 0 <= k < |ix| ==> ix[k] < |knn| && Distinctive(knn[ix[k]])
    ensures forall i :: 0 <= i < |knn| && Distinctive(knn[i]) ==> i in ix
    ensures forall k, l :: 0 <= k < l < |ix| ==> ix[k] < ix[l]
  {
    Selection.Indices(RatioFlags(knn))
  }

  /** The loop at motion_orb.py:48-51: the best match of every row passing the
      ratio test, in row order. */
  function GoodMatches(knn: seq<KnnPair>): (good: seq<DMatch>)
    ensures |good| == |GoodIndices(knn)| <= |knn|
    ensures forall k :: 0 <= k < |good| ==> good[k] == knn[GoodIndices(knn)[k]].best
  {
    Selection.Mask(Bests(knn), RatioFlags(knn))
  }

  /** Every good match indexes a keypoint of each frame. */
  predicate IndicesInRange(good: seq<DMatch>, prevKp: seq<Point>, kp: seq<Point>) {
    forall k :: 0 <= k < |good| ==>
      0 <= good[k].queryIdx < |prevKp| && 0 <= good[k].trainIdx < |kp|
  }

  /** The call reaches the RANSAC fit. */
  predicate ReachesFit(st: OrbState, det: Detection, knn: seq<KnnPair>) {
    st.Matching? && EnoughDescriptors(st.prevDes, det.des) && |GoodMatches(knn)| >= MinMatches
  }

  /** `src_pts`: the previous keypoint of every good match. */
  function SrcPoints(prevKp: seq<Point>, good: seq<DMatch>): (src: seq<Point>)
    requires forall k :: 0 <= k < |good| ==> 0 <= good[k].queryIdx < |prevKp|
    ensures |src| == |good|
    ensures forall k :: 0 <= k < |good| ==> src[k] == prevKp[good[k].queryIdx]
  {
    seq(|good|, k requires 0 <= k < |good| => prevKp[good[k].queryIdx])
  }

  /** `dst_pts`: the current keypoint of every good match. */
  function DstPoints(kp: seq<Point>, good: seq<DMatch>): (dst: seq<Point>)
    requires forall k :: 0 <= k < |good| ==> 0 <= good[k].trainIdx < |kp|
    ensures |dst| == |good|
    ensures forall k :: 0 <= k < |good| ==> dst[k] == kp[good[k].trainIdx]
  {
    seq(|good|, k requires 0 <= k < |good| => kp[good[k].trainIdx])
  }

  /** `int(inliers.sum())`. */
  function Sum(xs: seq<int>): int {
    if |xs| == 0 then 0 else Sum(xs[..|xs| - 1]) + xs[|xs| - 1]
  }


  /** The quality gate. */
  predicate PassesGate(inlierCount: int, inlierRatio: real) {
    inlierCount >= MinInliers && inlierRatio >= MinInlierRatio
  }

  /** The result of a successful fit over `numGood` matches: the inlier count
      and ratio, the gate's verdict on them, and the translation. */
  function Score(numGood: nat, m: Affine, mask: seq<int>): (r: OrbResult)
    requires numGood >= MinMatches
    ensures r.Estimated? && r.numMatches == numGood && r.inliers == Sum(mask)
    ensures r.inlierRatio * (numGood as real) == r.inliers as real
    ensures r.RatioIsShare()
    ensures r.valid <==> PassesGate(r.inliers, r.inlierRatio)
  {
    var inlierCount := Sum(mask);
    var inlierRatio := inlierCount as real / Ints.Max(1, numGood) as real;
    Estimated(PassesGate(inlierCount, inlierRatio), m.tx, m.ty, numGood, inlierRatio, inlierCount)
  }

  /** `process(frame)` given the detection on the current frame, the k=2
      matches of the previous descriptors against the current ones, and the
      RANSAC fit as a function of source and destination points. */
  function Process(st: OrbState, gray: Gray, det: Detection, knn: seq<KnnPair>,
                   fit: (seq<Point>, seq<Point>) -> Fit): (step: OrbStep)
    requires ReachesFit(st, det, knn) ==> IndicesInRange(GoodMatches(knn), st.prevKp, det.kp)
    ensures step.state == Matching(gray, det.kp, det.des)
    ensures step.result.None? <==> st.Empty?
    ensures st.Matching? && !EnoughDescriptors(st.prevDes, det.des) ==> step.result == Some(Rejected(0))
    ensures st.Matching? && EnoughDescriptors(st.prevDes, det.des) ==>
              step.result.Some? && step.result.value.numMatches == |GoodMatches(knn)|
    ensures step.result.Some? && step.result.value.Estimated? ==>
              var r := step.result.value;
              && ReachesFit(st, det, knn)
              && r.RatioIsShare()
              && (r.valid <==> PassesGate(r.inliers, r.inlierRatio))
    ensures step.result.Some? && step.result.value.IsValid() ==>
              step.result.value.numMatches >= MinMatches && step.result.value.inliers >= MinInliers
  {
    var next := Matching(gray, det.kp, det.des);
    match st
    case Empty =>
      OrbStep(None, next)
    case Matching(prevGray, prevKp, prevDes) =>
      if !EnoughDescriptors(prevDes, det.des) then
        OrbStep(Some(Rejected(0)), next)
      else
        var good := GoodMatches(knn);
        if |good| < MinMatches then
          OrbStep(Some(Rejected(|good|)), next)
        else
          var out := fit(SrcPoints(prevKp, good), DstPoints(det.kp, good));
          if out.m.None? || out.inliers.None? then
            OrbStep(Some(Rejected(|good|)), next)
          else
            OrbStep(Some(Score(|good|, out.m.value, out.inliers.value)), next)
  }

  /** The first call after `reset()` yields no result and stores the current
      keypoints and descriptors. */
  lemma FirstCallInitialises(gray: Gray, det: Detection, knn: seq<KnnPair>,
                             fit: (seq<Point>, seq<Point>) -> Fit)
    ensures Process(Reset(), gray, det, knn, fit) == OrbStep(None, Matching(gray, det.kp, det.des))
  {
  }

  /** A mask of zeros and ones sums to at most its length. */
  lemma {:induction false} MaskSumBounds(xs: seq<int>)
    requires forall i :: 0 <= i < |xs| ==> xs[i] == 0 || xs[i] == 1
    ensures 0 <= Sum(xs) <= |xs|
  {
    if |xs| > 0 {
      MaskSumBounds(xs[..|xs| - 1]);
    }
  }

  /** RANSAC's inlier mask holds a 0 or 1 for each of its input points. */
  ghost predicate MaskFitsInput(fit: (seq<Point>, seq<Point>) -> Fit) {
    forall src, dst :: fit(src, dst).inliers.Some? ==>
      |fit(src, dst).inliers.value| == |src| &&
      forall i :: 0 <= i < |src| ==> fit(src, dst).inliers.value[i] == 0 || fit(src, dst).inliers.value[i] == 1
  }

  /** A ratio `r` with `r * n == s` and `0 <= s <= n` is a fraction. */
  lemma FractionBounds(r: real, n: real, s: real)
    requires 0.0 < n && r * n == s && 0.0 <= s <= n
    ensures 0.0 <= r <= 1.0
  {
    assert r * n >= 0.0 * n && (1.0 - r) * n >= 0.0;
  }

  /** Scoring a 0/1 mask over the good matches gives a ratio in [0, 1]. */
  lemma ScoreRatioIsFraction(numGood: int, m: Affine, mask: seq<int>)
    requires numGood >= MinMatches && |mask| == numGood
    requires forall i :: 0 <= i < |mask| ==> mask[i] == 0 || mask[i] == 1
    ensures 0.0 <= Score(numGood, m, mask).InlierRatio() <= 1.0
  {
    MaskSumBounds(mask);
    var r := Score(numGood, m, mask);
    FractionBounds(r.inlierRatio, numGood as real, Sum(mask) as real);
  }

  /** When the inlier mask ranges over the good matches, the inlier ratio is a
      fraction in [0, 1]. */
  lemma InlierRatioIsFraction(st: OrbState, gray: Gray, det: Detection, knn: seq<KnnPair>,
                              fit: (seq<Point>, seq<Point>) -> Fit)
    requires ReachesFit(st, det, knn) ==> IndicesInRange(GoodMatches(knn), st.prevKp, det.kp)
    requires MaskFitsInput(fit)
    ensures var r := Process(st, gray, det, knn, fit).result;
            r.Some? ==> 0.0 <= r.value.InlierRatio() <= 1.0
  {
    var r := Process(st, gray, det, knn, fit).result;
    if r.Some? && r.value.Estimated? {
      var good := GoodMatches(knn);
      var src, dst := SrcPoints(st.prevKp, good), DstPoints(det.kp, good);
      FitOutcome(st, gray, det, knn, fit);
      var out := fit(src, dst);
      assert out.inliers.Some?;
      assert |out.inliers.value| == |src| == |good|;
      ScoreRatioIsFraction(|good|, out.m.value, out.inliers.value);
    }
  }

  /** Once the fit is reached, its outcome decides the result: a missing matrix
      or mask rejects with the good-match count, and otherwise the result
      reports the matrix's translation column whether or not the gate passes. */
  lemma FitOutcome(st: OrbState, gray: Gray, det: Detection, knn: seq<KnnPair>,
                   fit: (seq<Point>, seq<Point>) -> Fit)
    requires ReachesFit(st, det, knn)
    requires IndicesInRange(GoodMatches(knn), st.prevKp, det.kp)
    ensures var good := GoodMatches(knn);
            var out := fit(SrcPoints(st.prevKp, good), DstPoints(det.kp, good));
            var r := Process(st, gray, det, knn, fit).result.value;
            && (out.m.None? || out.inliers.None? ==> r == Rejected(|good|))
            && (out.m.Some? && out.inliers.Some? ==>
                  && r == Score(|good|, out.m.value, out.inliers.value)
                  && r.dxPx == out.m.value.tx && r.dyPx == out.m.value.ty
                  && r.inliers == Sum(out.inliers.value)
                  && r.numMatches == |good|)
  {
  }
}
