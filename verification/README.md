# Visual speed estimator — a Dafny model of its decision and arithmetic layer

The pipeline estimates the ground speed of a camera flying over a road from
consecutive video frames. This project models, in Dafny, the part of it that
is plain logic and arithmetic:

- the pinhole camera model and the pixel-to-metres-per-second conversion
  (`Geometry`);
- the region-of-interest mask: a vertical road band minus a box around the
  vehicle (`Roi`);
- the point-tracking estimator, a two-state machine that re-detects corners
  when too few are tracked and reports the median per-point displacement
  (`MotionLk`, with sorting and the median in `Stats` and numpy's boolean
  mask indexing in `Selection`);
- the feature-matching estimator, a two-state machine with descriptor-count,
  ratio-test, match-count and quality gates around a RANSAC fit
  (`MotionOrb`);
- the result dictionaries as the callers read them, key by key with defaults
  (`Readings`);
- the batch exporter: per-frame samples, the raw speed series with invalid
  frames as 0.0, and the trailing moving average (`Export`);
- the per-frame policy of the main loop: validity and displacement with
  defaults, a speed only for a valid result, the duplicate-frame freeze and
  the time stamp (`Policy`).

The OpenCV primitives are not modelled; their outputs are inputs to the
model. The corner detector's output and the optical flow's
`(next_pts, status)` are values passed to `MotionLk.Process`. The keypoints
and descriptors of the current frame and the k=2 nearest-neighbour matches
are values passed to `MotionOrb.Process`. The RANSAC fit is a function of the
source and destination point arrays, passed in as `fit`. Python floats are
Dafny reals. `tan(hfov / 2)` is a real parameter. The square root is an
abstract function `sqrt` constrained only to return the non-negative root
(`Geometry.IsSqrt`).

Two consequences of the code worth stating up front:

- The freeze exempts frames 0 and 1 (`frame_idx > 1`), so a dip at frame 1
  is kept and then carried into frame 2: computed speeds `[10, 0.3, 0.2, 8]`
  are written as `[10, 0.3, 0.3, 8]` (`Policy.FreezeExample`).
- For a width of 640 the band starts at column `int(0.32 · 640) = 204`
  (`Roi.Mask640x480`).

## Model

| member | source | states |
|---|---|---|
| Geometry.IntrinsicsFromHfov | geometry.py:6-12 | fy equals fx; fx · 2·tan(hfov/2) equals the width; cx and cy are exactly half the width and half the height |
| Geometry.FocalLengthScalesWithWidth | geometry.py:7-8 | for a fixed field of view, multiplying the width by n multiplies fx by n |
| Geometry.GroundDistSq | geometry.py:17-19 | the squared metric displacement is never negative and is zero exactly when the height is zero or both pixel displacements are zero |
| Geometry.PxToSpeed | geometry.py:15-20 | the speed squared is fps² times the squared metric displacement, and the speed has the sign of fps (never negative for a non-negative fps) |
| Geometry.GroundDistSqScales | geometry.py:17-19 | scaling both pixel displacements by k scales the squared metric displacement by k² |
| Geometry.GroundDistSqScalesWithHeight | geometry.py:17-19 | scaling the height by c scales the squared metric displacement by c² |
| Geometry.SpeedScalesWithDisplacement | geometry.py:17-20 | scaling the pixel displacement by k scales the speed by abs(k) |
| Geometry.SpeedIgnoresDirection | geometry.py:17-20 | negating the displacement leaves the speed unchanged |
| Geometry.SpeedLinearInFps | geometry.py:19-20 | the speed is linear in the frame rate |
| Geometry.SpeedLinearInHeight | geometry.py:17-20 | scaling the height by a non-negative c scales the speed by c |
| Geometry.SpeedZeroIffStill | geometry.py:17-20 | with a positive height and frame rate, the speed is zero if and only if dx = dy = 0 |
| Roi.MaskLayout | roi.py:20-33 | the band lies inside the frame; the box is clipped to the frame and lies inside the band; the box is at most 2·(box_w // 2) ≤ box_w wide, strictly narrower than box_w when box_w is odd, and likewise in height |
| Roi.ClippingIsInactive | roi.py:30-33 | the clamps to 0, w and h never change a box bound: the box is centre ± half-size for every frame size |
| Roi.Zeros | roi.py:17 | an h×w grid of zeros |
| Roi.Fill | roi.py:22 | slice assignment: entries inside the rectangle become v and all others keep their value |
| Roi.MakeRoiMask | roi.py:11-36 | the mask is h×w, every entry is 0 or 255, an entry is 255 if and only if its column is in the band and it is outside the box, and every column outside the band is 0 |
| Roi.MaskRowNonzero | roi.py:22-35 | a mask row holds the band width of non-zero entries, less the box width on rows of the box |
| Roi.MaskRowsNonzero | roi.py:22-35 | the row count above, for every row of the mask |
| Roi.MaskNonzeroCount | roi.py:20-35 | the mask has band width × h non-zero entries less the box area |
| Roi.Mask640x480 | roi.py:20-35 | for 640×480 the band is columns [204, 435), the box rows [206, 292) × columns [250, 390), and 231·480 − 86·140 = 98840 entries are non-zero |
| Selection.Indices | motion_lk.py:51-52 | the positions of the set flags: each is in range and flagged, they ascend, and every flagged position is among them |
| Selection.Mask | motion_lk.py:51-52 | boolean-mask indexing: element k of the result is the input element at the k-th flagged position |
| Stats.Insert | motion_lk.py:65-66 | inserting into a sorted sequence keeps it sorted and adds exactly the one value |
| Stats.Sort | motion_lk.py:65-66 | the result is sorted and a permutation of the input |
| Stats.Median | motion_lk.py:65-66 | the median of a non-empty sequence lies between two of its values: some value is at most it and some value is at least it |
| Stats.MedianOfMajority | motion_lk.py:64-66 | a value held by more than half the entries is the median exactly, so a minority of outliers cannot move it |
| Stats.MedianOfConstant | motion_lk.py:65-66 | the median of a constant sequence is that constant |
| Stats.SortedMajorityAtMiddle | motion_lk.py:65-66 | in a sorted sequence where more than half the entries equal d, the middle entry (both middle entries for an even count) equals d |
| Stats.SortedUnique | motion_lk.py:65-66 | two sorted permutations of the same values are equal, so the sorted order is unique |
| Stats.MedianIgnoresOrder | motion_lk.py:65-66 | permuting the values does not change the median |
| MotionLk.SurvivorIndices | motion_lk.py:51-52 | the surviving points are exactly those whose status is 1 |
| MotionLk.GoodPrev | motion_lk.py:51 | the k-th survivor's previous position is the stored point at the k-th status-1 index |
| MotionLk.GoodNext | motion_lk.py:52 | the k-th survivor's new position is the flow's point at the same index, so previous and new positions stay paired and equal in number |
| MotionLk.SurvivorDx | motion_lk.py:60-61 | the k-th x displacement is the flow's x minus the stored x at the k-th status-1 index, one per survivor |
| MotionLk.SurvivorDy | motion_lk.py:60-62 | the k-th y displacement is the flow's y minus the stored y at the k-th status-1 index, one per survivor |
| MotionLk.MedianDxAmongSurvivors | motion_lk.py:60-65 | the median x displacement lies between two survivors' own x displacements |
| MotionLk.MedianDyAmongSurvivors | motion_lk.py:60-66 | the median y displacement lies between two survivors' own y displacements |
| MotionLk.Aggregate | motion_lk.py:59-72 | num_tracks is the survivor count; dx_px and dy_px each lie between the least and greatest survivor displacement; an x (y) displacement shared by more than half the survivors is dx_px (dy_px) exactly |
| MotionLk.Process | motion_lk.py:32-78 | prev_gray becomes the current frame on every path; a result comes exactly when at least 100 points were stored and at least 20 survive; without a result the freshly detected points are stored; with one, num_tracks ≥ 20, the result aggregates the survivors and the survivors' new positions are stored |
| MotionLk.Reset | motion_lk.py:28-30 | reset forgets the previous frame and points, so the next call cannot track |
| MotionLk.FirstCallInitialises | motion_lk.py:28-39 | the first call after reset returns None and stores the frame and the detected points |
| MotionLk.UniformMotionIsExact | motion_lk.py:60-66 | when every survivor moved by the same (dx, dy), the result is exactly that displacement |
| MotionLk.MajorityMotionIsExact | motion_lk.py:59-66 | when more than half the survivors moved by dx horizontally, the result's dx_px is exactly dx whatever the others did; likewise for dy |
| MotionOrb.Reset | motion_orb.py:24-27 | reset forgets the previous frame, keypoints and descriptors |
| MotionOrb.GoodIndices | motion_orb.py:47-51 | the kept rows are exactly those passing distance < 0.85 × second distance, in ascending order |
| MotionOrb.GoodMatches | motion_orb.py:47-51 | good is the best match of each kept row, in row order: an order-preserving subsequence of the best matches |
| MotionOrb.SrcPoints | motion_orb.py:59 | one source point per good match: the previous frame's keypoint at its query index |
| MotionOrb.DstPoints | motion_orb.py:60 | one destination point per good match: the current frame's keypoint at its train index |
| MotionOrb.Score | motion_orb.py:76-97 | num_matches is the good-match count; inliers is the mask sum; inlier_ratio × num_matches = inliers; valid holds if and only if inliers ≥ 40 and inlier_ratio ≥ 0.25 |
| MotionOrb.Process | motion_orb.py:29-97 | the current keypoints and descriptors are always stored; None exactly on the first call; too few descriptors gives a rejection with 0 matches; otherwise num_matches is the good-match count; an estimate is reached only through the fit, with ratio × matches = inliers and valid if and only if the gate passes; a valid result has ≥ 50 matches and ≥ 40 inliers |
| MotionOrb.FirstCallInitialises | motion_orb.py:24-38 | the first call after reset returns None and stores the current keypoints and descriptors |
| MotionOrb.MaskSumBounds | motion_orb.py:76 | a 0/1 inlier mask sums to at most its length |
| MotionOrb.ScoreRatioIsFraction | motion_orb.py:76-77 | scoring a 0/1 mask with one entry per good match gives a ratio in [0, 1] |
| MotionOrb.InlierRatioIsFraction | motion_orb.py:76-77 | when the fit's inlier mask has one 0/1 entry per input point, every reported inlier ratio lies in [0, 1] |
| MotionOrb.FitOutcome | motion_orb.py:63-97 | a missing matrix or mask gives a rejection with the good-match count; otherwise the result carries M[0][2] and M[1][2] as dx_px and dy_px, whether or not it is valid |
| Readings.FromLk | motion_lk.py:68-72 | a point-tracking result has dx_px, dy_px and num_tracks and no `valid` or `inlier_ratio` key |
| Readings.FromOrb | motion_orb.py:41-97 | a consensus result always has `valid`, equal to whether it passed the gate, and `inlier_ratio`; it has dx_px and dy_px exactly when a fit was scored, and then they are the translation |
| Export.SumAppend | export.py:24-25 | appending a value adds it to the sum |
| Export.MovingAverage | export.py:17-29 | a window of 1 or less returns the input; otherwise the output has the input's length, out[i] is the mean of xs[max(0, i−w+1) .. i], and the loop keeps s equal to the sum of the queue, which holds the last min(i+1, w) inputs |
| Export.SumBounds | export.py:25-27 | bounds on every queued value bound the running sum |
| Export.WindowMeanBounds | export.py:28 | a window mean lies between any bounds on the window's values |
| Export.SmoothedWithinWindow | export.py:23-28 | every smoothed value lies between the least and greatest input of its window |
| Export.SmoothedConstant | export.py:23-28 | a constant series smooths to itself |
| Export.SmoothedNonNegative | export.py:23-28 | non-negative inputs smooth to non-negative outputs |
| Export.ExportFrame | export.py:52-86 | time_sec × fps = frame_idx; the point-tracking sample is valid if and only if there is a result, the consensus sample if and only if its result is valid; a speed is present exactly for a valid sample and is the converted displacement; tracks and inlier ratio are the result's for a valid sample and 0 otherwise |
| Export.ExportRows | export.py:46-88 | one row per frame, row i being frame i's sample pair |
| Export.LkSpeeds | export.py:80 | the raw point-tracking speed column, an empty cell per invalid sample |
| Export.OrbSpeeds | export.py:81 | the raw consensus speed column, an empty cell per invalid sample |
| Export.RawSeries | export.py:74-75 | a sample's speed where there is one and 0.0 where the cell is empty, one value per frame |
| Export.SmoothedColumns | export.py:92-98 | each smoothed column has one value per row, the trailing 7-frame mean of the zero-filled raw series |
| Export.RawSeriesZeroFills | export.py:64-75 | the raw series holds a valid sample's speed and 0.0 for an invalid sample |
| Export.SmoothedSpeedsNonNegative | export.py:92-94 | with a positive frame rate both smoothed columns are never negative |
| Policy.EffectiveFps | main.py:45 | the frame rate used is never zero: the reported rate when that is non-zero, otherwise 30.0 |
| Policy.MainCamera | main.py:45-50 | the loop's camera has the intrinsics' focal lengths, the fixed 30 m height and the effective frame rate; its focal lengths are non-zero exactly when the width is |
| Policy.Estimate | main.py:82-92 | no result gives ok = false, dx = dy = 0.0 and speed 0.0; a speed is computed exactly when ok and is 0.0 otherwise; it is never negative for a non-negative frame rate |
| Policy.LkResultIsOk | main.py:85-92 | a point-tracking result, having no `valid` key, is ok and gives its displacement and converted speed |
| Policy.OrbResultOkIffValid | main.py:85-88 | a consensus result is ok if and only if it passed the quality gate; a rejection reads as zero displacement; an estimate's displacement is read through |
| Policy.Anchor | main.py:101-102 | the frame whose speed frame i reports: not after i, exempt or not below 1, and every frame after it up to i is frozen |
| Policy.Frozen | main.py:101-102 | frames 0 and 1 keep their computed speed; from frame 2 a speed ≥ 1 is kept and a speed < 1 repeats the previous written speed |
| Policy.WriteRows | main.py:69-123 | frame_idx counts from 0 by one per frame, t_sec = frame_idx / fps, ok and dx, dy are the estimate's, and the written speeds are the frozen series |
| Policy.RunMain | main.py:45-123 | the rows of a whole run with the loop's camera: frame i's row carries frame i's estimate, its time stamp at the effective frame rate, and the frozen speed |
| Policy.FrozenHoldsOrRepeats | main.py:101-102 | from frame 2, every written speed is ≥ 1 or equals the previous written speed |
| Policy.FrozenComesFromAnchor | main.py:101-122 | every written speed is the computed speed of the same or an earlier frame that was exempt or not below 1 |
| Policy.FrozenNeverDips | main.py:101-102 | if frames 0 and 1 are at least 1, no written speed is below 1 |
| Policy.FreezeExample | main.py:101-102 | computed speeds [10, 0.3, 0.2, 8] are written as [10, 0.3, 0.3, 8] |

## Left out

- OpenCV work is not modelled: corner detection, optical flow, ORB detection and description, brute-force knn matching, RANSAC affine fitting, colour conversion and the masking of the frame before estimation. Their outputs are parameters.
- Video capture, `get_video_meta`, the scripts' `main` plumbing outside the per-frame logic, CSV writing (csv_writer.py is not part of this model, nor export.py:100-111), printing, the visualization scripts and `overlay_mask` (floating-point blending) are left out as I/O or presentation.
- The merge of the estimator's dict into the written row (main.py:114-115) and the extra CSV columns it feeds are left out; the model writes the base columns only.
- The debug globals `prev_frame_bgr` and `prev_frame_idx` (main.py:32-33, 120-121) are never read and are left out.
- The stored previous frame is kept as an opaque grid; its pixel contents only feed the left-out flow and matching.
- Geometry.IntrinsicsFromHfov: `math.radians` and `math.tan` are not modelled; the caller passes tan(hfov/2) and it must be non-zero, where Python would raise on division by zero.
- Geometry.PxToSpeed: states its result through the square of the speed and an abstract square root, not IEEE `math.sqrt`; non-zero fx and fy are required, where Python would raise on division by zero.
- Roi.MaskLayout: `int(p * n)` for the two-digit ratios p is taken as the exact integer division (100p · n) / 100; IEEE rounding of `0.32 * w` and the like is not modelled.
- Stats.Median: requires a non-empty sequence, which every caller guarantees (at least 20 survivors); NaN inputs are not modelled.
- Export.ExportFrame: the time stamp is stated as time_sec × fps = frame_idx and requires a non-zero fps; export.py does not guard against a zero rate.
- Policy.RunMain: requires a non-zero frame width; with width 0 the focal length is 0 and Python would raise on division by zero at the first valid frame. The frame rate needs no condition: a zero reported rate becomes 30.0.
- Floating-point rounding throughout: all arithmetic is on exact reals.
