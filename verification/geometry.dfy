/** The camera model: pinhole intrinsics from a horizontal field of view and
    the small-angle ground-plane conversion from pixel displacement per frame
    to metres per second. Reals stand for Python floats. Two transcendental
    functions are abstract: the caller supplies `tan(hfov / 2)` as a number and
    the square root as a function that is known only to return the
    non-negative root. */
module Geometry {

  datatype Intrinsics = Intrinsics(fx: real, fy: real, cx: real, cy: real)

  /** `intrinsics_from_hfov`; `tanHalfHfov` is tan(hfov / 2), hfov in radians.
      Python divides by it, so it must not be zero. */
  function IntrinsicsFromHfov(widthPx: int, heightPx: int, tanHalfHfov: real): (k: Intrinsics)
    requires tanHalfHfov != 0.0
    ensures k.fy == k.fx
    ensures k.fx * (2.0 * tanHalfHfov) == widthPx as real
    ensures 2.0 * k.cx == widthPx as real && 2.0 * k.cy == heightPx as real
  {
    var fx := widthPx as real / (2.0 * tanHalfHfov);
    Intrinsics(fx, fx, widthPx as real / 2.0, heightPx as real / 2.0)
  }

  /** For a fixed field of view the focal length is proportional to the width. */
  lemma FocalLengthScalesWithWidth(widthPx: int, heightPx: int, tanHalfHfov: real, n: int)
    requires tanHalfHfov != 0.0
    ensures IntrinsicsFromHfov(n * widthPx, heightPx, tanHalfHfov).fx
            == n as real * IntrinsicsFromHfov(widthPx, heightPx, tanHalfHfov).fx
  {
    var k := IntrinsicsFromHfov(widthPx, heightPx, tanHalfHfov);
    var kn := IntrinsicsFromHfov(n * widthPx, heightPx, tanHalfHfov);
    var t := 2.0 * tanHalfHfov;
    assert kn.fx * t == (n * widthPx) as real == n as real * (k.fx * t);
    assert (kn.fx - n as real * k.fx) * t == 0.0;
  }

  /** `sqrt` returns the non-negative square root of every non-negative real. */
  ghost predicate IsSqrt(sqrt: real -> real) {
    forall x :: 0.0 <= x ==> 0.0 <= sqrt(x) && sqrt(x) * sqrt(x) == x
  }

  /** A non-negative square root is unique. */
  lemma SqrtUnique(sqrt: real -> real, x: real, r: real)
    requires IsSqrt(sqrt)
    requires 0.0 <= r && r * r == x
    ensures sqrt(x) == r
  {
    var a := sqrt(x);
    assert 0.0 <= a && a * a == x;
    assert (a - r) * (a + r) == 0.0;
    assert a - r == 0.0 || a + r == 0.0;
  }

  /** The squared ground-plane displacement in metres of a pixel displacement
      seen from `heightM` with focal lengths `fx`, `fy`. */
  function GroundDistSq(dxPx: real, dyPx: real, fx: real, fy: real, heightM: real): (d: real)
    requires fx != 0.0 && fy != 0.0
    ensures 0.0 <= d
    ensures d == 0.0 <==> heightM == 0.0 || (dxPx == 0.0 && dyPx == 0.0)
  {
    var dxM := heightM * (dxPx / fx);
    var dyM := heightM * (dyPx / fy);
    assert dxM == 0.0 <==> heightM == 0.0 || dxPx == 0.0;
    assert dyM == 0.0 <==> heightM == 0.0 || dyPx == 0.0;
    dxM * dxM + dyM * dyM
  }

  /** `px_to_speed_mps`: the metric distance per frame times the frame rate.
      The result is the real whose square is fps² times the squared metric
      distance, and it has the sign of `fps`. */
  function PxToSpeed(dxPx: real, dyPx: real, fx: real, fy: real, heightM: real, fps: real,
                     sqrt: real -> real): (v: real)
    requires fx != 0.0 && fy != 0.0
    requires IsSqrt(sqrt)
    ensures v * v == fps * fps * GroundDistSq(dxPx, dyPx, fx, fy, heightM)
    ensures 0.0 <= fps ==> 0.0 <= v
    ensures fps <= 0.0 ==> v <= 0.0
  {
    var dist := sqrt(GroundDistSq(dxPx, dyPx, fx, fy, heightM));
    assert (dist * fps) * (dist * fps) == (dist * dist) * (fps * fps);
    dist * fps
  }

  function Abs(k: real): real {
    if k < 0.0 then -k else k
  }

  /** The root of k² x is |k| times the root of x. */
  lemma ScaledRoot(sqrt: real -> real, x: real, k: real)
    requires IsSqrt(sqrt)
    requires 0.0 <= x
    ensures sqrt((k * k) * x) == Abs(k) * sqrt(x)
  {
    var s := sqrt(x);
    assert 0.0 <= s && s * s == x;
    assert Abs(k) * Abs(k) == k * k;
    assert (Abs(k) * s) * (Abs(k) * s) == (Abs(k) * Abs(k)) * (s * s);
    SqrtUnique(sqrt, (k * k) * x, Abs(k) * s);
  }

  /** Scaling the pixel displacement by k scales the squared metric distance by k². */
  lemma GroundDistSqScales(dxPx: real, dyPx: real, fx: real, fy: real, heightM: real, k: real)
    requires fx != 0.0 && fy != 0.0
    ensures GroundDistSq(k * dxPx, k * dyPx, fx, fy, heightM) == (k * k) * GroundDistSq(dxPx, dyPx, fx, fy, heightM)
  {
    var a := heightM * (dxPx / fx);
    var b := heightM * (dyPx / fy);
    assert heightM * ((k * dxPx) / fx) == k * a;
    assert heightM * ((k * dyPx) / fy) == k * b;
    assert (k * a) * (k * a) + (k * b) * (k * b) == (k * k) * (a * a + b * b);
  }

  /** Scaling the camera height by c scales the squared metric distance by c². */
  lemma GroundDistSqScalesWithHeight(dxPx: real, dyPx: real, fx: real, fy: real, heightM: real, c: real)
    requires fx != 0.0 && fy != 0.0
    ensures GroundDistSq(dxPx, dyPx, fx, fy, c * heightM) == (c * c) * GroundDistSq(dxPx, dyPx, fx, fy, heightM)
  {
    var a := heightM * (dxPx / fx);
    var b := heightM * (dyPx / fy);
    assert (c * heightM) * (dxPx / fx) == c * a;
    assert (c * heightM) * (dyPx / fy) == c * b;
    assert (c * a) * (c * a) + (c * b) * (c * b) == (c * c) * (a * a + b * b);
  }

  /** Scaling the pixel displacement by k scales the speed by |k|. */
  lemma SpeedScalesWithDisplacement(dxPx: real, dyPx: real, fx: real, fy: real, heightM: real, fps: real,
                                    sqrt: real -> real, k: real)
    requires fx != 0.0 && fy != 0.0
    requires IsSqrt(sqrt)
    ensures PxToSpeed(k * dxPx, k * dyPx, fx, fy, heightM, fps, sqrt)
            == Abs(k) * PxToSpeed(dxPx, dyPx, fx, fy, heightM, fps, sqrt)
  {
    var g := GroundDistSq(dxPx, dyPx, fx, fy, heightM);
    GroundDistSqScales(dxPx, dyPx, fx, fy, heightM, k);
    ScaledRoot(sqrt, g, k);
    var gk := GroundDistSq(k * dxPx, k * dyPx, fx, fy, heightM);
    assert gk == (k * k) * g;
    assert sqrt(gk) == sqrt((k * k) * g);
    calc {
      PxToSpeed(k * dxPx, k * dyPx, fx, fy, heightM, fps, sqrt);
      sqrt(GroundDistSq(k * dxPx, k * dyPx, fx, fy, heightM)) * fps;
      sqrt((k * k) * g) * fps;
      (Abs(k) * sqrt(g)) * fps;
      Abs(k) * (sqrt(g) * fps);
    }
  }

  /** Reversing the direction of motion leaves the speed unchanged. */
  lemma SpeedIgnoresDirection(dxPx: real, dyPx: real, fx: real, fy: real, heightM: real, fps: real,
                              sqrt: real -> real)
    requires fx != 0.0 && fy != 0.0
    requires IsSqrt(sqrt)
    ensures PxToSpeed(-dxPx, -dyPx, fx, fy, heightM, fps, sqrt)
            == PxToSpeed(dxPx, dyPx, fx, fy, heightM, fps, sqrt)
  {
    SpeedScalesWithDisplacement(dxPx, dyPx, fx, fy, heightM, fps, sqrt, -1.0);
    assert -1.0 * dxPx == -dxPx && -1.0 * dyPx == -dyPx;
  }

  /** The speed is linear in the frame rate. */
  lemma SpeedLinearInFps(dxPx: real, dyPx: real, fx: real, fy: real, heightM: real, fps: real,
                         sqrt: real -> real, c: real)
    requires fx != 0.0 && fy != 0.0
    requires IsSqrt(sqrt)
    ensures PxToSpeed(dxPx, dyPx, fx, fy, heightM, c * fps, sqrt)
            == c * PxToSpeed(dxPx, dyPx, fx, fy, heightM, fps, sqrt)
  {
  }

  /** The speed is linear in a non-negative scaling of the camera height. */
  lemma SpeedLinearInHeight(dxPx: real, dyPx: real, fx: real, fy: real, heightM: real, fps: real,
                            sqrt: real -> real, c: real)
    requires fx != 0.0 && fy != 0.0
    requires IsSqrt(sqrt)
    requires 0.0 <= c
    ensures PxToSpeed(dxPx, dyPx, fx, fy, c * heightM, fps, sqrt)
            == c * PxToSpeed(dxPx, dyPx, fx, fy, heightM, fps, sqrt)
  {
    var g := GroundDistSq(dxPx, dyPx, fx, fy, heightM);
    GroundDistSqScalesWithHeight(dxPx, dyPx, fx, fy, heightM, c);
    ScaledRoot(sqrt, g, c);
    assert Abs(c) == c;
    var gc := GroundDistSq(dxPx, dyPx, fx, fy, c * heightM);
    assert gc == (c * c) * g;
    assert sqrt(gc) == sqrt((c * c) * g);
    calc {
      PxToSpeed(dxPx, dyPx, fx, fy, c * heightM, fps, sqrt);
      sqrt(GroundDistSq(dxPx, dyPx, fx, fy, c * heightM)) * fps;
      sqrt((c * c) * g) * fps;
      (c * sqrt(g)) * fps;
      c * (sqrt(g) * fps);
    }
  }

  /** Above the ground and with a positive frame rate, the speed is zero exactly
      when there is no displacement. */
  lemma SpeedZeroIffStill(dxPx: real, dyPx: real, fx: real, fy: real, heightM: real, fps: real,
                          sqrt: real -> real)
    requires fx != 0.0 && fy != 0.0
    requires IsSqrt(sqrt)
    requires 0.0 < heightM && 0.0 < fps
    ensures PxToSpeed(dxPx, dyPx, fx, fy, heightM, fps, sqrt) == 0.0 <==> dxPx == 0.0 && dyPx == 0.0
  {
    var v := PxToSpeed(dxPx, dyPx, fx, fy, heightM, fps, sqrt);
    var d := GroundDistSq(dxPx, dyPx, fx, fy, heightM);
    assert v * v == (fps * fps) * d;
    assert 0.0 < fps * fps;
    if v == 0.0 {
      assert (fps * fps) * d == 0.0;
      assert d == 0.0;
    }
    if dxPx == 0.0 && dyPx == 0.0 {
      assert d == 0.0;
      assert v * v == 0.0;
    }
  }

  /** The camera configuration the pipeline converts speeds with. */
  datatype Camera = Camera(fx: real, fy: real, heightM: real, fps: real) {
    predicate Usable() {
      fx != 0.0 && fy != 0.0
    }
  }

  function Speed(cam: Camera, dxPx: real, dyPx: real, sqrt: real -> real): real
    requires cam.Usable() && IsSqrt(sqrt)
  {
    PxToSpeed(dxPx, dyPx, cam.fx, cam.fy, cam.heightM, cam.fps, sqrt)
  }
}
