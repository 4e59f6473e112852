// Orientation correction from landmarks: the angle choice of
// `get_rotation_from_vectors`, the one-landmark correction `get_R_one_roi`,
// the two-landmark alignment `get_R_roi`, and the main loop's landmark
// filter and dispatch. Square roots, `arccos` and Rodrigues' formula are
// floating-point kernels; they enter as parameters.

module Pose {
  import opened LinAlg
  import opened Outcomes
  import opened RealArith

  /** `np.pi` as a double. */
  const Pi: real := 3.141592653589793

  /** A landmark match is kept only when its template score is strictly
      above this. */
  const MinimumConfidence: real := 0.65

  /** The kernels the estimate calls into: `norm_vec`, `np.arccos` and
      `cv2.Rodrigues`. */
  datatype Numerics = Numerics(normalise: Vec3 -> Vec3, arccos: real -> real, rodrigues: Vec3 -> Mat3)

  /** A rotation together with the angle it turns by. */
  datatype Estimate = Estimate(angle: real, rotation: Mat3)

  /** `np.clip`: the point of `[lo, hi]` nearest to `x`. */
  function Clip(x: real, lo: real, hi: real): (r: real)
    requires lo <= hi
    ensures lo <= r <= hi
    ensures lo <= x <= hi ==> r == x
    ensures x < lo ==> r == lo
    ensures hi < x ==> r == hi
  {
    if x < lo then lo else if hi < x then hi else x
  }

  /** Clipping to a symmetric range commutes with negation. */
  lemma ClipOdd(x: real)
    ensures Clip(-x, -1.0, 1.0) == -Clip(x, -1.0, 1.0)
  {
  }

  // ------------------------------------------------ angle between vectors

  /** The angle `arccos` reports between the directions of `x` and `b`. */
  function TurnAngle(x: Vec3, b: Vec3, num: Numerics): real {
    num.arccos(Clip(Dot(num.normalise(x), num.normalise(b)), -1.0, 1.0))
  }

  /** The unit axis perpendicular to both directions. */
  function TurnAxis(x: Vec3, b: Vec3, num: Numerics): Vec3 {
    num.normalise(Cross(num.normalise(x), num.normalise(b)))
  }

  /** `get_rotation_from_vectors`: of the two ways round the axis, the one
      with the smaller angle; on a tie, the angle `arccos` gave. */
  function RotationFromVectors(x: Vec3, b: Vec3, num: Numerics): (e: Estimate)
    ensures e.angle == TurnAngle(x, b, num) || e.angle == 2.0 * Pi - TurnAngle(x, b, num)
    ensures e.angle <= TurnAngle(x, b, num) && e.angle <= 2.0 * Pi - TurnAngle(x, b, num)
    ensures e.angle <= Pi
    ensures e.rotation == num.rodrigues(Scale(e.angle, TurnAxis(x, b, num)))
  {
    var theta := TurnAngle(x, b, num);
    var thetaOp := 2.0 * Pi - theta;
    var v := TurnAxis(x, b, num);
    if theta <= thetaOp then Estimate(theta, num.rodrigues(Scale(theta, v)))
    else Estimate(thetaOp, num.rodrigues(Scale(thetaOp, v)))
  }

  /** `arccos` takes `[-1, 1]` into `[0, Pi]`. */
  ghost predicate ArccosInRange(arccos: real -> real) {
    forall c :: -1.0 <= c <= 1.0 ==> 0.0 <= arccos(c) <= Pi
  }

  /** `arccos(-c) = Pi - arccos(c)`. */
  ghost predicate ArccosSupplementary(arccos: real -> real) {
    forall c :: -1.0 <= c <= 1.0 ==> arccos(-c) == Pi - arccos(c)
  }

  /** With `arccos` in its range the first branch is always taken: the
      estimate turns by exactly the angle `arccos` reports. */
  lemma FirstBranchAlwaysTaken(x: Vec3, b: Vec3, num: Numerics)
    requires ArccosInRange(num.arccos)
    ensures RotationFromVectors(x, b, num).angle == TurnAngle(x, b, num)
  {
    var c := Clip(Dot(num.normalise(x), num.normalise(b)), -1.0, 1.0);
    assert 0.0 <= num.arccos(c) <= Pi;
  }

  // ------------------------------------------------------- one landmark

  /** The two candidate corrections: turn the predicted direction of the
      landmark onto the back-projected pixel ray, or onto its opposite. */
  function OneRoiCandidates(roiEnu: Vec3, roiPixel: Vec3, r: Mat3, kInv: Mat3, drone: Vec3, num: Numerics): (Estimate, Estimate) {
    var seen := Apply(r, Sub(roiEnu, drone));
    var ray := Apply(kInv, roiPixel);
    (RotationFromVectors(seen, ray, num), RotationFromVectors(seen, Neg(ray), num))
  }

  /** The candidate with the smaller angle; on a tie, the first. */
  function OneRoiCorrection(roiEnu: Vec3, roiPixel: Vec3, r: Mat3, kInv: Mat3, drone: Vec3, num: Numerics): (e: Estimate)
    ensures var (e1, e2) := OneRoiCandidates(roiEnu, roiPixel, r, kInv, drone, num);
            && (e == e1 || e == e2)
            && e.angle <= e1.angle && e.angle <= e2.angle
            && (e1.angle == e2.angle ==> e == e1)
  {
    var (e1, e2) := OneRoiCandidates(roiEnu, roiPixel, r, kInv, drone, num);
    if e1.angle <= e2.angle then e1 else e2
  }

  /** `get_R_one_roi`: the chosen correction applied after the camera
      rotation. */
  function GetROneRoi(roiEnu: Vec3, roiPixel: Vec3, r: Mat3, kInv: Mat3, drone: Vec3, num: Numerics): Mat3 {
    Mul(OneRoiCorrection(roiEnu, roiPixel, r, kInv, drone, num).rotation, r)
  }

  /** `norm_vec` of a reversed vector is the reversed `norm_vec`. */
  ghost predicate NormaliseOdd(normalise: Vec3 -> Vec3) {
    forall v :: normalise(Neg(v)) == Neg(normalise(v))
  }

  /** The two candidates are supplementary, so the chosen correction never
      turns by more than a right angle. */
  lemma OneRoiWithinRightAngle(roiEnu: Vec3, roiPixel: Vec3, r: Mat3, kInv: Mat3, drone: Vec3, num: Numerics)
    requires ArccosInRange(num.arccos) && ArccosSupplementary(num.arccos) && NormaliseOdd(num.normalise)
    ensures 0.0 <= OneRoiCorrection(roiEnu, roiPixel, r, kInv, drone, num).angle <= Pi / 2.0
  {
    var seen := Apply(r, Sub(roiEnu, drone));
    var ray := Apply(kInv, roiPixel);
    var d := Dot(num.normalise(seen), num.normalise(ray));
    assert Dot(num.normalise(seen), num.normalise(Neg(ray))) == -d;
    ClipOdd(d);
    var c := Clip(d, -1.0, 1.0);
    assert TurnAngle(seen, Neg(ray), num) == Pi - TurnAngle(seen, ray, num) by {
      assert num.arccos(-c) == Pi - num.arccos(c);
    }
    FirstBranchAlwaysTaken(seen, ray, num);
    FirstBranchAlwaysTaken(seen, Neg(ray), num);
  }

  /** Rodrigues' formula gives rotations, so the corrected camera rotation
      stays orthogonal. */
  lemma OneRoiStaysOrthogonal(roiEnu: Vec3, roiPixel: Vec3, r: Mat3, kInv: Mat3, drone: Vec3, num: Numerics)
    requires IsOrthogonal(r)
    requires forall v :: IsOrthogonal(num.rodrigues(v))
    ensures IsOrthogonal(GetROneRoi(roiEnu, roiPixel, r, kInv, drone, num))
  {
    var e := OneRoiCorrection(roiEnu, roiPixel, r, kInv, drone, num);
    assert IsOrthogonal(e.rotation);
    OrthogonalMul(e.rotation, r);
  }

  // ------------------------------------------------------ two landmarks

  /** The right-handed frame whose first two axes are `u0` and `u1`. */
  function Basis(u0: Vec3, u1: Vec3): Mat3 {
    FromColumns(u0, u1, Cross(u0, u1))
  }

  /** The rotation taking the frame of `u0, u1` onto the frame of `v0, v1`. */
  function Align(u0: Vec3, u1: Vec3, v0: Vec3, v1: Vec3): Mat3 {
    Mul(Basis(v0, v1), Transpose(Basis(u0, u1)))
  }

  /** One Gram-Schmidt step: `a` with its component along `u` removed. */
  function Reject(a: Vec3, u: Vec3): (w: Vec3)
    ensures Dot(u, u) == 1.0 ==> Dot(u, w) == 0.0
  {
    Sub(a, Scale(Dot(a, u), u))
  }

  /** Two directions made into an orthonormal pair: the first normalised,
      then the second with its component along the first removed and
      normalised. */
  function UnitPair(x0: Vec3, x1: Vec3, normalise: Vec3 -> Vec3): (Vec3, Vec3) {
    var u0 := normalise(x0);
    (u0, normalise(Reject(normalise(x1), u0)))
  }

  /** `get_R_roi`: the first two landmarks, seen from the drone and through
      the camera, each made into an orthonormal pair, and the rotation
      aligning the pairs. */
  function GetRRoi(roiEnus: seq<Vec3>, roiPixels: seq<Vec3>, kInv: Mat3, drone: Vec3, normalise: Vec3 -> Vec3): Mat3
    requires |roiEnus| >= 2 && |roiPixels| >= 2
  {
    var (u0, u1) := UnitPair(Sub(roiEnus[0], drone), Sub(roiEnus[1], drone), normalise);
    var (v0, v1) := UnitPair(Apply(kInv, roiPixels[0]), Apply(kInv, roiPixels[1]), normalise);
    Align(u0, u1, v0, v1)
  }

  /** `norm_vec` divides a nonzero vector by its length `norm`. */
  ghost predicate IsNormaliser(normalise: Vec3 -> Vec3, norm: Vec3 -> real) {
    forall v :: Dot(v, v) > 0.0 ==>
      norm(v) > 0.0 && norm(v) * norm(v) == Dot(v, v) && normalise(v) == Scale(1.0 / norm(v), v)
  }

  /** The first direction is not zero and the second is not parallel to
      it, so both normalisations see a nonzero vector. */
  predicate Spread(x0: Vec3, x1: Vec3, normalise: Vec3 -> Vec3) {
    var w := Reject(normalise(x1), normalise(x0));
    Dot(x0, x0) > 0.0 && Dot(w, w) > 0.0
  }

  /** A normalised nonzero vector has unit length. */
  lemma NormaliseUnit(v: Vec3, normalise: Vec3 -> Vec3, norm: Vec3 -> real)
    requires IsNormaliser(normalise, norm) && Dot(v, v) > 0.0
    ensures Dot(normalise(v), normalise(v)) == 1.0
    ensures normalise(v) == Scale(1.0 / norm(v), v)
  {
    var n := norm(v);
    DotScale(Scale(1.0 / n, v), 1.0 / n, v);
    DotScale(v, 1.0 / n, v);
    assert Dot(Scale(1.0 / n, v), v) == Dot(v, Scale(1.0 / n, v));
    InverseSquare(n);
  }

  /** Spread directions give an orthonormal pair. */
  lemma UnitPairOrthonormal(x0: Vec3, x1: Vec3, normalise: Vec3 -> Vec3, norm: Vec3 -> real)
    requires IsNormaliser(normalise, norm) && Spread(x0, x1, normalise)
    ensures var (u0, u1) := UnitPair(x0, x1, normalise);
            Dot(u0, u0) == 1.0 && Dot(u1, u1) == 1.0 && Dot(u0, u1) == 0.0
  {
    var u0 := normalise(x0);
    var w := Reject(normalise(x1), u0);
    NormaliseUnit(x0, normalise, norm);
    NormaliseUnit(w, normalise, norm);
    assert Dot(u0, w) == 0.0;
    DotScale(u0, 1.0 / norm(w), w);
  }

  /** With `norm_vec` dividing by the length and neither pair of directions
      degenerate, the two-landmark correction turns the direction of the
      first landmark onto the first pixel ray, and the part of the second
      landmark's direction across the first onto the matching part of the
      second ray. */
  lemma GetRRoiAlignsLandmarks(roiEnus: seq<Vec3>, roiPixels: seq<Vec3>, kInv: Mat3, drone: Vec3,
                               normalise: Vec3 -> Vec3, norm: Vec3 -> real)
    requires |roiEnus| >= 2 && |roiPixels| >= 2 && IsNormaliser(normalise, norm)
    requires Spread(Sub(roiEnus[0], drone), Sub(roiEnus[1], drone), normalise)
    requires Spread(Apply(kInv, roiPixels[0]), Apply(kInv, roiPixels[1]), normalise)
    ensures var r := GetRRoi(roiEnus, roiPixels, kInv, drone, normalise);
            var (u0, u1) := UnitPair(Sub(roiEnus[0], drone), Sub(roiEnus[1], drone), normalise);
            var (v0, v1) := UnitPair(Apply(kInv, roiPixels[0]), Apply(kInv, roiPixels[1]), normalise);
            Apply(r, u0) == v0 && Apply(r, u1) == v1
  {
    var (u0, u1) := UnitPair(Sub(roiEnus[0], drone), Sub(roiEnus[1], drone), normalise);
    var (v0, v1) := UnitPair(Apply(kInv, roiPixels[0]), Apply(kInv, roiPixels[1]), normalise);
    UnitPairOrthonormal(Sub(roiEnus[0], drone), Sub(roiEnus[1], drone), normalise, norm);
    UnitPairOrthonormal(Apply(kInv, roiPixels[0]), Apply(kInv, roiPixels[1]), normalise, norm);
    AlignMapsPairs(u0, u1, v0, v1);
  }

  /** Two orthonormal pairs: the alignment takes each axis of the first
      frame to the matching axis of the second. */
  lemma AlignMapsPairs(u0: Vec3, u1: Vec3, v0: Vec3, v1: Vec3)
    requires Dot(u0, u0) == 1.0 && Dot(u1, u1) == 1.0 && Dot(u0, u1) == 0.0
    requires Dot(v0, v0) == 1.0 && Dot(v1, v1) == 1.0 && Dot(v0, v1) == 0.0
    ensures Apply(Align(u0, u1, v0, v1), u0) == v0
    ensures Apply(Align(u0, u1, v0, v1), u1) == v1
    ensures Apply(Align(u0, u1, v0, v1), Cross(u0, u1)) == Cross(v0, v1)
  {
    var a := Basis(u0, u1);
    var b := Basis(v0, v1);
    CrossCompletesOrthonormal(u0, u1);
    CrossCompletesOrthonormal(v0, v1);
    TransposeRecoversBasis(u0, u1, Cross(u0, u1));
    ApplyMul(b, Transpose(a), u0);
    ApplyMul(b, Transpose(a), u1);
    ApplyMul(b, Transpose(a), Cross(u0, u1));
  }

  /** Landmarks past the second are never looked at. */
  lemma TwoLandmarksUseFirstTwo(roiEnus: seq<Vec3>, roiPixels: seq<Vec3>, kInv: Mat3, drone: Vec3, normalise: Vec3 -> Vec3)
    requires |roiEnus| >= 2 && |roiPixels| >= 2
    ensures GetRRoi(roiEnus, roiPixels, kInv, drone, normalise) == GetRRoi(roiEnus[..2], roiPixels[..2], kInv, drone, normalise)
  {
  }

  // ----------------------------------------------- filter and dispatch

  datatype Geodetic = Geodetic(lat: real, lon: real, height: real)

  /** One template match: the pixel of the match centre, its score, and the
      surveyed position of the landmark. */
  datatype Sighting = Sighting(pixel: Vec3, confidence: real, position: Geodetic)

  /** A landmark kept for the correction, in local east-north-up. */
  datatype Landmark = Landmark(pixel: Vec3, enu: Vec3)

  function Keep(s: Sighting, toEnu: Geodetic -> Vec3): Landmark {
    Landmark(s.pixel, toEnu(s.position))
  }

  /** The main loop's filter: the sightings scoring strictly above the
      threshold, in order, converted to east-north-up. */
  function GoodLandmarks(sightings: seq<Sighting>, toEnu: Geodetic -> Vec3): (r: seq<Landmark>)
    ensures |r| <= |sightings|
    ensures forall i :: 0 <= i < |sightings| && sightings[i].confidence > MinimumConfidence ==>
              Keep(sightings[i], toEnu) in r
    ensures forall l :: l in r ==>
              exists i :: 0 <= i < |sightings| && sightings[i].confidence > MinimumConfidence && l == Keep(sightings[i], toEnu)
  {
    if |sightings| == 0 then []
    else
      var rest := GoodLandmarks(sightings[1..], toEnu);
      assert forall i :: 1 <= i < |sightings| ==> sightings[i] == sightings[1..][i - 1];
      if sightings[0].confidence > MinimumConfidence then [Keep(sightings[0], toEnu)] + rest else rest
  }

  /** The filter distributes over concatenation, so it keeps the order of
      the sightings. */
  lemma {:induction false} GoodLandmarksAppend(a: seq<Sighting>, b: seq<Sighting>, toEnu: Geodetic -> Vec3)
    ensures GoodLandmarks(a + b, toEnu) == GoodLandmarks(a, toEnu) + GoodLandmarks(b, toEnu)
    decreases |a|
  {
    if |a| > 0 {
      assert (a + b)[1..] == a[1..] + b;
      GoodLandmarksAppend(a[1..], b, toEnu);
    } else {
      assert a + b == b;
    }
  }

  /** A score exactly at the threshold is dropped. */
  lemma ThresholdIsStrict(s: Sighting, toEnu: Geodetic -> Vec3)
    requires s.confidence == MinimumConfidence
    ensures GoodLandmarks([s], toEnu) == []
  {
  }

  /** The main loop's choice of correction: none without landmarks, the
      one-landmark correction for exactly one, the two-landmark alignment
      for two or more. */
  function CorrectedRotation(good: seq<Landmark>, r: Mat3, kInv: Mat3, drone: Vec3, num: Numerics): (o: Option<Mat3>)
    ensures o.None? <==> |good| == 0
    ensures |good| == 1 ==> o == Some(GetROneRoi(good[0].enu, good[0].pixel, r, kInv, drone, num))
    ensures |good| >= 2 ==>
              o == Some(GetRRoi([good[0].enu, good[1].enu], [good[0].pixel, good[1].pixel], kInv, drone, num.normalise))
  {
    if |good| == 1 then Some(GetROneRoi(good[0].enu, good[0].pixel, r, kInv, drone, num))
    else if |good| >= 2 then
      Some(GetRRoi(seq(|good|, i requires 0 <= i < |good| => good[i].enu),
                   seq(|good|, i requires 0 <= i < |good| => good[i].pixel),
                   kInv, drone, num.normalise))
    else None
  }
}
