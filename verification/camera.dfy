/** The pinhole camera: intrinsics inverse, click rays, and the matrices
    handed to the renderer.

    A camera with intrinsics `K`, world-to-camera rotation `R` and
    translation `t` sends a world point `X` to the homogeneous pixel
    `K (R X + t)`; the script's frame loop builds `t` as `-R C` from the
    drone position `C`.
 */
module Camera {
  import opened LinAlg
  import opened RealArith

  /** The shape the calibration file gives `K`: `[[fx, 0, cx], [0, fy, cy], [0, 0, 1]]`. */
  predicate IsIntrinsics(k: Mat3) {
    k.r0.y == 0.0 && k.r1.x == 0.0 && k.r2 == Vec3(0.0, 0.0, 1.0)
  }

  /** The focal lengths are nonzero, so `inv_K` divides by them safely. */
  predicate HasFocalLengths(k: Mat3) {
    k.r0.x != 0.0 && k.r1.y != 0.0
  }

  function Intrinsics(fx: real, fy: real, cx: real, cy: real): (k: Mat3)
    ensures IsIntrinsics(k)
    ensures k.r0.x == fx && k.r1.y == fy && k.r0.z == cx && k.r1.z == cy
  {
    Mat3(Vec3(fx, 0.0, cx), Vec3(0.0, fy, cy), Vec3(0.0, 0.0, 1.0))
  }

  /** Closed-form inverse of the intrinsics (`inv_K`). It reads only
      `K[0][0]`, `K[1][1]`, `K[0][2]` and `K[1][2]`. */
  function InvK(k: Mat3): Mat3
    requires HasFocalLengths(k)
  {
    var fx := k.r0.x;
    var fy := k.r1.y;
    var cx := k.r0.z;
    var cy := k.r1.z;
    Mat3(Vec3(1.0 / fx, 0.0, -cx / fx), Vec3(0.0, 1.0 / fy, -cy / fy), Vec3(0.0, 0.0, 1.0))
  }

  /** `InvK` is a left inverse of intrinsics-shaped `K`. */
  lemma InvKLeftInverse(k: Mat3)
    requires IsIntrinsics(k) && HasFocalLengths(k)
    ensures Mul(InvK(k), k) == Identity()
  {
  }

  /** `InvK` is a right inverse of intrinsics-shaped `K`. */
  lemma InvKRightInverse(k: Mat3)
    requires IsIntrinsics(k) && HasFocalLengths(k)
    ensures Mul(k, InvK(k)) == Identity()
  {
  }

  /** Two matrices that agree on the focal lengths and the principal point
      have the same `InvK`, whatever their other entries. */
  lemma InvKReadsFourEntries(k1: Mat3, k2: Mat3)
    requires HasFocalLengths(k1)
    requires k1.r0.x == k2.r0.x && k1.r1.y == k2.r1.y
    requires k1.r0.z == k2.r0.z && k1.r1.z == k2.r1.z
    ensures HasFocalLengths(k2) && InvK(k1) == InvK(k2)
  {
  }

  /** With a skew entry `K[0][1]`, `InvK` is no longer an inverse: the
      entries it ignores matter to `K`. */
  lemma InvKIgnoresSkew()
    ensures var k := Mat3(Vec3(1.0, 1.0, 0.0), Vec3(0.0, 1.0, 0.0), Vec3(0.0, 0.0, 1.0));
            HasFocalLengths(k) && Mul(InvK(k), k) != Identity()
  {
    var k := Mat3(Vec3(1.0, 1.0, 0.0), Vec3(0.0, 1.0, 0.0), Vec3(0.0, 0.0, 1.0));
    assert InvK(k) == Identity();
    MulIdentity(k);
  }

  // ------------------------------------------------------------ click rays

  /** A pixel in homogeneous coordinates (`pixel_RP2`). */
  function PixelPoint(u: real, v: real): Vec3 {
    Vec3(u, v, 1.0)
  }

  /** The homogeneous pixel of world point `x` seen by a camera `(K, R, t)`
      (`K @ [R | t] @ [x; 1]`). */
  function ProjectHomogeneous(k: Mat3, r: Mat3, t: Vec3, x: Vec3): Vec3 {
    Apply(k, Add(Apply(r, x), t))
  }

  datatype Ray = Ray(origin: Vec3, dir: Vec3)

  /** The ray through pixel `(u, v)` (`reta3D`): origin `-R_t t` and
      direction `R_t K_inv [u, v, 1]`. */
  function Ray3D(kInv: Mat3, rT: Mat3, t: Vec3, u: real, v: real): Ray {
    Ray(Neg(Apply(rT, t)), Apply(Mul(rT, kInv), PixelPoint(u, v)))
  }

  /** Given the camera-to-world rotation `Rᵀ` and the extrinsic translation
      `t = -R c`, the ray starts at the camera centre `c`. */
  lemma RayOriginIsCameraCentre(kInv: Mat3, r: Mat3, c: Vec3, u: real, v: real)
    requires IsOrthogonal(r)
    ensures Ray3D(kInv, Transpose(r), Neg(Apply(r, c)), u, v).origin == c
  {
    var rt := Transpose(r);
    calc {
      Neg(Apply(rt, Neg(Apply(r, c))));
      { ApplyNeg(rt, Apply(r, c)); }
      Apply(rt, Apply(r, c));
      { ApplyMul(rt, r, c); }
      Apply(Mul(rt, r), c);
      { ApplyIdentity(c); }
      c;
    }
  }

  /** Undoing the rotation of a ray direction leaves `K⁻¹ [u, v, 1]`. */
  lemma RotatedBackDirection(k: Mat3, r: Mat3, u: real, v: real)
    requires IsIntrinsics(k) && HasFocalLengths(k) && IsOrthogonal(r)
    ensures Apply(r, Ray3D(InvK(k), Transpose(r), Zero(), u, v).dir) == Apply(InvK(k), PixelPoint(u, v))
  {
    var rt := Transpose(r);
    var p := PixelPoint(u, v);
    calc {
      Apply(r, Apply(Mul(rt, InvK(k)), p));
      { ApplyMul(rt, InvK(k), p); }
      Apply(r, Apply(rt, Apply(InvK(k), p)));
      { ApplyMul(r, rt, Apply(InvK(k), p)); }
      Apply(Mul(r, rt), Apply(InvK(k), p));
      { ApplyIdentity(Apply(InvK(k), p)); }
      Apply(InvK(k), p);
    }
  }

  /** `K K⁻¹ p = p`. */
  lemma IntrinsicsUndoInverse(k: Mat3, p: Vec3)
    requires IsIntrinsics(k) && HasFocalLengths(k)
    ensures Apply(k, Apply(InvK(k), p)) == p
  {
    ApplyMul(k, InvK(k), p);
    InvKRightInverse(k);
    ApplyIdentity(p);
  }

  /** Every point of the ray through pixel `(u, v)`, at any parameter `s`,
      projects back onto that pixel: its homogeneous image is `s [u, v, 1]`.
      The camera is `(K, R, -R c)`, the ray is built from `K⁻¹`, `Rᵀ` and the
      same translation. */
  lemma RayProjectsToItsPixel(k: Mat3, r: Mat3, c: Vec3, u: real, v: real, s: real)
    requires IsIntrinsics(k) && HasFocalLengths(k) && IsOrthogonal(r)
    ensures var t := Neg(Apply(r, c));
            var ray := Ray3D(InvK(k), Transpose(r), t, u, v);
            ProjectHomogeneous(k, r, t, RayAt(ray.origin, ray.dir, s)) == Scale(s, PixelPoint(u, v))
  {
    var t := Neg(Apply(r, c));
    var ray := Ray3D(InvK(k), Transpose(r), t, u, v);
    var d := Apply(InvK(k), PixelPoint(u, v));
    RayOriginIsCameraCentre(InvK(k), r, c, u, v);
    RotatedBackDirection(k, r, u, v);
    assert Apply(r, ray.dir) == d;
    calc {
      ProjectHomogeneous(k, r, t, RayAt(c, ray.dir, s));
      Apply(k, Add(Apply(r, Add(c, Scale(s, ray.dir))), t));
      { ApplyAdd(r, c, Scale(s, ray.dir)); ApplyScale(r, s, ray.dir); }
      Apply(k, Add(Add(Apply(r, c), Scale(s, d)), Neg(Apply(r, c))));
      { assert Add(Add(Apply(r, c), Scale(s, d)), Neg(Apply(r, c))) == Scale(s, d); }
      Apply(k, Scale(s, d));
      { ApplyScale(k, s, d); IntrinsicsUndoInverse(k, PixelPoint(u, v)); }
      Scale(s, PixelPoint(u, v));
    }
  }

  // ------------------------------------------------------ render matrices

  /** Default clipping planes of the renderer (`near`, `far`). */
  const Near: real := 0.1
  const Far: real := 1000.0

  /** Shared rows of the perspective matrix: depth and the homogeneous `w = -z`. */
  function ProjectionRows(k: Mat3, width: real, near: real, far: real, row1: Vec4): Mat4
    requires width != 0.0 && far != near
  {
    var fx := k.r0.x;
    var cx := k.r0.z;
    Mat4(
      Vec4(2.0 * fx / width, 0.0, 1.0 - 2.0 * cx / width, 0.0),
      row1,
      Vec4(0.0, 0.0, -(far + near) / (far - near), -2.0 * far * near / (far - near)),
      Vec4(0.0, 0.0, -1.0, 0.0))
  }

  /** OpenGL perspective matrix from the intrinsics, as the script writes it
      (`build_projection_matrix`): the second row's offset is `1 - 2 cy / height`. */
  function BuildProjectionMatrix(k: Mat3, width: real, height: real, near: real, far: real): Mat4
    requires width != 0.0 && height != 0.0 && far != near
  {
    var fy := k.r1.y;
    var cy := k.r1.z;
    ProjectionRows(k, width, near, far, Vec4(0.0, 2.0 * fy / height, 1.0 - 2.0 * cy / height, 0.0))
  }

  /** The perspective matrix with the second row's offset `2 cy / height - 1`,
      which agrees with the pixel rows of the OpenCV camera for any principal point. */
  function BuildProjectionMatrixCorrected(k: Mat3, width: real, height: real, near: real, far: real): Mat4
    requires width != 0.0 && height != 0.0 && far != near
  {
    var fy := k.r1.y;
    var cy := k.r1.z;
    ProjectionRows(k, width, near, far, Vec4(0.0, 2.0 * fy / height, 2.0 * cy / height - 1.0, 0.0))
  }

  /** A camera-frame point `(x, y, z)` as the renderer sees it, `cameraToOpenglR`
      applied and extended to homogeneous coordinates. */
  function OpenGLPoint(p: Vec3): Vec4 {
    Vec4(p.x, -p.y, -p.z, 1.0)
  }

  /** The near plane maps to depth -1 and the far plane to +1. */
  lemma ProjectionDepthRange(k: Mat3, width: real, height: real, near: real, far: real, x: real, y: real)
    requires width != 0.0 && height != 0.0 && far != near
    ensures var c := Apply4(BuildProjectionMatrix(k, width, height, near, far), Vec4(x, y, -near, 1.0));
            c.w == near && c.z == -near
    ensures var c := Apply4(BuildProjectionMatrix(k, width, height, near, far), Vec4(x, y, -far, 1.0));
            c.w == far && c.z == far
  {
    DepthAtPlane(near, far, near);
    DepthAtPlane(near, far, far);
  }

  lemma DepthAtPlane(near: real, far: real, z: real)
    requires far != near && (z == near || z == far)
    ensures (-(far + near) / (far - near)) * -z + (-2.0 * far * near / (far - near)) == (if z == near then -near else far)
  {
    var d := far - near;
    assert (-(far + near) / d) * -z + (-2.0 * far * near / d) == ((far + near) * z - 2.0 * far * near) / d;
    if z == near {
      assert (far + near) * near - 2.0 * far * near == -near * d;
    } else {
      assert (far + near) * far - 2.0 * far * near == far * d;
    }
  }

  /** Normalised device x-coordinate of pixel column `u` in an image
      `width` pixels wide: column 0 is -1, column `width` is +1. */
  function NdcX(u: real, width: real): real
    requires width != 0.0
  {
    2.0 * u / width - 1.0
  }

  /** Normalised device y-coordinate of pixel row `v` in an image `height`
      pixels tall: the frame is flipped after reading it back, so row 0 is
      +1 and row `height` is -1. */
  function NdcY(v: real, height: real): real
    requires height != 0.0
  {
    1.0 - 2.0 * v / height
  }

  /** Column agreement: the rendered x-coordinate, after the perspective
      division, is that of the pixel column `u` that `K` gives. */
  lemma ProjectionColumnMatchesPixel(k: Mat3, width: real, height: real, near: real, far: real, p: Vec3)
    requires IsIntrinsics(k) && width != 0.0 && height != 0.0 && far != near && p.z != 0.0
    ensures var c := Apply4(BuildProjectionMatrix(k, width, height, near, far), OpenGLPoint(p));
            var u := Apply(k, p).x / p.z;
            c.w == p.z && c.x / c.w == NdcX(u, width)
  {
    var fx := k.r0.x;
    var cx := k.r0.z;
    var m := BuildProjectionMatrix(k, width, height, near, far);
    assert m.r0 == Vec4(2.0 * fx / width, 0.0, 1.0 - 2.0 * cx / width, 0.0);
    assert m.r3 == Vec4(0.0, 0.0, -1.0, 0.0);
    ColumnNdc(fx, cx, width, p);
    assert Apply(k, p).x == fx * p.x + cx * p.z;
  }

  /** The first row `(s, 0, o, 0)` of a perspective matrix applied to a
      renderer point, divided by its depth, given the clip coordinate
      `s x - o z` in the form `2 a / w - z`. */
  lemma FirstRowNdc(s: real, o: real, a: real, w: real, p: Vec3)
    requires w != 0.0 && p.z != 0.0 && s * p.x + (-o) * p.z == 2.0 * a / w - p.z
    ensures Dot4(Vec4(s, 0.0, o, 0.0), OpenGLPoint(p)) / p.z == NdcX(a / p.z, w)
  {
    NdcOfClip(Dot4(Vec4(s, 0.0, o, 0.0), OpenGLPoint(p)), a, p.z, w);
  }

  /** Perspective division of the first row `(2 f / w, 0, 1 - 2 c / w, 0)`
      applied to a renderer point. */
  lemma ColumnNdc(f: real, c: real, w: real, p: Vec3)
    requires w != 0.0 && p.z != 0.0
    ensures Dot4(Vec4(2.0 * f / w, 0.0, 1.0 - 2.0 * c / w, 0.0), OpenGLPoint(p)) / p.z
            == NdcX((f * p.x + c * p.z) / p.z, w)
  {
    ClipCoordinate(f, c, w, p.x, p.z);
    FirstRowNdc(2.0 * f / w, 1.0 - 2.0 * c / w, f * p.x + c * p.z, w, p);
  }

  /** Row agreement of the corrected matrix: the rendered y-coordinate,
      after the perspective division, is that of the pixel row `v` that
      `K` gives. */
  lemma CorrectedProjectionRowMatchesPixel(k: Mat3, width: real, height: real, near: real, far: real, p: Vec3)
    requires IsIntrinsics(k) && width != 0.0 && height != 0.0 && far != near && p.z != 0.0
    ensures var c := Apply4(BuildProjectionMatrixCorrected(k, width, height, near, far), OpenGLPoint(p));
            var v := Apply(k, p).y / p.z;
            c.w == p.z && c.y / c.w == NdcY(v, height)
  {
    var fy := k.r1.y;
    var cy := k.r1.z;
    var m := BuildProjectionMatrixCorrected(k, width, height, near, far);
    assert m.r1 == Vec4(0.0, 2.0 * fy / height, 2.0 * cy / height - 1.0, 0.0);
    assert m.r3 == Vec4(0.0, 0.0, -1.0, 0.0);
    RowNdc(fy, cy, height, p);
    assert Apply(k, p).y == fy * p.y + cy * p.z;
  }

  /** The second row `(0, s, o, 0)` of a perspective matrix applied to a
      renderer point, divided by its depth, given `s y + o z` in the form
      `2 a / h - z`. The renderer's y axis points up, so the sign flips. */
  lemma SecondRowNdc(s: real, o: real, a: real, h: real, p: Vec3)
    requires h != 0.0 && p.z != 0.0 && s * p.y + o * p.z == 2.0 * a / h - p.z
    ensures Dot4(Vec4(0.0, s, o, 0.0), OpenGLPoint(p)) / p.z == NdcY(a / p.z, h)
  {
    NdcOfNegatedClip(Dot4(Vec4(0.0, s, o, 0.0), OpenGLPoint(p)), a, p.z, h);
  }

  /** Perspective division of the second row `(0, 2 f / h, 2 c / h - 1, 0)`
      applied to a renderer point. */
  lemma RowNdc(f: real, c: real, h: real, p: Vec3)
    requires h != 0.0 && p.z != 0.0
    ensures Dot4(Vec4(0.0, 2.0 * f / h, 2.0 * c / h - 1.0, 0.0), OpenGLPoint(p)) / p.z
            == NdcY((f * p.y + c * p.z) / p.z, h)
  {
    ClipCoordinate(f, c, h, p.y, p.z);
    SecondRowNdc(2.0 * f / h, 2.0 * c / h - 1.0, f * p.y + c * p.z, h, p);
  }

  /** The script's row offset places the rendered point `height - 2 cy`
      rows below the pixel `K` gives: its y-coordinate is that of row
      `v + height - 2 cy`. */
  lemma ProjectionRowAsWritten(k: Mat3, width: real, height: real, near: real, far: real, p: Vec3)
    requires IsIntrinsics(k) && width != 0.0 && height != 0.0 && far != near && p.z != 0.0
    ensures var c := Apply4(BuildProjectionMatrix(k, width, height, near, far), OpenGLPoint(p));
            var v := Apply(k, p).y / p.z;
            c.w == p.z && c.y / c.w == NdcY(v + height - 2.0 * k.r1.z, height)
  {
    var fy := k.r1.y;
    var cy := k.r1.z;
    var m := BuildProjectionMatrix(k, width, height, near, far);
    assert m.r1 == Vec4(0.0, 2.0 * fy / height, 1.0 - 2.0 * cy / height, 0.0);
    assert m.r3 == Vec4(0.0, 0.0, -1.0, 0.0);
    AsWrittenRowNdc(fy, cy, height, p);
    assert Apply(k, p).y == fy * p.y + cy * p.z;
  }

  /** Perspective division of the script's second row
      `(0, 2 f / h, 1 - 2 c / h, 0)`: it is the corrected row for the
      principal point `h - c`. */
  lemma AsWrittenRowNdc(f: real, c: real, h: real, p: Vec3)
    requires h != 0.0 && p.z != 0.0
    ensures Dot4(Vec4(0.0, 2.0 * f / h, 1.0 - 2.0 * c / h, 0.0), OpenGLPoint(p)) / p.z
            == NdcY((f * p.y + c * p.z) / p.z + h - 2.0 * c, h)
  {
    var q1 := (f * p.y + (h - c) * p.z) / p.z;
    var q2 := (f * p.y + c * p.z) / p.z + h - 2.0 * c;
    FlippedRowNdc(f, c, h, p);
    ShiftNumerator(f, c, h, p.y, p.z);
    assert q1 == q2;
    assert NdcY(q1, h) == NdcY(q2, h);
  }

  /** The script's second row is the corrected row of the principal point `h - c`. */
  lemma FlippedRowNdc(f: real, c: real, h: real, p: Vec3)
    requires h != 0.0 && p.z != 0.0
    ensures Dot4(Vec4(0.0, 2.0 * f / h, 1.0 - 2.0 * c / h, 0.0), OpenGLPoint(p)) / p.z
            == NdcY((f * p.y + (h - c) * p.z) / p.z, h)
  {
    ClipCoordinateFlipped(f, c, h, p.y, p.z);
    SecondRowNdc(2.0 * f / h, 1.0 - 2.0 * c / h, f * p.y + (h - c) * p.z, h, p);
  }

  /** A concrete camera where the two matrices disagree: 1920x1080 image,
      focal length 1000, principal point (960, 500). The point straight
      ahead is pixel row 500, which the corrected matrix renders at NDC
      y = 2/27 and the script's matrix at -2/27, 80 rows lower. */
  lemma ProjectionRowCounterexample()
    ensures var k := Intrinsics(1000.0, 1000.0, 960.0, 500.0);
            var p := Vec3(0.0, 0.0, 1.0);
            && Apply(k, p) == Vec3(960.0, 500.0, 1.0)
            && Apply4(BuildProjectionMatrixCorrected(k, 1920.0, 1080.0, Near, Far), OpenGLPoint(p)).y == 2.0 / 27.0
            && Apply4(BuildProjectionMatrix(k, 1920.0, 1080.0, Near, Far), OpenGLPoint(p)).y == -2.0 / 27.0
  {
    var k := Intrinsics(1000.0, 1000.0, 960.0, 500.0);
    var p := Vec3(0.0, 0.0, 1.0);
    var corrected := BuildProjectionMatrixCorrected(k, 1920.0, 1080.0, Near, Far);
    var asWritten := BuildProjectionMatrix(k, 1920.0, 1080.0, Near, Far);
    assert corrected.r1 == Vec4(0.0, 2.0 * 1000.0 / 1080.0, 2.0 * 500.0 / 1080.0 - 1.0, 0.0);
    assert asWritten.r1 == Vec4(0.0, 2.0 * 1000.0 / 1080.0, 1.0 - 2.0 * 500.0 / 1080.0, 0.0);
    RowNdc(1000.0, 500.0, 1080.0, p);
    AsWrittenRowNdc(1000.0, 500.0, 1080.0, p);
    assert NdcY(500.0, 1080.0) == 2.0 / 27.0;
    assert NdcY(580.0, 1080.0) == -2.0 / 27.0;
  }

  /** With the principal point on the image's middle row the two matrices coincide. */
  lemma ProjectionsAgreeAtCentredPrincipalPoint(k: Mat3, width: real, height: real, near: real, far: real)
    requires width != 0.0 && height != 0.0 && far != near && 2.0 * k.r1.z == height
    ensures BuildProjectionMatrix(k, width, height, near, far) == BuildProjectionMatrixCorrected(k, width, height, near, far)
  {
    assert 1.0 - 2.0 * k.r1.z / height == 0.0;
  }

  /** OpenGL view matrix of a camera with camera-to-world rotation `r` at
      position `t` (`build_view_matrix`): `[Rᵀ | -Rᵀ t]` over `[0 0 0 1]`. */
  function BuildViewMatrix(r: Mat3, t: Vec3): Mat4 {
    var rt := Transpose(r);
    var o := Neg(Apply(rt, t));
    Mat4(
      Vec4(rt.r0.x, rt.r0.y, rt.r0.z, o.x),
      Vec4(rt.r1.x, rt.r1.y, rt.r1.z, o.y),
      Vec4(rt.r2.x, rt.r2.y, rt.r2.z, o.z),
      Vec4(0.0, 0.0, 0.0, 1.0))
  }

  /** The view matrix applies `Rᵀ (X - t)`. */
  lemma ViewMatrixApplies(r: Mat3, t: Vec3, x: Vec3)
    ensures Apply4(BuildViewMatrix(r, t), Point4(x)) == Point4(Apply(Transpose(r), Sub(x, t)))
  {
    ApplySub(Transpose(r), x, t);
  }

  /** The view matrix undoes the camera pose: a camera-frame point `x`,
      placed in the world at `R x + t`, comes back as `x`. */
  lemma ViewMatrixInvertsPose(r: Mat3, t: Vec3, x: Vec3)
    requires IsOrthogonal(r)
    ensures Apply4(BuildViewMatrix(r, t), Point4(Add(Apply(r, x), t))) == Point4(x)
  {
    ViewMatrixApplies(r, t, Add(Apply(r, x), t));
    assert Sub(Add(Apply(r, x), t), t) == Apply(r, x);
    ApplyMul(Transpose(r), r, x);
    ApplyIdentity(x);
  }
}
