/** Ray-ground intersection against a flat ground plane and against a
    spherical Earth.

    A click ray starts at the drone and travels along a direction `vec`;
    the flat solvers stop it at the horizontal plane through the ground,
    the spherical solver at the sphere of radius `earthRadius` centred on
    the Earth's centre.
 */
module Ground {
  import opened Outcomes
  import opened LinAlg
  import opened RealArith

  datatype GroundError =
    | ParallelToGround   // the direction has no vertical component
    | MissesSphere       // the line never meets the sphere
    | PointsAway         // the root the solver takes lies behind the start

  /** The click direction flipped, if needed, so that it points upwards
      (`vec_DEM = (-1) * vec_DEM` when its third component is negative). */
  function OrientUp(v: Vec3): (r: Vec3)
    ensures r.z >= 0.0
    ensures r == v || r == Scale(-1.0, v)
    ensures v.z >= 0.0 ==> r == v
    ensures v.z < 0.0 ==> r == Scale(-1.0, v) && r.z > 0.0
  {
    if v.z < 0.0 then Scale(-1.0, v) else v
  }

  // ------------------------------------------------------------ flat plane

  /** `find_ground_intersection_ENU`: the ray from `(east, north, alt)`
      along `vec` meets the plane `up = 0` at parameter `-alt / vec.z`. */
  function FindGroundIntersectionENU(north: real, east: real, alt: real, vec: Vec3): (r: Result<Vec3, GroundError>)
    ensures r.Err? <==> vec.z == 0.0
    ensures r.Err? ==> r.error == ParallelToGround
    ensures r.Ok? ==> r.value == RayAt(Vec3(east, north, alt), vec, -alt / vec.z)
    ensures r.Ok? ==> r.value.z == 0.0
  {
    if vec.z == 0.0 then
      Err(ParallelToGround)
    else
      var t := -alt / vec.z;
      DivMulCancel(-alt, vec.z);
      assert RayAt(Vec3(east, north, alt), vec, t).z == alt + t * vec.z == 0.0;
      Ok(Vec3(east + t * vec.x, north + t * vec.y, 0.0))
  }

  /** `find_ground_intersection_UTM`: the same solve with the relative
      altitude `altRel` as the height above ground, reporting the ground
      level `altAbs - altRel` as the third coordinate. */
  function FindGroundIntersectionUTM(north: real, east: real, altRel: real, altAbs: real, vec: Vec3): (r: Result<Vec3, GroundError>)
    ensures r.Err? <==> vec.z == 0.0
    ensures r.Err? ==> r.error == ParallelToGround
    ensures r.Ok? ==> r.value == RayAt(Vec3(east, north, altAbs), vec, -altRel / vec.z)
    ensures r.Ok? ==> r.value.z == altAbs - altRel
  {
    if vec.z == 0.0 then
      Err(ParallelToGround)
    else
      var t := -altRel / vec.z;
      DivMulCancel(-altRel, vec.z);
      assert RayAt(Vec3(east, north, altAbs), vec, t).z == altAbs + t * vec.z == altAbs - altRel;
      Ok(Vec3(east + t * vec.x, north + t * vec.y, altAbs - altRel))
  }

  /** The UTM solver is the ENU solver run at the relative altitude, lifted
      to the ground level `altAbs - altRel`. */
  lemma UTMIsLiftedENU(north: real, east: real, altRel: real, altAbs: real, vec: Vec3)
    ensures var u := FindGroundIntersectionUTM(north, east, altRel, altAbs, vec);
            var e := FindGroundIntersectionENU(north, east, altRel, vec);
            && (u.Ok? <==> e.Ok?)
            && (u.Ok? ==> u.value == Add(e.value, Vec3(0.0, 0.0, altAbs - altRel)))
  {
  }

  /** Only the line matters, not the direction's length or sense: scaling
      `vec` by any nonzero factor leaves the ENU intersection unchanged. */
  lemma ENUScaleInvariant(north: real, east: real, alt: real, vec: Vec3, k: real)
    requires k != 0.0
    ensures FindGroundIntersectionENU(north, east, alt, Scale(k, vec)) == FindGroundIntersectionENU(north, east, alt, vec)
  {
    var w := Scale(k, vec);
    assert w.z == k * vec.z;
    assert k * vec.z == 0.0 <==> vec.z == 0.0;
    if vec.z != 0.0 {
      ScaledDirectionSamePoint(Vec3(east, north, alt), vec, k, -alt);
    }
  }

  /** Scaling the direction by `k` and the parameter by `1 / k` reaches the
      same point. */
  lemma ScaledDirectionSamePoint(o: Vec3, vec: Vec3, k: real, a: real)
    requires vec.z != 0.0 && k != 0.0
    ensures RayAt(o, Scale(k, vec), a / (k * vec.z)) == RayAt(o, vec, a / vec.z)
  {
    ScaledQuotient(a, vec.z, k, vec.x);
    ScaledQuotient(a, vec.z, k, vec.y);
    ScaledQuotient(a, vec.z, k, vec.z);
  }

  /** Flipping the click direction upwards does not move the ENU ground point. */
  lemma ENUIgnoresOrientation(north: real, east: real, alt: real, vec: Vec3)
    ensures FindGroundIntersectionENU(north, east, alt, OrientUp(vec)) == FindGroundIntersectionENU(north, east, alt, vec)
  {
    if vec.z < 0.0 {
      ENUScaleInvariant(north, east, alt, vec, -1.0);
    }
  }

  // -------------------------------------------------------------- sphere

  /** Coefficients of `t ↦ a t² + b t + c`. */
  datatype Quadratic = Quadratic(a: real, b: real, c: real)

  function QuadAt(q: Quadratic, t: real): real {
    q.a * t * t + q.b * t + q.c
  }

  function Discriminant(q: Quadratic): real {
    q.b * q.b - 4.0 * q.a * q.c
  }

  /** The smaller root `(-b - s) / 2a` for a square root `s` of the
      discriminant, the only root the script considers. */
  function NearRoot(q: Quadratic, s: real): real
    requires q.a != 0.0
  {
    (-q.b - s) / (2.0 * q.a)
  }

  /** The larger root `(-b + s) / 2a`. */
  function FarRoot(q: Quadratic, s: real): real
    requires q.a != 0.0
  {
    (-q.b + s) / (2.0 * q.a)
  }

  /** `s` is the non-negative square root of `x`. */
  predicate IsSqrtOf(s: real, x: real) {
    s >= 0.0 && s * s == x
  }

  /** `|P + t D|² - R²` as a quadratic in `t` (the script's `a`, `b`, `c`). */
  function SphereQuadratic(p: Vec3, d: Vec3, radius: real): Quadratic {
    Quadratic(Dot(d, d), 2.0 * Dot(p, d), Dot(p, p) - radius * radius)
  }

  /** Squared distance from the Earth's centre minus the squared radius. */
  function Clearance(x: Vec3, radius: real): real {
    Dot(x, x) - radius * radius
  }

  /** `find_ground_intersection_ECEF` after the geodetic-to-ECEF step: the
      start `p` is already in Earth-centred coordinates and `sqrt` stands
      for `np.sqrt`. The result is the ECEF intersection point; the final
      conversion back to latitude and longitude is not part of this model. */
  function FindGroundIntersectionECEF(p: Vec3, d: Vec3, radius: real, sqrt: real -> real): Result<Vec3, GroundError>
    requires Dot(d, d) > 0.0
  {
    var q := SphereQuadratic(p, d, radius);
    var disc := Discriminant(q);
    if disc < 0.0 then
      Err(MissesSphere)
    else
      var t := NearRoot(q, sqrt(disc));
      if t < 0.0 then Err(PointsAway) else Ok(RayAt(p, d, t))
  }

  /** Along the ray the clearance is the script's quadratic. */
  lemma ClearanceAlongRay(p: Vec3, d: Vec3, radius: real, t: real)
    ensures Clearance(RayAt(p, d, t), radius) == QuadAt(SphereQuadratic(p, d, radius), t)
  {
    SquareAlong(p.x, d.x, t);
    SquareAlong(p.y, d.y, t);
    SquareAlong(p.z, d.z, t);
  }

  lemma SquareAlong(p: real, d: real, t: real)
    ensures (p + t * d) * (p + t * d) == p * p + 2.0 * (p * d) * t + (d * d) * t * t
  {
  }

  // Scalar facts about a quadratic with a positive leading coefficient.

  /** Completing the square: `4 a f(t) = (2 a t + b)² - disc`. */
  lemma CompleteSquare(q: Quadratic, t: real)
    ensures 4.0 * q.a * QuadAt(q, t) == (2.0 * q.a * t + q.b) * (2.0 * q.a * t + q.b) - Discriminant(q)
  {
  }

  /** A positive multiple of `f(t)` fixes its sign. */
  lemma SignFromMultiple(a: real, f: real, m: real)
    requires a > 0.0 && m == 4.0 * a * f
    ensures (m > 0.0 ==> f > 0.0) && (m == 0.0 ==> f == 0.0)
  {
  }

  /** With `s` a square root of the discriminant, `2 a t + b` at the near
      root is `-s`, at the far root `s`. */
  lemma RootOffsets(q: Quadratic, s: real)
    requires q.a != 0.0
    ensures 2.0 * q.a * NearRoot(q, s) + q.b == -s
    ensures 2.0 * q.a * FarRoot(q, s) + q.b == s
  {
    DivMulCancel(-q.b - s, 2.0 * q.a);
    DivMulCancel(-q.b + s, 2.0 * q.a);
  }

  /** Where `|2 a t + b|` exceeds `√disc`, the quadratic is positive. */
  lemma PositiveBeyondRoots(q: Quadratic, s: real, t: real)
    requires q.a > 0.0 && IsSqrtOf(s, Discriminant(q))
    requires 2.0 * q.a * t + q.b < -s || 2.0 * q.a * t + q.b > s
    ensures QuadAt(q, t) > 0.0
  {
    var w := 2.0 * q.a * t + q.b;
    SquareExceeds(w, s);
    CompleteSquare(q, t);
    SignFromMultiple(q.a, QuadAt(q, t), w * w - Discriminant(q));
  }

  lemma SquareExceeds(w: real, s: real)
    requires s >= 0.0 && (w < -s || w > s)
    ensures w * w > s * s
  {
    if w > s {
      assert w * w > s * w;
      assert s * w >= s * s;
    } else {
      assert (-w) * (-w) > s * (-w);
      assert s * (-w) >= s * s;
    }
  }

  /** Both roots are roots. */
  lemma RootsAreZeros(q: Quadratic, s: real)
    requires q.a > 0.0 && IsSqrtOf(s, Discriminant(q))
    ensures QuadAt(q, NearRoot(q, s)) == 0.0 && QuadAt(q, FarRoot(q, s)) == 0.0
  {
    RootOffsets(q, s);
    CompleteSquare(q, NearRoot(q, s));
    assert (-s) * (-s) == s * s;
    SignFromMultiple(q.a, QuadAt(q, NearRoot(q, s)), 0.0);
    CompleteSquare(q, FarRoot(q, s));
    SignFromMultiple(q.a, QuadAt(q, FarRoot(q, s)), 0.0);
  }

  /** A negative discriminant leaves the quadratic positive everywhere. */
  lemma PositiveWithoutRoots(q: Quadratic, t: real)
    requires q.a > 0.0 && Discriminant(q) < 0.0
    ensures QuadAt(q, t) > 0.0
  {
    var w := 2.0 * q.a * t + q.b;
    CompleteSquare(q, t);
    assert w * w >= 0.0;
    SignFromMultiple(q.a, QuadAt(q, t), w * w - Discriminant(q));
  }

  // Properties of the spherical solver.

  /** With an exact square root, a returned point lies on the sphere, at a
      non-negative parameter along the ray. */
  lemma ECEFHitsSphere(p: Vec3, d: Vec3, radius: real, sqrt: real -> real)
    requires Dot(d, d) > 0.0
    requires var disc := Discriminant(SphereQuadratic(p, d, radius));
             disc >= 0.0 ==> IsSqrtOf(sqrt(disc), disc)
    ensures var r := FindGroundIntersectionECEF(p, d, radius, sqrt);
            var q := SphereQuadratic(p, d, radius);
            r.Ok? ==> && Clearance(r.value, radius) == 0.0
                      && NearRoot(q, sqrt(Discriminant(q))) >= 0.0
                      && r.value == RayAt(p, d, NearRoot(q, sqrt(Discriminant(q))))
  {
    var q := SphereQuadratic(p, d, radius);
    if Discriminant(q) >= 0.0 {
      var s := sqrt(Discriminant(q));
      RootsAreZeros(q, s);
      ClearanceAlongRay(p, d, radius, NearRoot(q, s));
    }
  }

  /** `MissesSphere` is reported exactly when no point of the line, forwards
      or backwards, lies on the sphere. */
  lemma ECEFMissesIffNoHit(p: Vec3, d: Vec3, radius: real, sqrt: real -> real)
    requires Dot(d, d) > 0.0
    requires var disc := Discriminant(SphereQuadratic(p, d, radius));
             disc >= 0.0 ==> IsSqrtOf(sqrt(disc), disc)
    ensures FindGroundIntersectionECEF(p, d, radius, sqrt) == Err(MissesSphere)
            <==> forall t :: Clearance(RayAt(p, d, t), radius) != 0.0
  {
    var q := SphereQuadratic(p, d, radius);
    if Discriminant(q) < 0.0 {
      forall t
        ensures Clearance(RayAt(p, d, t), radius) != 0.0
      {
        PositiveWithoutRoots(q, t);
        ClearanceAlongRay(p, d, radius, t);
      }
    } else {
      var s := sqrt(Discriminant(q));
      RootsAreZeros(q, s);
      ClearanceAlongRay(p, d, radius, NearRoot(q, s));
    }
  }

  /** The point returned is the first one the ray reaches: every earlier
      point of the ray lies strictly outside the sphere. */
  lemma ECEFFirstHit(p: Vec3, d: Vec3, radius: real, sqrt: real -> real, t: real)
    requires Dot(d, d) > 0.0
    requires var disc := Discriminant(SphereQuadratic(p, d, radius));
             disc >= 0.0 ==> IsSqrtOf(sqrt(disc), disc)
    requires FindGroundIntersectionECEF(p, d, radius, sqrt).Ok?
    requires var q := SphereQuadratic(p, d, radius);
             0.0 <= t < NearRoot(q, sqrt(Discriminant(q)))
    ensures Clearance(RayAt(p, d, t), radius) > 0.0
  {
    var q := SphereQuadratic(p, d, radius);
    PositiveBeforeNearRoot(q, sqrt(Discriminant(q)), t);
    ClearanceAlongRay(p, d, radius, t);
  }

  lemma PositiveBeforeNearRoot(q: Quadratic, s: real, t: real)
    requires q.a > 0.0 && IsSqrtOf(s, Discriminant(q))
    requires t < NearRoot(q, s)
    ensures QuadAt(q, t) > 0.0
  {
    RootOffsets(q, s);
    OffsetMonotone(q.a, q.b, t, NearRoot(q, s));
    PositiveBeyondRoots(q, s, t);
  }

  lemma OffsetMonotone(a: real, b: real, t: real, u: real)
    requires a > 0.0 && t < u
    ensures 2.0 * a * t + b < 2.0 * a * u + b
  {
  }

  /** From a start outside the sphere, `PointsAway` means the ray never
      reaches the sphere going forwards. */
  lemma ECEFPointsAwayFromOutside(p: Vec3, d: Vec3, radius: real, sqrt: real -> real, t: real)
    requires Dot(d, d) > 0.0
    requires var disc := Discriminant(SphereQuadratic(p, d, radius));
             disc >= 0.0 ==> IsSqrtOf(sqrt(disc), disc)
    requires Clearance(p, radius) > 0.0
    requires FindGroundIntersectionECEF(p, d, radius, sqrt) == Err(PointsAway)
    requires t >= 0.0
    ensures Clearance(RayAt(p, d, t), radius) > 0.0
  {
    var q := SphereQuadratic(p, d, radius);
    PositiveAheadWhenBothRootsBehind(q, sqrt(Discriminant(q)), t);
    ClearanceAlongRay(p, d, radius, t);
  }

  /** With `c > 0` and a negative near root, the quadratic is positive for
      every `t >= 0`. */
  lemma PositiveAheadWhenBothRootsBehind(q: Quadratic, s: real, t: real)
    requires q.a > 0.0 && q.c > 0.0 && IsSqrtOf(s, Discriminant(q))
    requires NearRoot(q, s) < 0.0 && t >= 0.0
    ensures QuadAt(q, t) > 0.0
  {
    // The near root is negative, so -b - s < 0; with c > 0 the root `s`
    // is below |b|, hence b > s.
    NegativeQuotient(-q.b - s, 2.0 * q.a);
    assert 4.0 * q.a * q.c > 0.0;
    SmallerSquareRoot(s, q.b);
    assert 2.0 * q.a * t >= 0.0;
    PositiveBeyondRoots(q, s, t);
  }

  lemma NegativeQuotient(x: real, y: real)
    requires y > 0.0 && x / y < 0.0
    ensures x < 0.0
  {
    DivMulCancel(x, y);
  }

  /** `0 <= s`, `s² < b²` and `b > -s` give `b > s`. */
  lemma SmallerSquareRoot(s: real, b: real)
    requires s >= 0.0 && s * s < b * b && b > -s
    ensures b > s
  {
    assert (b - s) * (b + s) == b * b - s * s;
    PositiveFactor(b - s, b + s);
  }

  lemma PositiveFactor(x: real, y: real)
    requires y > 0.0 && x * y > 0.0
    ensures x > 0.0
  {
  }

  lemma PositiveFactors(x: real, y: real)
    requires x + y >= 0.0 && x * y > 0.0
    ensures x > 0.0 && y > 0.0
  {
  }

  /** From a start strictly inside the sphere the script always reports
      `PointsAway`, although the far root is a forward hit: it never falls
      back to the second root. */
  lemma ECEFInsideStartPointsAway(p: Vec3, d: Vec3, radius: real, sqrt: real -> real)
    requires Dot(d, d) > 0.0
    requires var disc := Discriminant(SphereQuadratic(p, d, radius));
             disc >= 0.0 ==> IsSqrtOf(sqrt(disc), disc)
    requires Clearance(p, radius) < 0.0
    ensures FindGroundIntersectionECEF(p, d, radius, sqrt) == Err(PointsAway)
    ensures var q := SphereQuadratic(p, d, radius);
            var far := FarRoot(q, sqrt(Discriminant(q)));
            far > 0.0 && Clearance(RayAt(p, d, far), radius) == 0.0
  {
    var q := SphereQuadratic(p, d, radius);
    assert 4.0 * q.a * q.c < 0.0;
    var s := sqrt(Discriminant(q));
    assert s * s > q.b * q.b;
    LargerSquareRoot(s, q.b);
    PositiveQuotientSign(-q.b - s, 2.0 * q.a);
    PositiveQuotientSign(-q.b + s, 2.0 * q.a);
    RootsAreZeros(q, s);
    ClearanceAlongRay(p, d, radius, FarRoot(q, s));
  }

  /** `0 <= s` and `s² > b²` give `-s < b < s`. */
  lemma LargerSquareRoot(s: real, b: real)
    requires s >= 0.0 && s * s > b * b
    ensures -s < b < s
  {
    assert (s - b) * (s + b) == s * s - b * b;
    PositiveFactors(s - b, s + b);
  }

  lemma PositiveQuotientSign(x: real, y: real)
    requires y > 0.0
    ensures (x < 0.0 ==> x / y < 0.0) && (x > 0.0 ==> x / y > 0.0)
  {
    DivMulCancel(x, y);
  }
}
