/** Exact 3-D and homogeneous 4-D linear algebra over `real`.

    The script keeps its vectors as NumPy arrays, sometimes flat (`vec[0]`)
    and sometimes as 3x1 columns (`vec[0,0]`); both become a `Vec3` here.
    Matrices are stored by rows, so `K[0][2]` is `K.r0.z`. Because `real`
    is exact, identities that only hold up to rounding in the script hold
    exactly in the model.
 */
module LinAlg {

  datatype Vec3 = Vec3(x: real, y: real, z: real)

  /** A 3x3 matrix given by its rows. */
  datatype Mat3 = Mat3(r0: Vec3, r1: Vec3, r2: Vec3)

  datatype Vec4 = Vec4(x: real, y: real, z: real, w: real)

  /** A 4x4 matrix given by its rows. */
  datatype Mat4 = Mat4(r0: Vec4, r1: Vec4, r2: Vec4, r3: Vec4)

  // ---------------------------------------------------------------- vectors

  function Zero(): Vec3 {
    Vec3(0.0, 0.0, 0.0)
  }

  function Add(a: Vec3, b: Vec3): Vec3 {
    Vec3(a.x + b.x, a.y + b.y, a.z + b.z)
  }

  function Sub(a: Vec3, b: Vec3): Vec3 {
    Vec3(a.x - b.x, a.y - b.y, a.z - b.z)
  }

  function Neg(a: Vec3): Vec3 {
    Vec3(-a.x, -a.y, -a.z)
  }

  function Scale(k: real, a: Vec3): Vec3 {
    Vec3(k * a.x, k * a.y, k * a.z)
  }

  function Dot(a: Vec3, b: Vec3): real {
    a.x * b.x + a.y * b.y + a.z * b.z
  }

  function Cross(a: Vec3, b: Vec3): Vec3 {
    Vec3(a.y * b.z - a.z * b.y, a.z * b.x - a.x * b.z, a.x * b.y - a.y * b.x)
  }

  /** The point reached from `origin` after travelling `t` times `dir`. */
  function RayAt(origin: Vec3, dir: Vec3, t: real): Vec3 {
    Add(origin, Scale(t, dir))
  }

  /** Unit length and mutually orthogonal: the columns of a rotation. */
  predicate Orthonormal(u0: Vec3, u1: Vec3, u2: Vec3) {
    && Dot(u0, u0) == 1.0 && Dot(u1, u1) == 1.0 && Dot(u2, u2) == 1.0
    && Dot(u0, u1) == 0.0 && Dot(u0, u2) == 0.0 && Dot(u1, u2) == 0.0
  }

  // --------------------------------------------------------------- matrices

  function Identity(): Mat3 {
    Mat3(Vec3(1.0, 0.0, 0.0), Vec3(0.0, 1.0, 0.0), Vec3(0.0, 0.0, 1.0))
  }

  function Col0(m: Mat3): Vec3 {
    Vec3(m.r0.x, m.r1.x, m.r2.x)
  }

  function Col1(m: Mat3): Vec3 {
    Vec3(m.r0.y, m.r1.y, m.r2.y)
  }

  function Col2(m: Mat3): Vec3 {
    Vec3(m.r0.z, m.r1.z, m.r2.z)
  }

  function Transpose(m: Mat3): Mat3 {
    Mat3(Col0(m), Col1(m), Col2(m))
  }

  /** The matrix whose columns are `c0`, `c1`, `c2` (NumPy's
      `np.concatenate((c0, c1, c2), axis=1)` on 3x1 columns). */
  function FromColumns(c0: Vec3, c1: Vec3, c2: Vec3): Mat3 {
    Transpose(Mat3(c0, c1, c2))
  }

  /** Matrix-vector product `m @ v`. */
  function Apply(m: Mat3, v: Vec3): Vec3 {
    Vec3(Dot(m.r0, v), Dot(m.r1, v), Dot(m.r2, v))
  }

  /** Matrix product `a @ b`. */
  function Mul(a: Mat3, b: Mat3): Mat3 {
    var bt := Transpose(b);
    Mat3(Apply(bt, a.r0), Apply(bt, a.r1), Apply(bt, a.r2))
  }

  /** `m` is a rotation or reflection: its transpose is its inverse on both sides. */
  predicate IsOrthogonal(m: Mat3) {
    Mul(Transpose(m), m) == Identity() && Mul(m, Transpose(m)) == Identity()
  }

  // ------------------------------------------------------- homogeneous 4-D

  function Dot4(a: Vec4, b: Vec4): real {
    a.x * b.x + a.y * b.y + a.z * b.z + a.w * b.w
  }

  function Apply4(m: Mat4, v: Vec4): Vec4 {
    Vec4(Dot4(m.r0, v), Dot4(m.r1, v), Dot4(m.r2, v), Dot4(m.r3, v))
  }

  /** A point in homogeneous coordinates, `np.vstack((p, [1]))`. */
  function Point4(p: Vec3): Vec4 {
    Vec4(p.x, p.y, p.z, 1.0)
  }

  // ----------------------------------------------------------------- lemmas

  lemma TransposeTwice(m: Mat3)
    ensures Transpose(Transpose(m)) == m
  {
  }

  lemma ColumnsOfFromColumns(c0: Vec3, c1: Vec3, c2: Vec3)
    ensures Col0(FromColumns(c0, c1, c2)) == c0
    ensures Col1(FromColumns(c0, c1, c2)) == c1
    ensures Col2(FromColumns(c0, c1, c2)) == c2
  {
  }

  lemma MulIdentity(m: Mat3)
    ensures Mul(Identity(), m) == m && Mul(m, Identity()) == m
  {
  }

  lemma ApplyIdentity(v: Vec3)
    ensures Apply(Identity(), v) == v
  {
  }

  /** `(a b)ᵀ = bᵀ aᵀ`. */
  lemma TransposeOfMul(a: Mat3, b: Mat3)
    ensures Transpose(Mul(a, b)) == Mul(Transpose(b), Transpose(a))
  {
  }

  /** Matrix product is associative. */
  lemma MulAssoc(a: Mat3, b: Mat3, c: Mat3)
    ensures Mul(Mul(a, b), c) == Mul(a, Mul(b, c))
  {
    // Row i of either side is cᵀ (bᵀ aᵢ).
    TransposeOfMul(b, c);
    ApplyMul(Transpose(c), Transpose(b), a.r0);
    ApplyMul(Transpose(c), Transpose(b), a.r1);
    ApplyMul(Transpose(c), Transpose(b), a.r2);
  }

  /** Applying a product applies its factors right to left. */
  lemma ApplyMul(a: Mat3, b: Mat3, v: Vec3)
    ensures Apply(Mul(a, b), v) == Apply(a, Apply(b, v))
  {
  }

  lemma ApplyAdd(m: Mat3, u: Vec3, v: Vec3)
    ensures Apply(m, Add(u, v)) == Add(Apply(m, u), Apply(m, v))
  {
  }

  lemma ApplySub(m: Mat3, u: Vec3, v: Vec3)
    ensures Apply(m, Sub(u, v)) == Sub(Apply(m, u), Apply(m, v))
  {
  }

  lemma ApplyScale(m: Mat3, k: real, u: Vec3)
    ensures Apply(m, Scale(k, u)) == Scale(k, Apply(m, u))
  {
  }

  lemma ApplyNeg(m: Mat3, u: Vec3)
    ensures Apply(m, Neg(u)) == Neg(Apply(m, u))
  {
  }

  /** Orthonormal rows make the transpose a right inverse. */
  lemma OrthonormalRows(m: Mat3)
    requires Orthonormal(m.r0, m.r1, m.r2)
    ensures Mul(m, Transpose(m)) == Identity()
  {
    TransposeTwice(m);
  }

  /** Orthonormal columns make the transpose a left inverse. */
  lemma OrthonormalColumns(m: Mat3)
    requires Orthonormal(Col0(m), Col1(m), Col2(m))
    ensures Mul(Transpose(m), m) == Identity()
  {
    TransposeTwice(m);
    OrthonormalRows(Transpose(m));
  }

  /** Products of orthogonal matrices are orthogonal. */
  lemma OrthogonalMul(a: Mat3, b: Mat3)
    requires IsOrthogonal(a) && IsOrthogonal(b)
    ensures IsOrthogonal(Mul(a, b))
  {
    var ab := Mul(a, b);
    TransposeOfMul(a, b);
    calc {
      Mul(Transpose(ab), ab);
      Mul(Mul(Transpose(b), Transpose(a)), Mul(a, b));
      { MulAssoc(Transpose(b), Transpose(a), Mul(a, b));
        MulAssoc(Transpose(a), a, b); }
      Mul(Transpose(b), Mul(Mul(Transpose(a), a), b));
      { MulIdentity(b); }
      Mul(Transpose(b), b);
    }
    calc {
      Mul(ab, Transpose(ab));
      Mul(Mul(a, b), Mul(Transpose(b), Transpose(a)));
      { MulAssoc(a, b, Mul(Transpose(b), Transpose(a)));
        MulAssoc(b, Transpose(b), Transpose(a)); }
      Mul(a, Mul(Mul(b, Transpose(b)), Transpose(a)));
      { MulIdentity(Transpose(a)); }
      Mul(a, Transpose(a));
    }
  }

  lemma OrthogonalTriple(a: Mat3, b: Mat3, c: Mat3)
    requires IsOrthogonal(a) && IsOrthogonal(b) && IsOrthogonal(c)
    ensures IsOrthogonal(Mul(Mul(a, b), c))
  {
    OrthogonalMul(a, b);
    OrthogonalMul(Mul(a, b), c);
  }

  /** A matrix equal to the transpose of an orthogonal matrix inverts it. */
  lemma TransposeInverts(m: Mat3, mt: Mat3)
    requires IsOrthogonal(m) && mt == Transpose(m)
    ensures Mul(mt, m) == Identity() && Mul(m, mt) == Identity()
  {
  }

  /** The transpose of an orthogonal matrix is orthogonal. */
  lemma OrthogonalTranspose(m: Mat3)
    requires IsOrthogonal(m)
    ensures IsOrthogonal(Transpose(m))
  {
    TransposeTwice(m);
  }

  /** Lagrange's identity in three dimensions. */
  lemma CrossNormSquared(a: Vec3, b: Vec3)
    ensures Dot(Cross(a, b), Cross(a, b)) == Dot(a, a) * Dot(b, b) - Dot(a, b) * Dot(a, b)
  {
  }

  /** The cross product is orthogonal to both factors. */
  lemma CrossOrthogonal(a: Vec3, b: Vec3)
    ensures Dot(a, Cross(a, b)) == 0.0 && Dot(b, Cross(a, b)) == 0.0
  {
  }

  /** Completing two orthonormal vectors with their cross product yields an
      orthonormal triple. */
  lemma CrossCompletesOrthonormal(u0: Vec3, u1: Vec3)
    requires Dot(u0, u0) == 1.0 && Dot(u1, u1) == 1.0 && Dot(u0, u1) == 0.0
    ensures Orthonormal(u0, u1, Cross(u0, u1))
  {
    CrossNormSquared(u0, u1);
    CrossOrthogonal(u0, u1);
  }

  /** A matrix with orthonormal columns sends each column back to a basis
      vector under its transpose. */
  lemma TransposeRecoversBasis(u0: Vec3, u1: Vec3, u2: Vec3)
    requires Orthonormal(u0, u1, u2)
    ensures Apply(Transpose(FromColumns(u0, u1, u2)), u0) == Vec3(1.0, 0.0, 0.0)
    ensures Apply(Transpose(FromColumns(u0, u1, u2)), u1) == Vec3(0.0, 1.0, 0.0)
    ensures Apply(Transpose(FromColumns(u0, u1, u2)), u2) == Vec3(0.0, 0.0, 1.0)
  {
    TransposeTwice(Mat3(u0, u1, u2));
  }

  /** Scaling one factor scales the dot product. */
  lemma DotScale(a: Vec3, k: real, b: Vec3)
    ensures Dot(a, Scale(k, b)) == k * Dot(a, b)
  {
  }
}
