/** Small facts of field arithmetic over `real`, stated one per lemma so
    that each proof obligation carries a single nonlinear step. */
module RealArith {

  lemma DivMulCancel(x: real, z: real)
    requires z != 0.0
    ensures (x / z) * z == x
  {
  }

  lemma CancelFactor(x: real, y: real, z: real)
    requires z != 0.0 && x * z == y * z
    ensures x == y
  {
  }

  lemma DivDiv(x: real, w: real, z: real)
    requires w != 0.0 && z != 0.0
    ensures (x / w) / z == x / (w * z)
  {
  }

  /** `(x - z) / z == x / z - 1` */
  lemma SubDiv(x: real, z: real)
    requires z != 0.0
    ensures (x - z) / z == x / z - 1.0
  {
    DivMulCancel(x - z, z);
    DivMulCancel(x, z);
    assert (x / z - 1.0) * z == x - z;
    CancelFactor((x - z) / z, x / z - 1.0, z);
  }

  /** Dividing by `w` and by `z` commute. */
  lemma DivSwap(a: real, z: real, w: real)
    requires z != 0.0 && w != 0.0
    ensures (2.0 * a / w) / z == 2.0 * (a / z) / w
  {
    DivDiv(2.0 * a, w, z);
    DivDiv(2.0 * a, z, w);
    assert 2.0 * (a / z) == (2.0 * a) / z;
  }

  /** Perspective division of a clip coordinate `2 a / w - z` by `z`. */
  lemma NdcFromClip(a: real, z: real, w: real)
    requires z != 0.0 && w != 0.0
    ensures (2.0 * a / w - z) / z == 2.0 * (a / z) / w - 1.0
  {
    SubDiv(2.0 * a / w, z);
    DivSwap(a, z, w);
  }

  /** Perspective division of a flipped clip coordinate `-(2 a / h - z)`. */
  lemma NdcOfNegatedClip(y: real, a: real, z: real, h: real)
    requires z != 0.0 && h != 0.0 && y == -(2.0 * a / h - z)
    ensures y / z == 1.0 - 2.0 * (a / z) / h
  {
    NegDiv(2.0 * a / h - z, z);
    NdcFromClip(a, z, h);
  }

  /** Perspective division of a clip coordinate `2 a / w - z`. */
  lemma NdcOfClip(x: real, a: real, z: real, w: real)
    requires z != 0.0 && w != 0.0 && x == 2.0 * a / w - z
    ensures x / z == 2.0 * (a / z) / w - 1.0
  {
    NdcFromClip(a, z, w);
  }

  /** Moving the offset from `c` to `h - c` shifts the quotient by `h - 2 c`. */
  lemma ShiftNumerator(f: real, c: real, h: real, y: real, z: real)
    requires z != 0.0
    ensures (f * y + (h - c) * z) / z == (f * y + c * z) / z + h - 2.0 * c
  {
    assert f * y + (h - c) * z == (f * y + c * z) + (h - 2.0 * c) * z;
    AddMultipleDiv(f * y + c * z, h - 2.0 * c, z);
  }

  /** Scaling numerator and denominator alike: `(a / (k z)) (k x) == (a / z) x`. */
  lemma ScaledQuotient(a: real, z: real, k: real, x: real)
    requires z != 0.0 && k != 0.0
    ensures (a / (k * z)) * (k * x) == (a / z) * x
  {
    DivMulCancel(a, z);
    assert k * z != 0.0;
    DivMulCancel(a, k * z);
    assert (a / (k * z)) * k * z == (a / z) * z;
    CancelFactor((a / (k * z)) * k, a / z, z);
  }

  lemma MulDivComm(x: real, w: real, s: real)
    requires w != 0.0
    ensures (x / w) * s == (x * s) / w
  {
  }

  lemma AddDiv(x: real, y: real, w: real)
    requires w != 0.0
    ensures x / w + y / w == (x + y) / w
  {
  }

  lemma NegDiv(x: real, z: real)
    requires z != 0.0
    ensures (-x) / z == -(x / z)
  {
  }

  /** `(a + k z) / z == a / z + k` */
  lemma AddMultipleDiv(a: real, k: real, z: real)
    requires z != 0.0
    ensures (a + k * z) / z == a / z + k
  {
    DivMulCancel(a, z);
    assert (a / z + k) * z == a + k * z;
    DivMulCancel(a + k * z, z);
    CancelFactor((a + k * z) / z, a / z + k, z);
  }

  /** A row `(2 f / w) s + (2 c / w - 1) z` of an OpenGL perspective matrix
      gathered over the common denominator. */
  lemma ClipCoordinate(f: real, c: real, w: real, s: real, z: real)
    requires w != 0.0
    ensures (2.0 * f / w) * s + (2.0 * c / w - 1.0) * z == 2.0 * (f * s + c * z) / w - z
  {
    MulDivComm(2.0 * f, w, s);
    MulDivComm(2.0 * c, w, z);
    AddDiv(2.0 * f * s, 2.0 * c * z, w);
    assert 2.0 * f * s + 2.0 * c * z == 2.0 * (f * s + c * z);
  }

  /** The same row with the offset `1 - 2 c / h`, which is that of the
      principal point `h - c`. */
  lemma ClipCoordinateFlipped(f: real, c: real, h: real, s: real, z: real)
    requires h != 0.0
    ensures (2.0 * f / h) * s + (1.0 - 2.0 * c / h) * z == 2.0 * (f * s + (h - c) * z) / h - z
  {
    OffsetFlip(c, h);
    ClipCoordinate(f, h - c, h, s, z);
  }

  /** `1 - 2 c / h == 2 (h - c) / h - 1` */
  lemma OffsetFlip(c: real, h: real)
    requires h != 0.0
    ensures 1.0 - 2.0 * c / h == 2.0 * (h - c) / h - 1.0
  {
    AddDiv(2.0 * h, -2.0 * c, h);
    assert (2.0 * h) / h == 2.0;
    assert -2.0 * c / h == -(2.0 * c / h);
  }

  lemma MulNonneg(a: real, b: real)
    requires a >= 0.0 && b >= 0.0
    ensures a * b >= 0.0
  {
  }

  /** `g (1 - d) (1 - (k - 1) d) == g (1 - k d) + g (k - 1) d d` */
  lemma GeometricStep(g: real, d: real, k: real)
    ensures g * (1.0 - d) * (1.0 - (k - 1.0) * d) == g * (1.0 - k * d) + g * ((k - 1.0) * d * d)
  {
  }

  /** `(1 / n) ((1 / n) (n n)) == 1` */
  lemma InverseSquare(n: real)
    requires n != 0.0
    ensures (1.0 / n) * ((1.0 / n) * (n * n)) == 1.0
  {
    DivMulCancel(1.0, n);
  }
}
