/** Fixed-shape real linear algebra used by the registration chain: 3- and
    4-vectors, 3x3, 3x4 and 4x4 matrices stored by rows. Every product the
    calibration program forms has inner dimension 3 or 4, so no general
    dense-matrix type is needed. */
module Linear {

  datatype Vec3 = Vec3(x: real, y: real, z: real)
  datatype Vec4 = Vec4(x: real, y: real, z: real, w: real)

  /** A 3x3 matrix by rows (camera matrices, rotations). */
  datatype Mat3 = Mat3(r0: Vec3, r1: Vec3, r2: Vec3)
  /** A 3x4 matrix by rows (the projection P and the composed operator D). */
  datatype Mat3x4 = Mat3x4(r0: Vec4, r1: Vec4, r2: Vec4)
  /** A 4x4 matrix by rows (Q and S). */
  datatype Mat4x4 = Mat4x4(r0: Vec4, r1: Vec4, r2: Vec4, r3: Vec4)

  function Dot3(a: Vec3, b: Vec3): real
  {
    a.x * b.x + a.y * b.y + a.z * b.z
  }

  function Dot4(a: Vec4, b: Vec4): real
  {
    a.x * b.x + a.y * b.y + a.z * b.z + a.w * b.w
  }

  function Add3(a: Vec3, b: Vec3): Vec3
  {
    Vec3(a.x + b.x, a.y + b.y, a.z + b.z)
  }

  function Scale3(s: real, a: Vec3): Vec3
  {
    Vec3(s * a.x, s * a.y, s * a.z)
  }

  function Apply3(m: Mat3, p: Vec3): Vec3
  {
    Vec3(Dot3(m.r0, p), Dot3(m.r1, p), Dot3(m.r2, p))
  }

  function Apply3x4(m: Mat3x4, p: Vec4): Vec3
  {
    Vec3(Dot4(m.r0, p), Dot4(m.r1, p), Dot4(m.r2, p))
  }

  function Apply4x4(m: Mat4x4, p: Vec4): Vec4
  {
    Vec4(Dot4(m.r0, p), Dot4(m.r1, p), Dot4(m.r2, p), Dot4(m.r3, p))
  }

  function Add4(a: Vec4, b: Vec4): Vec4
  {
    Vec4(a.x + b.x, a.y + b.y, a.z + b.z, a.w + b.w)
  }

  function Scale4(s: real, a: Vec4): Vec4
  {
    Vec4(s * a.x, s * a.y, s * a.z, s * a.w)
  }

  /** The row vector r times the matrix m: the rows of m weighted by the
      entries of r. */
  function RowTimes(r: Vec4, m: Mat4x4): Vec4
  {
    Add4(Add4(Scale4(r.x, m.r0), Scale4(r.y, m.r1)), Add4(Scale4(r.z, m.r2), Scale4(r.w, m.r3)))
  }

  function Mul34x44(a: Mat3x4, b: Mat4x4): Mat3x4
  {
    Mat3x4(RowTimes(a.r0, b), RowTimes(a.r1, b), RowTimes(a.r2, b))
  }

  lemma DotAdd(a: Vec4, b: Vec4, p: Vec4)
    ensures Dot4(Add4(a, b), p) == Dot4(a, p) + Dot4(b, p)
  {
  }

  lemma DotScale(s: real, a: Vec4, p: Vec4)
    ensures Dot4(Scale4(s, a), p) == s * Dot4(a, p)
  {
  }

  /** (r m) p = r (m p): the step that makes a matrix product act as the
      composition of the two maps. */
  lemma RowTimesApply(r: Vec4, m: Mat4x4, p: Vec4)
    ensures Dot4(RowTimes(r, m), p) == Dot4(r, Apply4x4(m, p))
  {
    var a, b, c, d := Scale4(r.x, m.r0), Scale4(r.y, m.r1), Scale4(r.z, m.r2), Scale4(r.w, m.r3);
    DotAdd(Add4(a, b), Add4(c, d), p);
    DotAdd(a, b, p);
    DotAdd(c, d, p);
    DotScale(r.x, m.r0, p);
    DotScale(r.y, m.r1, p);
    DotScale(r.z, m.r2, p);
    DotScale(r.w, m.r3, p);
  }

  /** A 3x4-by-4x4 product applied to a vector is the composition of the two
      matrices' actions. */
  lemma MulApply(a: Mat3x4, b: Mat4x4, p: Vec4)
    ensures Apply3x4(Mul34x44(a, b), p) == Apply3x4(a, Apply4x4(b, p))
  {
    RowTimesApply(a.r0, b, p);
    RowTimesApply(a.r1, b, p);
    RowTimesApply(a.r2, b, p);
  }

  lemma DotScaleRight(s: real, a: Vec4, p: Vec4)
    ensures Dot4(a, Scale4(s, p)) == s * Dot4(a, p)
  {
  }

  /** Matrices act linearly: a scaled vector has a scaled image. */
  lemma Apply4x4Scale(m: Mat4x4, s: real, p: Vec4)
    ensures Apply4x4(m, Scale4(s, p)) == Scale4(s, Apply4x4(m, p))
  {
    DotScaleRight(s, m.r0, p);
    DotScaleRight(s, m.r1, p);
    DotScaleRight(s, m.r2, p);
    DotScaleRight(s, m.r3, p);
  }

  lemma Apply3x4Scale(m: Mat3x4, s: real, p: Vec4)
    ensures Apply3x4(m, Scale4(s, p)) == Scale3(s, Apply3x4(m, p))
  {
    DotScaleRight(s, m.r0, p);
    DotScaleRight(s, m.r1, p);
    DotScaleRight(s, m.r2, p);
  }

  /** A nonzero factor cancels from both sides of an equation. */
  lemma CancelFactor(x: real, y: real, d: real)
    requires d != 0.0 && x * d == y * d
    ensures x == y
  {
    assert (x - y) * d == 0.0;
  }
}
