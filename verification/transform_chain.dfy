/** The registration operator of calibrate.cpp: Q takes a depth pixel
    (j, i, d, 1) to homogeneous depth-camera coordinates, S moves them into
    the RGB camera's frame, P projects them onto the RGB image, and
    D = P * S * Q does all three at once. Every entry is an exact real. */
module TransformChain {
  import opened Outcome
  import opened Linear
  import Disparity

  /** A pixel position (column u, row v) in an image. */
  datatype Cell = Cell(u: int, v: int)

  /** Principal point and focal length as the program reads them from a
      row-major camera matrix: cx = K[2], cy = K[5], fx = K[0], fy = K[4]. */
  function Cx(k: Mat3): real { k.r0.z }
  function Cy(k: Mat3): real { k.r1.z }
  function Fx(k: Mat3): real { k.r0.x }
  function Fy(k: Mat3): real { k.r1.y }

  /** Q: from (u, v, disparity, 1) of the depth camera to homogeneous XYZ.
      The last row holds 1/b, so the baseline must be nonzero. */
  function BuildQ(k: Mat3, b: real): Mat4x4
    requires b != 0.0
  {
    Mat4x4(Vec4(1.0, 0.0, 0.0, -Cx(k)),
           Vec4(0.0, 1.0, 0.0, -Cy(k)),
           Vec4(0.0, 0.0, 0.0, Fx(k)),
           Vec4(0.0, 0.0, 1.0 / b, 0.0))
  }

  /** Q p = (x - cx w, y - cy w, fx w, z / b); on a depth pixel (j, i, d, 1)
      this is (j - cx, i - cy, fx, d / b). */
  lemma QAction(k: Mat3, b: real, p: Vec4)
    requires b != 0.0
    ensures Apply4x4(BuildQ(k, b), p) ==
      Vec4(p.x - Cx(k) * p.w, p.y - Cy(k) * p.w, Fx(k) * p.w, p.z / b)
  {
    assert (1.0 / b) * p.z == p.z / b;
  }

  lemma QuotientOfQuotient(f: real, b: real, d: real)
    requires b != 0.0 && d != 0.0
    ensures f / (d / b) == f * b / d
  {
    var w := d / b;
    assert w * b == d;
    assert w != 0.0;
    var z := f / w;
    assert z * w == f;
    assert (f * b / d) * d == f * b;
    assert z * d == z * w * b == f * b;
    CancelFactor(z, f * b / d, d);
  }

  lemma RatioOfQuotients(x: real, f: real, w: real)
    requires f != 0.0 && w != 0.0
    ensures f / w != 0.0
    ensures f * ((x / w) / (f / w)) == x
  {
    var a, c := x / w, f / w;
    assert a * w == x;
    assert c * w == f;
    assert c != 0.0;
    var r := a / c;
    assert r * c == a;
    assert f * r == (c * w) * r == (r * c) * w == a * w;
  }

  /** Q inverts the pinhole model: for a nonzero disparity, the Euclidean
      point Q p / w lies at depth Z = fx * b / d and projects back through
      (fx, cx, cy) onto the pixel it came from when the aspect ratio is 1. */
  lemma QBackProjects(k: Mat3, b: real, j: real, i: real, d: real)
    requires b != 0.0 && d != 0.0 && Fx(k) != 0.0
    ensures var h := Apply4x4(BuildQ(k, b), Vec4(j, i, d, 1.0));
            && h.w != 0.0
            && h.z / h.w == Fx(k) * b / d
            && Fx(k) * ((h.x / h.w) / (h.z / h.w)) + Cx(k) == j
            && Fx(k) * ((h.y / h.w) / (h.z / h.w)) + Cy(k) == i
  {
    var h := Apply4x4(BuildQ(k, b), Vec4(j, i, d, 1.0));
    QAction(k, b, Vec4(j, i, d, 1.0));
    assert h == Vec4(j - Cx(k), i - Cy(k), Fx(k), d / b);
    assert (d / b) * b == d;
    QuotientOfQuotient(Fx(k), b, d);
    RatioOfQuotients(j - Cx(k), Fx(k), d / b);
    RatioOfQuotients(i - Cy(k), Fx(k), d / b);
  }

  /** S: the rigid motion [R | T] from the depth camera to the RGB camera,
      with last row (0, 0, 0, 1). */
  function BuildS(rot: Mat3, t: Vec3): Mat4x4
  {
    Mat4x4(Vec4(rot.r0.x, rot.r0.y, rot.r0.z, t.x),
           Vec4(rot.r1.x, rot.r1.y, rot.r1.z, t.y),
           Vec4(rot.r2.x, rot.r2.y, rot.r2.z, t.z),
           Vec4(0.0, 0.0, 0.0, 1.0))
  }

  /** S keeps the homogeneous coordinate and moves the point part by
      R xyz + w T. */
  lemma SAction(rot: Mat3, t: Vec3, p: Vec4)
    ensures Apply4x4(BuildS(rot, t), p).w == p.w
    ensures var r := Apply4x4(BuildS(rot, t), p);
      Vec3(r.x, r.y, r.z) == Add3(Apply3(rot, Vec3(p.x, p.y, p.z)), Scale3(p.w, t))
  {
    assert t.x * p.w == p.w * t.x && t.y * p.w == p.w * t.y && t.z * p.w == p.w * t.z;
  }

  /** P: the RGB camera's projection. Only fx, fy, cx and cy of the camera
      matrix are read; skew and the last row are taken as 0, 0, 1. */
  function BuildP(k: Mat3): Mat3x4
  {
    Mat3x4(Vec4(Fx(k), 0.0, Cx(k), 0.0),
           Vec4(0.0, Fy(k), Cy(k), 0.0),
           Vec4(0.0, 0.0, 1.0, 0.0))
  }

  /** P p = (fx x + cx z, fy y + cy z, z): the homogeneous coordinate is
      ignored. */
  lemma PAction(k: Mat3, p: Vec4)
    ensures Apply3x4(BuildP(k), p) ==
      Vec3(Fx(k) * p.x + Cx(k) * p.z, Fy(k) * p.y + Cy(k) * p.z, p.z)
    ensures Apply3x4(BuildP(k), p) == Apply3x4(BuildP(k), Vec4(p.x, p.y, p.z, 0.0))
  {
  }

  /** D = P * S * Q, with the products formed left to right as written. */
  function Registration(kDepth: Mat3, b: real, rot: Mat3, t: Vec3, kRgb: Mat3): Mat3x4
    requires b != 0.0
  {
    Mul34x44(Mul34x44(BuildP(kRgb), BuildS(rot, t)), BuildQ(kDepth, b))
  }

  /** Applying D is applying Q, then S, then P. */
  lemma RegistrationApplies(kDepth: Mat3, b: real, rot: Mat3, t: Vec3, kRgb: Mat3, p: Vec4)
    requires b != 0.0
    ensures Apply3x4(Registration(kDepth, b, rot, t, kRgb), p) ==
      Apply3x4(BuildP(kRgb), Apply4x4(BuildS(rot, t), Apply4x4(BuildQ(kDepth, b), p)))
  {
    var pm, s, q := BuildP(kRgb), BuildS(rot, t), BuildQ(kDepth, b);
    MulApply(Mul34x44(pm, s), q, p);
    MulApply(pm, s, Apply4x4(q, p));
  }

  /** The RGB cell a depth pixel lands on: q = D (j, i, d, 1), then
      ((int)(q0/q2 + 0.5), (int)(q1/q2 + 0.5)). A point with q2 = 0 has no
      defined cell. */
  function ProjectPixel(d: Mat3x4, j: int, i: int, disp: real): (r: Option<Cell>)
    ensures r.None? <==> Apply3x4(d, Vec4(j as real, i as real, disp, 1.0)).z == 0.0
  {
    var q := Apply3x4(d, Vec4(j as real, i as real, disp, 1.0));
    if q.z == 0.0 then None
    else Some(Cell(Disparity.RoundHalf(q.x / q.z), Disparity.RoundHalf(q.y / q.z)))
  }

  lemma ProjectPixelAt(d: Mat3x4, j: int, i: int, disp: real, q: Vec3)
    requires q == Apply3x4(d, Vec4(j as real, i as real, disp, 1.0)) && q.z != 0.0
    ensures ProjectPixel(d, j, i, disp) ==
      Some(Cell(Disparity.RoundHalf(q.x / q.z), Disparity.RoundHalf(q.y / q.z)))
  {
  }

  lemma ScaledRatio(a: real, f: real, x: real)
    requires f != 0.0 && a == f * x
    ensures a / f == x
  {
  }

  lemma RoundHalfOfNat(n: nat)
    ensures Disparity.RoundHalf(n as real) == n
  {
    assert (n as real + 0.5).Floor == n;
  }

  const IdentityRot := Mat3(Vec3(1.0, 0.0, 0.0), Vec3(0.0, 1.0, 0.0), Vec3(0.0, 0.0, 1.0))
  const ZeroT := Vec3(0.0, 0.0, 0.0)

  /** With no rotation or translation between the cameras and the same
      square-pixel camera matrix on both sides, P (S (Q (j, i, d, 1))) is
      fx (j, i, 1) whatever the disparity. */
  lemma IdentityStages(k: Mat3, b: real, j: real, i: real, disp: real)
    requires b != 0.0 && Fy(k) == Fx(k)
    ensures Apply3x4(BuildP(k), Apply4x4(BuildS(IdentityRot, ZeroT), Apply4x4(BuildQ(k, b), Vec4(j, i, disp, 1.0)))) ==
      Vec3(Fx(k) * j, Fx(k) * i, Fx(k))
  {
    var p := Vec4(j, i, disp, 1.0);
    var h := Apply4x4(BuildQ(k, b), p);
    QAction(k, b, p);
    var g := Apply4x4(BuildS(IdentityRot, ZeroT), h);
    SAction(IdentityRot, ZeroT, h);
    assert g.x == j - Cx(k) && g.y == i - Cy(k) && g.z == Fx(k);
    PAction(k, g);
    Recentre(Fx(k), Cx(k), j, g.x);
    Recentre(Fx(k), Cy(k), i, g.y);
  }

  /** The same for the composed matrix D. */
  lemma IdentityChain(k: Mat3, b: real, j: real, i: real, disp: real)
    requires b != 0.0 && Fy(k) == Fx(k)
    ensures Apply3x4(Registration(k, b, IdentityRot, ZeroT, k), Vec4(j, i, disp, 1.0)) ==
      Vec3(Fx(k) * j, Fx(k) * i, Fx(k))
  {
    IdentityStages(k, b, j, i, disp);
    RegistrationApplies(k, b, IdentityRot, ZeroT, k, Vec4(j, i, disp, 1.0));
  }

  lemma Recentre(f: real, c: real, x: real, y: real)
    requires y == x - c
    ensures f * y + c * f == f * x
  {
  }

  /** A pixel whose image under D is a nonzero multiple of (j, i, 1) lands
      on cell (j, i). */
  lemma ProjectScaledPixel(d: Mat3x4, j: nat, i: nat, disp: real, f: real)
    requires f != 0.0
    requires Apply3x4(d, Vec4(j as real, i as real, disp, 1.0)) == Vec3(f * j as real, f * i as real, f)
    ensures ProjectPixel(d, j, i, disp) == Some(Cell(j, i))
  {
    var q := Apply3x4(d, Vec4(j as real, i as real, disp, 1.0));
    ScaledRatio(q.x, q.z, j as real);
    ScaledRatio(q.y, q.z, i as real);
    RoundHalfOfNat(j);
    RoundHalfOfNat(i);
    ProjectPixelAt(d, j, i, disp, q);
  }

  /** Q sends the depth pixel and disparity at which X = (x, y, z) is seen
      to the homogeneous point (x, y, z, 1) scaled by fx / z. */
  lemma QOfPinholePixel(k: Mat3, b: real, x: real, y: real, z: real, j: real, i: real, d: real)
    requires b != 0.0 && z != 0.0
    requires j == Fx(k) * x / z + Cx(k) && i == Fx(k) * y / z + Cy(k) && d == Fx(k) * b / z
    ensures Apply4x4(BuildQ(k, b), Vec4(j, i, d, 1.0)) == Scale4(Fx(k) / z, Vec4(x, y, z, 1.0))
  {
    var f := Fx(k);
    QAction(k, b, Vec4(j, i, d, 1.0));
    assert (f / z) * x == f * x / z;
    assert (f / z) * y == f * y / z;
    assert (f / z) * z == f;
    assert d / b == f / z by {
      assert d * z == f * b;
      CancelFactor(d / b * z, f, b);
    }
  }

  /** The registration operator does what it is built for. Let a point X =
      (x, y, z) in the depth camera's frame, with z != 0, be seen at depth
      pixel (j, i) = (fx x / z + cx, fx y / z + cy) with disparity
      d = fx b / z. Then D (j, i, d, 1) is a nonzero multiple of P applied to
      the point R X + T of the RGB camera's frame. */
  lemma RegistrationOfPoint(kDepth: Mat3, b: real, rot: Mat3, t: Vec3, kRgb: Mat3,
                            x: real, y: real, z: real, j: real, i: real, d: real)
    requires b != 0.0 && z != 0.0 && Fx(kDepth) != 0.0
    requires j == Fx(kDepth) * x / z + Cx(kDepth) && i == Fx(kDepth) * y / z + Cy(kDepth)
    requires d == Fx(kDepth) * b / z
    ensures Fx(kDepth) / z != 0.0
    ensures var y3 := Add3(Apply3(rot, Vec3(x, y, z)), t);
      Apply3x4(Registration(kDepth, b, rot, t, kRgb), Vec4(j, i, d, 1.0)) ==
        Scale3(Fx(kDepth) / z, Apply3x4(BuildP(kRgb), Vec4(y3.x, y3.y, y3.z, 1.0)))
  {
    var c := Fx(kDepth) / z;
    assert c * z == Fx(kDepth);
    var p := Vec4(x, y, z, 1.0);
    var s := BuildS(rot, t);
    QOfPinholePixel(kDepth, b, x, y, z, j, i, d);
    Apply4x4Scale(s, c, p);
    SAction(rot, t, p);
    var y3 := Add3(Apply3(rot, Vec3(x, y, z)), t);
    assert Scale3(1.0, t) == t;
    assert Apply4x4(s, p) == Vec4(y3.x, y3.y, y3.z, 1.0);
    Apply3x4Scale(BuildP(kRgb), c, Apply4x4(s, p));
    RegistrationApplies(kDepth, b, rot, t, kRgb, Vec4(j, i, d, 1.0));
  }

  lemma CancelRatio(c: real, a: real, w: real)
    requires c != 0.0 && w != 0.0
    ensures (c * a) / (c * w) == a / w
  {
    var q := a / w;
    assert q * w == a;
    assert q * (c * w) == c * a;
  }

  lemma PinholeRatio(f: real, o: real, u: real, w: real)
    requires w != 0.0
    ensures (f * u + o * w) / w == f * u / w + o
  {
    var q := f * u / w + o;
    assert q * w == f * u + o * w;
  }

  /** A nonzero multiple of v has the same perspective division as v. */
  lemma RatioOfScaled(q: Vec3, c: real, v: Vec3)
    requires c != 0.0 && v.z != 0.0 && q == Scale3(c, v)
    ensures q.z != 0.0 && q.x / q.z == v.x / v.z && q.y / q.z == v.y / v.z
  {
    CancelRatio(c, v.x, v.z);
    CancelRatio(c, v.y, v.z);
  }

  /** A pixel whose image under D is a nonzero multiple of v lands on the
      rounded perspective division of v. */
  lemma ProjectScaled(dm: Mat3x4, j: int, i: int, disp: real, c: real, v: Vec3)
    requires c != 0.0 && v.z != 0.0
    requires Apply3x4(dm, Vec4(j as real, i as real, disp, 1.0)) == Scale3(c, v)
    ensures ProjectPixel(dm, j, i, disp) ==
      Some(Cell(Disparity.RoundHalf(v.x / v.z), Disparity.RoundHalf(v.y / v.z)))
  {
    var q := Apply3x4(dm, Vec4(j as real, i as real, disp, 1.0));
    RatioOfScaled(q, c, v);
    ProjectPixelAt(dm, j, i, disp, q);
  }

  /** The perspective division of P (y, 1) is the pinhole projection of y
      through the RGB camera's (fx, fy, cx, cy). */
  lemma PinholeDivision(k: Mat3, y3: Vec3)
    requires y3.z != 0.0
    ensures var v := Apply3x4(BuildP(k), Vec4(y3.x, y3.y, y3.z, 1.0));
      && v.z == y3.z
      && v.x / v.z == Fx(k) * y3.x / y3.z + Cx(k)
      && v.y / v.z == Fy(k) * y3.y / y3.z + Cy(k)
  {
    PAction(k, Vec4(y3.x, y3.y, y3.z, 1.0));
    PinholeRatio(Fx(k), Cx(k), y3.x, y3.z);
    PinholeRatio(Fy(k), Cy(k), y3.y, y3.z);
  }

  /** Hence the cell a depth pixel lands on is the rounded perspective
      division of P (R X + T, 1), which PinholeDivision spells out as the
      pinhole projection of R X + T through the RGB camera. */
  lemma ProjectPixelIsPinhole(kDepth: Mat3, b: real, rot: Mat3, t: Vec3, kRgb: Mat3,
                              x: real, y: real, z: real, j: int, i: int, d: real)
    requires b != 0.0 && z != 0.0 && Fx(kDepth) != 0.0
    requires j as real == Fx(kDepth) * x / z + Cx(kDepth) && i as real == Fx(kDepth) * y / z + Cy(kDepth)
    requires d == Fx(kDepth) * b / z
    requires Add3(Apply3(rot, Vec3(x, y, z)), t).z != 0.0
    ensures var y3 := Add3(Apply3(rot, Vec3(x, y, z)), t);
      var v := Apply3x4(BuildP(kRgb), Vec4(y3.x, y3.y, y3.z, 1.0));
      ProjectPixel(Registration(kDepth, b, rot, t, kRgb), j, i, d) ==
        Some(Cell(Disparity.RoundHalf(v.x / v.z), Disparity.RoundHalf(v.y / v.z)))
  {
    var y3 := Add3(Apply3(rot, Vec3(x, y, z)), t);
    RegistrationOfPoint(kDepth, b, rot, t, kRgb, x, y, z, j as real, i as real, d);
    PinholeDivision(kRgb, y3);
    ProjectScaled(Registration(kDepth, b, rot, t, kRgb), j, i, d, Fx(kDepth) / z,
                  Apply3x4(BuildP(kRgb), Vec4(y3.x, y3.y, y3.z, 1.0)));
  }
}
