/** Fitting the depth model raw = B - A / Z (calibrate.cpp, after the depth
    camera's monocular calibration). Each board corner of each depth frame
    gives one least-squares row (-1, Z) with right-hand side Z * raw; the
    rows are solved through the normal equations for (A, B), and the
    baseline follows from A.

    The per-frame poses come from the foreign monocular calibration and the
    raw reading under each corner from the depth image; both are inputs. */
module DepthModel {
  import opened Outcome
  import opened Linear
  import opened Correspondence
  import Disparity

  /** Pattern-to-camera rigid transform of one frame (rotation matrix from
      rvec, translation tvec). */
  datatype Pose = Pose(rot: Mat3, trans: Vec3)

  /** Z of the pattern point p in camera coordinates: the third row of
      [R | t] applied to p. */
  function CameraDepth(pose: Pose, p: Point3): (z: real)
    ensures z == Add3(Apply3(pose.rot, Vec3(p.x, p.y, p.z)), pose.trans).z
  {
    Dot3(pose.rot.r2, Vec3(p.x, p.y, p.z)) + pose.trans.z
  }

  /** One board corner seen in one depth frame: its true depth and the raw
      reading under it. */
  datatype Observation = Observation(frame: nat, corner: nat, z: real, reading: int)

  /** Frame-major, corner-minor order: the order in which the rows are pushed. */
  predicate Before(o1: Observation, o2: Observation)
  {
    o1.frame < o2.frame || (o1.frame == o2.frame && o1.corner < o2.corner)
  }

  function CornerTotal(points: seq<seq<Point2>>, n: nat): nat
    requires n <= |points|
  {
    if n == 0 then 0 else CornerTotal(points, n - 1) + |points[n - 1]|
  }

  /** The observations of the first nDepth depth frames. The loop over depth
      files reads pats[fnum], points[fnum] and the pose of frame fnum without
      a bounds check, so there must be no more depth frames than IR frames. */
  function Observations(nDepth: nat, pats: seq<seq<Point3>>, points: seq<seq<Point2>>,
                        poses: seq<Pose>, readings: seq<seq<int>>): (obs: seq<Observation>)
    requires nDepth <= |pats| && nDepth <= |points| && nDepth <= |poses| && nDepth <= |readings|
    requires forall f :: 0 <= f < nDepth ==> |readings[f]| == |points[f]| <= |pats[f]|
    ensures |obs| == CornerTotal(points, nDepth)
    ensures forall p :: 0 <= p < |obs| ==>
      var o := obs[p];
      && o.frame < nDepth && o.corner < |points[o.frame]|
      && o.z == CameraDepth(poses[o.frame], pats[o.frame][o.corner])
      && o.reading == readings[o.frame][o.corner]
    ensures forall p, q :: 0 <= p < q < |obs| ==> Before(obs[p], obs[q])
  {
    if nDepth == 0 then []
    else
      var f := nDepth - 1;
      var prefix := Observations(f, pats, points, poses, readings);
      var here := seq(|points[f]|, j requires 0 <= j < |points[f]| =>
                        Observation(f, j, CameraDepth(poses[f], pats[f][j]), readings[f][j]));
      prefix + here
  }

  /** One least-squares row: coefficients of the unknowns (A, B) and the
      right-hand side. */
  datatype LsRow = LsRow(a: real, b: real, rhs: real)

  /** The row (-1, Z) | Z * r pushed for an observation. */
  function RowOf(o: Observation): LsRow
  {
    LsRow(-1.0, o.z, o.z * o.reading as real)
  }

  function Rows(obs: seq<Observation>): (rows: seq<LsRow>)
    ensures |rows| == |obs|
    ensures forall p :: 0 <= p < |rows| ==> rows[p] == RowOf(obs[p])
  {
    seq(|obs|, p requires 0 <= p < |obs| => RowOf(obs[p]))
  }

  predicate Satisfies(row: LsRow, a: real, b: real)
  {
    row.a * a + row.b * b == row.rhs
  }

  /** An observation is exact for (A, B) when its reading is what the model
      predicts at its depth. */
  predicate Exact(o: Observation, a: real, b: real)
  {
    o.z != 0.0 && o.reading as real == b - a / o.z
  }

  /** Multiplying the model through by Z is what makes the rows linear: an
      exact observation gives a row that (A, B) satisfies. */
  lemma ExactRowSatisfied(o: Observation, a: real, b: real)
    requires Exact(o, a, b)
    ensures Satisfies(RowOf(o), a, b)
  {
    calc {
      o.z * o.reading as real;
      o.z * (b - a / o.z);
      o.z * b - o.z * (a / o.z);
      { assert o.z * (a / o.z) == a; }
      -1.0 * a + o.z * b;
    }
  }

  /** The sums that make up the normal equations [aa ab; ab bb] x = [aRhs; bRhs]. */
  datatype NormalSums = NormalSums(aa: real, ab: real, bb: real, aRhs: real, bRhs: real)

  /** The contribution of one more row to the normal equations. */
  function AddRow(s: NormalSums, r: LsRow): NormalSums
  {
    NormalSums(s.aa + r.a * r.a, s.ab + r.a * r.b, s.bb + r.b * r.b,
               s.aRhs + r.a * r.rhs, s.bRhs + r.b * r.rhs)
  }

  function Accumulate(rows: seq<LsRow>): NormalSums
  {
    if |rows| == 0 then NormalSums(0.0, 0.0, 0.0, 0.0, 0.0)
    else AddRow(Accumulate(rows[..|rows| - 1]), rows[|rows| - 1])
  }

  function Det(s: NormalSums): real
  {
    s.aa * s.bb - s.ab * s.ab
  }

  predicate SolvesNormal(s: NormalSums, a: real, b: real)
  {
    s.aa * a + s.ab * b == s.aRhs && s.ab * a + s.bb * b == s.bRhs
  }

  /** Cramer's rule for the symmetric system [p q; q r] (a, b) = (u, v). */
  lemma Cramer(p: real, q: real, r: real, u: real, v: real)
    requires p * r - q * q != 0.0
    ensures var d := p * r - q * q;
            var a := (u * r - q * v) / d;
            var b := (p * v - q * u) / d;
            p * a + q * b == u && q * a + r * b == v
  {
    var d := p * r - q * q;
    var a := (u * r - q * v) / d;
    var b := (p * v - q * u) / d;
    assert a * d == u * r - q * v;
    assert b * d == p * v - q * u;
    assert (p * a + q * b) * d == p * (a * d) + q * (b * d);
    assert p * (u * r - q * v) + q * (p * v - q * u) == u * d;
    CancelFactor(p * a + q * b, u, d);
    assert (q * a + r * b) * d == q * (a * d) + r * (b * d);
    assert q * (u * r - q * v) + r * (p * v - q * u) == v * d;
    CancelFactor(q * a + r * b, v, d);
  }

  /** cv::solve with DECOMP_LU | DECOMP_NORMAL, idealised over the reals:
      no solution exactly when the normal matrix is singular, otherwise the
      solution of the normal equations. */
  function SolveSums(s: NormalSums): (r: Option<(real, real)>)
    ensures r.None? <==> Det(s) == 0.0
    ensures r.Some? ==> SolvesNormal(s, r.value.0, r.value.1)
  {
    var det := Det(s);
    if det == 0.0 then None
    else
      Cramer(s.aa, s.ab, s.bb, s.aRhs, s.bRhs);
      Some(((s.aRhs * s.bb - s.ab * s.bRhs) / det, (s.aa * s.bRhs - s.ab * s.aRhs) / det))
  }

  function SolveNormal(rows: seq<LsRow>): (r: Option<(real, real)>)
  {
    SolveSums(Accumulate(rows))
  }

  /** When every row is satisfied by (A, B), the right-hand sums are the
      normal matrix applied to (A, B). */
  lemma {:induction false} ConsistentSums(rows: seq<LsRow>, a: real, b: real)
    requires forall p :: 0 <= p < |rows| ==> Satisfies(rows[p], a, b)
    ensures SolvesNormal(Accumulate(rows), a, b)
  {
    if |rows| > 0 {
      var init := rows[..|rows| - 1];
      assert forall p :: 0 <= p < |init| ==> init[p] == rows[p];
      ConsistentSums(init, a, b);
      AccumulateStep(Accumulate(init), rows[|rows| - 1], a, b);
      assert Accumulate(rows) == AddRow(Accumulate(init), rows[|rows| - 1]);
    }
  }

  /** Adding one satisfied row to consistent sums keeps them consistent. */
  lemma AccumulateStep(s: NormalSums, r: LsRow, a: real, b: real)
    requires SolvesNormal(s, a, b) && Satisfies(r, a, b)
    ensures SolvesNormal(AddRow(s, r), a, b)
  {
    assert r.a * r.rhs == r.a * (r.a * a + r.b * b) == (r.a * r.a) * a + (r.a * r.b) * b;
    assert r.b * r.rhs == r.b * (r.a * a + r.b * b) == (r.a * r.b) * a + (r.b * r.b) * b;
    assert (s.aa + r.a * r.a) * a + (s.ab + r.a * r.b) * b
        == (s.aa * a + s.ab * b) + ((r.a * r.a) * a + (r.a * r.b) * b);
    assert (s.ab + r.a * r.b) * a + (s.bb + r.b * r.b) * b
        == (s.ab * a + s.bb * b) + ((r.a * r.b) * a + (r.b * r.b) * b);
  }

  /** A non-singular 2x2 system has one solution. */
  lemma NormalUnique(s: NormalSums, a1: real, b1: real, a2: real, b2: real)
    requires Det(s) != 0.0
    requires SolvesNormal(s, a1, b1) && SolvesNormal(s, a2, b2)
    ensures a1 == a2 && b1 == b2
  {
    var da, db := a1 - a2, b1 - b2;
    assert s.aa * da + s.ab * db == 0.0;
    assert s.ab * da + s.bb * db == 0.0;
    assert Det(s) * da == s.bb * (s.aa * da + s.ab * db) - s.ab * (s.ab * da + s.bb * db);
    assert Det(s) * db == s.aa * (s.ab * da + s.bb * db) - s.ab * (s.aa * da + s.ab * db);
  }

  /** Noise-free data is recovered exactly: if every row is satisfied by
      (A, B) and the system is not singular, the solve returns (A, B). */
  lemma ExactRecovery(rows: seq<LsRow>, a: real, b: real)
    requires forall p :: 0 <= p < |rows| ==> Satisfies(rows[p], a, b)
    requires Det(Accumulate(rows)) != 0.0
    ensures SolveNormal(rows) == Some((a, b))
  {
    ConsistentSums(rows, a, b);
    SolveSumsUnique(Accumulate(rows), a, b);
  }

  lemma SolveSumsUnique(s: NormalSums, a: real, b: real)
    requires Det(s) != 0.0 && SolvesNormal(s, a, b)
    ensures SolveSums(s) == Some((a, b))
  {
    var r := SolveSums(s);
    assert r.Some?;
    var x, y := r.value.0, r.value.1;
    assert SolvesNormal(s, x, y);
    NormalUnique(s, x, y, a, b);
    assert r == Some((x, y));
  }

  /** The fitted depth model: raw = B - A / Z, and the baseline derived from A. */
  datatype Model = Model(a: real, b: real, baseline: real)

  /** The only failure: a singular least-squares system ends the run with
      status 1. */
  datatype FitError = SingularSystem

  /** Solve for (A, B) and derive b = 0.125 * A / fx from the depth camera's
      focal length. */
  function FitDepthModel(obs: seq<Observation>, fx: real): (r: Result<Model, FitError>)
    requires fx != 0.0
    ensures r.Err? <==> Det(Accumulate(Rows(obs))) == 0.0
    ensures r.Ok? ==> SolvesNormal(Accumulate(Rows(obs)), r.value.a, r.value.b)
    ensures r.Ok? ==> r.value.baseline * fx == Disparity.SHIFT_SCALE * r.value.a
  {
    match SolveNormal(Rows(obs))
    case None => Err(SingularSystem)
    case Some((a, b)) => Ok(Model(a, b, Disparity.Baseline(a, fx)))
  }

  /** Observations generated exactly by raw = B - A / Z give back A and B,
      and the baseline 0.125 * A / fx. */
  lemma ExactDepthModel(obs: seq<Observation>, fx: real, a: real, b: real)
    requires fx != 0.0
    requires forall p :: 0 <= p < |obs| ==> Exact(obs[p], a, b)
    requires Det(Accumulate(Rows(obs))) != 0.0
    ensures FitDepthModel(obs, fx) == Ok(Model(a, b, Disparity.Baseline(a, fx)))
  {
    var rows := Rows(obs);
    forall p | 0 <= p < |rows|
      ensures Satisfies(rows[p], a, b)
    {
      ExactRowSatisfied(obs[p], a, b);
    }
    ExactRecovery(rows, a, b);
  }
}
