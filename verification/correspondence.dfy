/** Correspondence collection in calibrate.cpp: the planar checkerboard
    pattern, and the loops that read the numbered IR or RGB images, detect
    the board in each and gather the corner lists. Image loading and corner
    detection (with sub-pixel refinement) are foreign calls; their combined
    outcome for frame n is an input. */
module Correspondence {
  import opened Outcome

  datatype Point2 = Point2(x: real, y: real)
  datatype Point3 = Point3(x: real, y: real, z: real)

  /** Shift from where a corner appears in the IR image to where it appears
      in the depth image. */
  const IR_DEPTH_OFFSET := Point2(-4.0, -3.0)

  function AddPoint(p: Point2, d: Point2): Point2
  {
    Point2(p.x + d.x, p.y + d.y)
  }

  /** Board corner (i, j) of a board with square edge `size`: column i,
      row j, on the plane z = 0. */
  function GridPoint(i: int, j: int, size: real): Point3
  {
    Point3(i as real * size, j as real * size, 0.0)
  }

  lemma DivModOfRow(i: nat, j: nat, rows: nat)
    requires j < rows
    ensures (i * rows + j) / rows == i
    ensures (i * rows + j) % rows == j
  {
    var x := i * rows + j;
    var q, r := x / rows, x % rows;
    assert rows * (q - i) == j - r;
    MulSmall(rows, q - i);
  }

  /** A multiple of a positive number that is smaller than it in absolute
      value is zero. */
  lemma MulSmall(a: int, t: int)
    requires 0 < a && -a < a * t < a
    ensures t == 0
  {
  }

  /** The planar pattern: for each column i < cols, every row j < rows, in
      that order, so corner (i, j) sits at index i * rows + j. Non-positive
      dimensions give an empty pattern, as the for loops do. */
  method PlanarPattern(rows: int, cols: int, size: real) returns (pat: seq<Point3>)
    ensures |pat| == if rows > 0 && cols > 0 then rows * cols else 0
    ensures rows > 0 ==> forall k :: 0 <= k < |pat| ==> pat[k] == GridPoint(k / rows, k % rows, size)
  {
    pat := [];
    var perCol := if rows > 0 then rows else 0;
    var i := 0;
    while i < cols
      invariant 0 <= i <= (if cols > 0 then cols else 0)
      invariant |pat| == i * perCol
      invariant rows > 0 ==> forall k :: 0 <= k < |pat| ==> pat[k] == GridPoint(k / rows, k % rows, size)
    {
      var j := 0;
      while j < rows
        invariant 0 <= j <= perCol
        invariant |pat| == i * perCol + j
        invariant rows > 0 ==> forall k :: 0 <= k < |pat| ==> pat[k] == GridPoint(k / rows, k % rows, size)
      {
        DivModOfRow(i, j, rows);
        pat := pat + [GridPoint(i, j, size)];
        j := j + 1;
      }
      assert (i + 1) * perCol == i * perCol + perCol;
      i := i + 1;
    }
  }

  /** What loading and detecting frame n produced. */
  datatype Detection =
    | Missing                          // the image file could not be read
    | NotFound                         // read, but no checkerboard was found
    | Found(corners: seq<Point2>)      // the refined corner list

  /** The IR stage corrects corners into depth-image coordinates; the RGB
      stage keeps them as detected. */
  datatype Stage = IrStage | RgbStage

  /** The run ends with status 1, naming the frame whose board was not found. */
  datatype CollectError = NoCorners(frame: nat)

  /** Frames past the end of the input are missing files. */
  predicate IsMissing(frames: seq<Detection>, n: nat)
  {
    n >= |frames| || frames[n].Missing?
  }

  function Adjust(stage: Stage, corners: seq<Point2>): (r: seq<Point2>)
    ensures |r| == |corners|
    ensures stage == RgbStage ==> r == corners
    ensures stage == IrStage ==>
      forall j :: 0 <= j < |r| ==> r[j].x == corners[j].x - 4.0 && r[j].y == corners[j].y - 3.0
  {
    match stage
    case RgbStage => corners
    case IrStage => seq(|corners|, j requires 0 <= j < |corners| => AddPoint(corners[j], IR_DEPTH_OFFSET))
  }

  /** The collection loop: frames are read in index order; the first
      missing frame ends the loop cleanly, a frame without a board fails the
      run, and every other frame contributes its adjusted corners. */
  function Collect(frames: seq<Detection>, stage: Stage): (r: Result<seq<seq<Point2>>, CollectError>)
    ensures r.Ok? ==>
      && |r.value| <= |frames|
      && IsMissing(frames, |r.value|)
      && forall k :: 0 <= k < |r.value| ==>
           frames[k].Found? && r.value[k] == Adjust(stage, frames[k].corners)
    ensures r.Err? ==>
      && r.error.frame < |frames|
      && frames[r.error.frame].NotFound?
      && forall k :: 0 <= k < r.error.frame ==> frames[k].Found?
  {
    if IsMissing(frames, 0) then Ok([])
    else match frames[0]
      case NotFound => Err(NoCorners(0))
      case Found(c) =>
        match Collect(frames[1..], stage)
        case Err(e) =>
          assert forall k :: 1 <= k <= e.frame ==> frames[k] == frames[1..][k - 1];
          Err(NoCorners(e.frame + 1))
        case Ok(rest) =>
          var v := [Adjust(stage, c)] + rest;
          assert forall k :: 1 <= k < |v| ==> v[k] == rest[k - 1] && frames[k] == frames[1..][k - 1];
          Ok(v)
  }

  /** The IR stage's accumulators: one copy of the pattern per frame next to
      that frame's corners. */
  datatype Correspondences = Correspondences(pats: seq<seq<Point3>>, points: seq<seq<Point2>>)

  /** The IR collection loop with its two accumulators: each stored frame
      pushes the pattern into pats and its adjusted corners into points, so
      points are exactly the IR corner lists and pats keeps pace with them. */
  function CollectIr(frames: seq<Detection>, pat: seq<Point3>): (r: Result<Correspondences, CollectError>)
    ensures r.Ok? ==> |r.value.pats| == |r.value.points|
    ensures r.Ok? ==> forall k :: 0 <= k < |r.value.pats| ==> r.value.pats[k] == pat
    ensures r.Ok? <==> Collect(frames, IrStage).Ok?
    ensures r.Ok? ==> r.value.points == Collect(frames, IrStage).value
    ensures r.Err? ==> r.error == Collect(frames, IrStage).error
  {
    match Collect(frames, IrStage)
    case Err(e) => Err(e)
    case Ok(points) => Ok(Correspondences(seq(|points|, _ => pat), points))
  }

  /** The number of frames is the index of the first missing file: when
      frames 0 .. n-1 all show a board and frame n is missing, collection
      succeeds with exactly n corner lists. */
  lemma {:induction false} CleanStop(frames: seq<Detection>, stage: Stage, n: nat)
    requires n <= |frames|
    requires forall k :: 0 <= k < n ==> frames[k].Found?
    requires IsMissing(frames, n)
    ensures Collect(frames, stage).Ok?
    ensures |Collect(frames, stage).value| == n
  {
    if n > 0 {
      assert forall k :: 0 <= k < n - 1 ==> frames[1..][k] == frames[k + 1];
      CleanStop(frames[1..], stage, n - 1);
    }
  }

  /** A frame without a board before the first missing file fails the whole
      collection, even when later frames would succeed. */
  lemma {:induction false} FailureBeforeEnd(frames: seq<Detection>, stage: Stage, bad: nat)
    requires bad < |frames| && frames[bad].NotFound?
    requires forall k :: 0 <= k < bad ==> frames[k].Found?
    ensures Collect(frames, stage) == Err(NoCorners(bad))
  {
    if bad > 0 {
      assert forall k :: 0 <= k < bad - 1 ==> frames[1..][k] == frames[k + 1];
      FailureBeforeEnd(frames[1..], stage, bad - 1);
    }
  }

  /** The IR offset is applied exactly once and only in the IR stage: on the
      same detections both stages stop or fail at the same frame, and every
      stored IR corner is the RGB one moved by (-4, -3). */
  lemma IrOffsetOnlyInIrStage(frames: seq<Detection>)
    ensures Collect(frames, IrStage).Ok? <==> Collect(frames, RgbStage).Ok?
    ensures Collect(frames, IrStage).Err? ==> Collect(frames, IrStage) == Collect(frames, RgbStage)
    ensures Collect(frames, IrStage).Ok? ==>
      var ir := Collect(frames, IrStage).value;
      var rgb := Collect(frames, RgbStage).value;
      && |ir| == |rgb|
      && forall k :: 0 <= k < |ir| ==>
           |ir[k]| == |rgb[k]| &&
           forall j :: 0 <= j < |ir[k]| ==> ir[k][j] == AddPoint(rgb[k][j], IR_DEPTH_OFFSET)
  {
    var ir := Collect(frames, IrStage);
    if ir.Ok? {
      CleanStop(frames, RgbStage, |ir.value|);
    } else {
      FailureBeforeEnd(frames, RgbStage, ir.error.frame);
    }
  }
}
