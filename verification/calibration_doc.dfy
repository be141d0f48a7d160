/** The three parameter files calibrate.cpp writes, in two formats, as
    ordered lists of named fields rather than text: the camera calibration
    written by writeCalibration (calibration_depth.yaml for the depth
    camera, calibration_rgb.yaml for the RGB camera) and the body of
    kinect_params.yaml. Number formatting (%.8f, %.4f, ...)
    is not modelled: values are carried exactly. */
module CalibrationDoc {
  import opened Outcome
  import opened Linear

  /** A field value: an integer, a word, a matrix with its declared shape
      and row-major data, a number, or a bracketed list of numbers. */
  datatype Value =
    | IntVal(i: int)
    | TextVal(s: string)
    | MatrixVal(rows: nat, cols: nat, data: seq<real>)
    | RealVal(r: real)
    | ListVal(xs: seq<real>)

  /** The keys the program writes. Each stands for the YAML key spelled out
      by KeyText; distinct keys are spelled differently (KeyTextInjective),
      so a lookup by key is a lookup by the written name. */
  datatype Key =
    | ImageWidth | ImageHeight | CameraName | CameraMatrix
    | DistortionCoefficients | RectificationMatrix | ProjectionMatrix
    | ShiftOffset | ProjectorDepthBaseline | DepthRgbRotation | DepthRgbTranslation

  function KeyText(k: Key): string
  {
    match k
    case ImageWidth => "image_width"
    case ImageHeight => "image_height"
    case CameraName => "camera_name"
    case CameraMatrix => "camera_matrix"
    case DistortionCoefficients => "distortion_coefficients"
    case RectificationMatrix => "rectification_matrix"
    case ProjectionMatrix => "projection_matrix"
    case ShiftOffset => "shift_offset"
    case ProjectorDepthBaseline => "projector_depth_baseline"
    case DepthRgbRotation => "depth_rgb_rotation"
    case DepthRgbTranslation => "depth_rgb_translation"
  }

  lemma KeyTextInjective(a: Key, b: Key)
    ensures KeyText(a) == KeyText(b) <==> a == b
  {
  }

  datatype Field = Field(name: Key, value: Value)

  function Names(doc: seq<Field>): (ns: seq<Key>)
    ensures |ns| == |doc|
    ensures forall i :: 0 <= i < |doc| ==> ns[i] == doc[i].name
  {
    seq(|doc|, i requires 0 <= i < |doc| => doc[i].name)
  }

  /** The field names as they appear in the file. */
  function Spelled(ns: seq<Key>): (ts: seq<string>)
    ensures |ts| == |ns|
    ensures forall i :: 0 <= i < |ns| ==> ts[i] == KeyText(ns[i])
  {
    seq(|ns|, i requires 0 <= i < |ns| => KeyText(ns[i]))
  }

  /** Every matrix field holds exactly rows * cols numbers. */
  predicate ShapesAgree(doc: seq<Field>)
  {
    forall i :: 0 <= i < |doc| && doc[i].value.MatrixVal? ==>
      |doc[i].value.data| == doc[i].value.rows * doc[i].value.cols
  }

  /** The first field with the given name, if any. */
  function Find(doc: seq<Field>, name: Key): (r: Option<Value>)
    ensures r.None? <==> forall i :: 0 <= i < |doc| ==> doc[i].name != name
    ensures r.Some? ==> exists i :: 0 <= i < |doc| && doc[i].name == name && doc[i].value == r.value
  {
    if |doc| == 0 then None
    else if doc[0].name == name then Some(doc[0].value)
    else
      var r := Find(doc[1..], name);
      assert forall i :: 1 <= i < |doc| ==> doc[i] == doc[1..][i - 1];
      r
  }

  /** A 3x3 matrix as nine row-major numbers, as cameraMatrix.ptr reads it. */
  function Flatten3(m: Mat3): (d: seq<real>)
    ensures |d| == 9
  {
    [m.r0.x, m.r0.y, m.r0.z, m.r1.x, m.r1.y, m.r1.z, m.r2.x, m.r2.y, m.r2.z]
  }

  function Unflatten3(d: seq<real>): Mat3
    requires |d| == 9
  {
    Mat3(Vec3(d[0], d[1], d[2]), Vec3(d[3], d[4], d[5]), Vec3(d[6], d[7], d[8]))
  }

  lemma FlattenRoundTrip(m: Mat3, d: seq<real>)
    requires |d| == 9
    ensures Unflatten3(Flatten3(m)) == m
    ensures Flatten3(Unflatten3(d)) == d
  {
  }

  const CALIBRATION_NAMES: seq<Key> := [
    ImageWidth, ImageHeight, CameraName, CameraMatrix,
    DistortionCoefficients, RectificationMatrix, ProjectionMatrix]

  const IDENTITY3: seq<real> := [1.0, 0.0, 0.0, 0.0, 1.0, 0.0, 0.0, 0.0, 1.0]

  /** [K | 0]: each row of K followed by a zero. */
  function ProjectionData(k: Mat3): (d: seq<real>)
    ensures |d| == 12
  {
    [k.r0.x, k.r0.y, k.r0.z, 0.0, k.r1.x, k.r1.y, k.r1.z, 0.0, k.r2.x, k.r2.y, k.r2.z, 0.0]
  }

  /** writeCalibration: image size 640 x 480, camera name "kinect", the 3x3
      camera matrix, the first five distortion coefficients (read through a
      raw pointer, so at least five must exist), the identity rectification
      and the 3x4 projection [K | 0]. */
  function WriteCalibration(k: Mat3, dist: seq<real>): seq<Field>
    requires |dist| >= 5
  {
    [ Field(ImageWidth, IntVal(640)),
      Field(ImageHeight, IntVal(480)),
      Field(CameraName, TextVal("kinect")),
      Field(CameraMatrix, MatrixVal(3, 3, Flatten3(k))),
      Field(DistortionCoefficients, MatrixVal(1, 5, dist[..5])),
      Field(RectificationMatrix, MatrixVal(3, 3, IDENTITY3)),
      Field(ProjectionMatrix, MatrixVal(3, 4, ProjectionData(k))) ]
  }

  /** The fields come in a fixed order, the image is 640 x 480, and every
      matrix field holds exactly rows * cols numbers. */
  lemma CalibrationLayout(k: Mat3, dist: seq<real>)
    requires |dist| >= 5
    ensures var doc := WriteCalibration(k, dist);
      && Names(doc) == CALIBRATION_NAMES
      && Spelled(Names(doc)) ==
           ["image_width", "image_height", "camera_name", "camera_matrix",
            "distortion_coefficients", "rectification_matrix", "projection_matrix"]
      && ShapesAgree(doc)
      && doc[0].value == IntVal(640) && doc[1].value == IntVal(480)
  {
  }

  /** Entry (r, c) of a row-major matrix field. */
  function Entry(v: Value, r: nat, c: nat): real
    requires v.MatrixVal? && r < v.rows && c < v.cols && |v.data| == v.rows * v.cols
  {
    assert r * v.cols + c < v.rows * v.cols by {
      assert r * v.cols + c < r * v.cols + v.cols == (r + 1) * v.cols;
      assert (r + 1) * v.cols <= v.rows * v.cols;
    }
    v.data[r * v.cols + c]
  }

  /** The rectification field is the identity and the projection field is
      the camera matrix with a zero fourth column. */
  lemma CalibrationMatrices(k: Mat3, dist: seq<real>, r: nat, c: nat)
    requires |dist| >= 5 && r < 3 && c < 4
    ensures var doc := WriteCalibration(k, dist);
      && (c < 3 ==> Entry(doc[5].value, r, c) == if r == c then 1.0 else 0.0)
      && (c < 3 ==> Entry(doc[6].value, r, c) == Entry(doc[3].value, r, c))
      && (c == 3 ==> Entry(doc[6].value, r, c) == 0.0)
  {
    var doc := WriteCalibration(k, dist);
    assert doc[3].value == MatrixVal(3, 3, Flatten3(k));
    assert doc[5].value == MatrixVal(3, 3, IDENTITY3);
    assert doc[6].value == MatrixVal(3, 4, ProjectionData(k));
    if c < 3 {
      IdentityEntries(r, c);
      ProjectionEntries(k, r, c);
    } else {
      ProjectionEntries(k, r, c);
    }
  }

  lemma IdentityEntries(r: nat, c: nat)
    requires r < 3 && c < 3
    ensures IDENTITY3[r * 3 + c] == if r == c then 1.0 else 0.0
  {
    assert r == 0 || r == 1 || r == 2;
  }

  lemma ProjectionEntries(k: Mat3, r: nat, c: nat)
    requires r < 3 && c < 4
    ensures c < 3 ==> ProjectionData(k)[r * 4 + c] == Flatten3(k)[r * 3 + c]
    ensures c == 3 ==> ProjectionData(k)[r * 4 + c] == 0.0
  {
    assert r == 0 || r == 1 || r == 2;
  }

  /** What a consumer of the file recovers: the camera matrix and the
      distortion coefficients, when both fields are present with the
      expected shapes. */
  function ReadCalibration(doc: seq<Field>): Option<(Mat3, seq<real>)>
  {
    match (Find(doc, CameraMatrix), Find(doc, DistortionCoefficients))
    case (Some(MatrixVal(3, 3, km)), Some(MatrixVal(1, 5, dm))) =>
      if |km| == 9 && |dm| == 5 then Some((Unflatten3(km), dm)) else None
    case _ => None
  }

  /** Where the two fields a reader needs sit in a written calibration. */
  lemma CalibrationFields(k: Mat3, dist: seq<real>)
    requires |dist| >= 5
    ensures Find(WriteCalibration(k, dist), CameraMatrix) == Some(MatrixVal(3, 3, Flatten3(k)))
    ensures Find(WriteCalibration(k, dist), DistortionCoefficients) == Some(MatrixVal(1, 5, dist[..5]))
  {
    FindAt(WriteCalibration(k, dist), CameraMatrix, 3);
    FindAt(WriteCalibration(k, dist), DistortionCoefficients, 4);
  }

  /** Reading a written calibration gives back K and the five coefficients. */
  lemma CalibrationRoundTrip(k: Mat3, dist: seq<real>)
    requires |dist| >= 5
    ensures ReadCalibration(WriteCalibration(k, dist)) == Some((k, dist[..5]))
  {
    CalibrationFields(k, dist);
    FlattenRoundTrip(k, Flatten3(k));
  }

  /** Find returns the field at the first index carrying the name. */
  lemma {:induction false} FindAt(doc: seq<Field>, name: Key, i: nat)
    requires i < |doc| && doc[i].name == name
    requires forall j :: 0 <= j < i ==> doc[j].name != name
    ensures Find(doc, name) == Some(doc[i].value)
  {
    if i > 0 {
      assert forall j :: 0 <= j < i - 1 ==> doc[1..][j] == doc[j + 1];
      FindAt(doc[1..], name, i - 1);
    }
  }

  const PARAMS_NAMES: seq<Key> := [ShiftOffset, ProjectorDepthBaseline, DepthRgbRotation, DepthRgbTranslation]

  /** The kinect_params.yaml body: the depth model's offset B, the baseline
      b, the depth-to-RGB rotation R (nine row-major entries) and the
      translation T. */
  function WriteKinectParams(offset: real, baseline: real, rot: Mat3, t: Vec3): seq<Field>
  {
    [ Field(ShiftOffset, RealVal(offset)),
      Field(ProjectorDepthBaseline, RealVal(baseline)),
      Field(DepthRgbRotation, ListVal(Flatten3(rot))),
      Field(DepthRgbTranslation, ListVal([t.x, t.y, t.z])) ]
  }

  /** The four fields in their fixed order, with nine rotation entries and
      three translation entries. */
  lemma KinectParamsLayout(offset: real, baseline: real, rot: Mat3, t: Vec3)
    ensures var doc := WriteKinectParams(offset, baseline, rot, t);
      && Names(doc) == PARAMS_NAMES
      && Spelled(Names(doc)) ==
           ["shift_offset", "projector_depth_baseline", "depth_rgb_rotation", "depth_rgb_translation"]
      && ShapesAgree(doc)
      && doc[2].value.ListVal? && |doc[2].value.xs| == 9
      && doc[3].value.ListVal? && |doc[3].value.xs| == 3
  {
  }

  datatype KinectParams = KinectParams(offset: real, baseline: real, rot: Mat3, t: Vec3)

  function ReadKinectParams(doc: seq<Field>): Option<KinectParams>
  {
    match (Find(doc, ShiftOffset), Find(doc, ProjectorDepthBaseline),
           Find(doc, DepthRgbRotation), Find(doc, DepthRgbTranslation))
    case (Some(RealVal(o)), Some(RealVal(b)), Some(ListVal(r)), Some(ListVal(t))) =>
      if |r| == 9 && |t| == 3 then Some(KinectParams(o, b, Unflatten3(r), Vec3(t[0], t[1], t[2])))
      else None
    case _ => None
  }

  /** The parameters a document yields once its four fields are known. */
  lemma ReadKinectParamsOf(doc: seq<Field>, offset: real, baseline: real, r: seq<real>, t: seq<real>)
    requires |r| == 9 && |t| == 3
    requires Find(doc, ShiftOffset) == Some(RealVal(offset))
    requires Find(doc, ProjectorDepthBaseline) == Some(RealVal(baseline))
    requires Find(doc, DepthRgbRotation) == Some(ListVal(r))
    requires Find(doc, DepthRgbTranslation) == Some(ListVal(t))
    ensures ReadKinectParams(doc) == Some(KinectParams(offset, baseline, Unflatten3(r), Vec3(t[0], t[1], t[2])))
  {
  }

  /** Where the four fields sit in a written parameters file. */
  lemma KinectParamsFields(offset: real, baseline: real, rot: Mat3, t: Vec3)
    ensures var doc := WriteKinectParams(offset, baseline, rot, t);
      && Find(doc, ShiftOffset) == Some(RealVal(offset))
      && Find(doc, ProjectorDepthBaseline) == Some(RealVal(baseline))
      && Find(doc, DepthRgbRotation) == Some(ListVal(Flatten3(rot)))
      && Find(doc, DepthRgbTranslation) == Some(ListVal([t.x, t.y, t.z]))
  {
    var doc := WriteKinectParams(offset, baseline, rot, t);
    FindAt(doc, ShiftOffset, 0);
    FindAt(doc, ProjectorDepthBaseline, 1);
    FindAt(doc, DepthRgbRotation, 2);
    FindAt(doc, DepthRgbTranslation, 3);
  }

  /** Reading the parameters file gives back exactly what was written. */
  lemma KinectParamsRoundTrip(offset: real, baseline: real, rot: Mat3, t: Vec3)
    ensures ReadKinectParams(WriteKinectParams(offset, baseline, rot, t)) ==
      Some(KinectParams(offset, baseline, rot, t))
  {
    KinectParamsFields(offset, baseline, rot, t);
    FlattenRoundTrip(rot, Flatten3(rot));
    ReadKinectParamsOf(WriteKinectParams(offset, baseline, rot, t), offset, baseline, Flatten3(rot), [t.x, t.y, t.z]);
  }
}
