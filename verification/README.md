# Kinect calibration: a Dafny model of the exact logic

The `kinect_calibration` package has two programs. `acquire_data` drives a
Kinect and saves numbered IR, RGB and depth images of a checkerboard on key
presses. `calibrate` reads those images back and does four things:

- it calibrates the depth (IR) camera and the RGB camera;
- it fits the depth model `raw = B - A / Z`;
- it builds the 3x4 matrix `D = P * S * Q`, which takes a depth pixel and its
  disparity to an RGB pixel;
- it writes the calibration files and a set of registered images.

Most of the numerical work is done by OpenCV. This project models the code
around those calls, which is deterministic and checkable:

- the disparity arithmetic;
- the gamma table and the colour ramp;
- the planar pattern and the correspondence loops;
- the least-squares rows of the depth model and their normal equations;
- the Q, S, P and D matrices;
- the z-buffered forward warp that produces the registered images;
- the three documents `calibrate.cpp` writes, in two formats: the camera
  calibration, written twice by `writeCalibration` (`calibration_depth.yaml`
  and `calibration_rgb.yaml`), and `kinect_params.yaml`;
- the key handler and the frame callbacks of the acquisition program.

Arithmetic is exact: `real` stands for `double` and `float`, and `int` for
C's integers. The C conversions are written out, because they matter:

- `(int)x` truncates toward zero;
- storing into a `uint16_t` keeps the value modulo 2^16;
- the float-to-`uint16_t` conversion of the gamma table truncates.

Modules follow the program's structure. Each module lists its imports.

| file | module | models |
|---|---|---|
| outcome.dfy | Outcome | `Option` and `Result` |
| linear.dfy | Linear | fixed-size vectors and matrices (3, 4, 3x3, 3x4, 4x4) |
| disparity.dfy | Disparity | `shift2disp`, the invalid clamp, the fixed-point disparity, the baseline, `(int)` casts |
| depth_color.dfy | DepthColor | `t_gamma` and `setDepthColor` |
| correspondence.dfy | Correspondence | the planar pattern and the IR/RGB corner loops |
| depth_model.dfy | DepthModel | the least-squares rows and the fit of A, B and b |
| transform_chain.dfy | TransformChain | Q, S, P, D and the projection of one pixel |
| reproject.dfy | Reproject | the output-image loop with its z-buffer |
| calibration_doc.dfy | CalibrationDoc | `writeCalibration` and `kinect_params.yaml` as field lists |
| acquire.dfy | Acquire | `keyPressed`, the save logic of `depth_cb`/`rgb_cb`/`ir_cb`, the colour loops |

Two details of the code are easy to misread, and the model follows the code:

- **Q is 4x4.** Q is a 4x4 `Matrix4d` (calibrate.cpp:459) with rows
  (1, 0, 0, -cx), (0, 1, 0, -cy), (0, 0, 0, fx) and (0, 0, 1/b, 0).
- **The gamma table truncates.** The float-to-`uint16_t` store truncates,
  so `t_gamma[2047]` is 9202, where rounding would give 9203. The model
  proves `Gamma(2047) == 9202` (`DepthColor.GammaShape`).

Some conditions the source never checks become `requires` clauses, because
the model cannot state the undefined behaviour that follows:

- every raw depth value indexes `t_gamma[2048]`, so it must be below 2048;
- `writeCalibration` reads five distortion coefficients;
- the depth loop indexes `pats`, `points`, `rvecs` and `tvecs` by the depth
  frame number, so there must be no more depth frames than IR frames;
- Q holds `1.0/b`, so the baseline must be nonzero.

The projection of a depth pixel depends on `q[2]`:

- when `q[2]` is 0, the C code divides by zero and the model has no cell
  (`TransformChain.ProjectPixel` returns `None`);
- otherwise the cell is `((int)(q0/q2 + 0.5), (int)(q1/q2 + 0.5))`.

The warp loop takes this cell as an input per depth pixel.

The program only writes its three documents; it never reads them back. The
model adds reference readers, `CalibrationDoc.Find`,
`CalibrationDoc.ReadCalibration` and `CalibrationDoc.ReadKinectParams`, so
that the round-trip lemmas can say the written fields carry the program's
values. They model no source lines, so they have no row below.

## Model

| member | source | states |
|---|---|---|
| `Disparity.TruncToInt` | kinect_calibration/src/calibrate.cpp:556-557 | C's `(int)` cast truncates toward zero: the result lies within 1 of x, on the side of x nearer zero. |
| `Disparity.RoundHalf` | kinect_calibration/src/calibrate.cpp:556-557 | For x >= -0.5, `(int)(x + 0.5)` is the nearest integer to x, with halves rounded up. |
| `Disparity.RoundHalfNearZero` | kinect_calibration/src/calibrate.cpp:556-557 | Every projected coordinate in (-1.5, 0.5) lands on index 0, including those whose nearest integer is -1; -1.0, for example, goes to column 0. Such pixels are therefore not rejected as out of bounds. |
| `Disparity.Shift2Disp` | kinect_calibration/src/calibrate.cpp:70-73 | Disparity is positive exactly when the raw shift is below the offset B. The shift can be recovered from the disparity as `B - d / 0.125`. |
| `Disparity.ValidDisparity` | kinect_calibration/src/calibrate.cpp:549-551 | The clamped disparity is never negative. It is 0 exactly when the shift is at least B. Otherwise it inverts back to the shift. |
| `Disparity.FixedDisparity` | kinect_calibration/src/calibrate.cpp:561 | The stored fixed-point disparity is a non-negative integer. It is the floor of `16 d + 0.499`. |
| `Disparity.FixedDisparityMonotone` | kinect_calibration/src/calibrate.cpp:561 | A larger disparity never gets a smaller buffer value. |
| `Disparity.FixedDisparityAntitoneInShift` | kinect_calibration/src/calibrate.cpp:549-561 | A smaller raw shift (a nearer surface) never gets a smaller buffer value. This is why "larger wins" in the z-buffer means "nearest wins". |
| `Disparity.SmallDisparityStoresZero` | kinect_calibration/src/calibrate.cpp:561 | A valid disparity below 1/32 still stores 0, the same value as an invalid pixel. |
| `Disparity.Baseline` | kinect_calibration/src/calibrate.cpp:341-342 | The baseline b satisfies `b * fx == 0.125 * A`. |
| `DepthColor.Gamma` | kinect_calibration/src/calibrate.cpp:507-512 | Every gamma entry lies in [0, 9216). |
| `DepthColor.GammaShape` | kinect_calibration/src/calibrate.cpp:507-512 | The table starts at 0, ends at 9202 because of truncation, and never decreases. |
| `DepthColor.RampColor` | kinect_calibration/src/calibrate.cpp:78-120 | A table value of 0 gives white. Every band beyond 5 gives black. |
| `DepthColor.RampMatchesReference` | kinect_calibration/src/calibrate.cpp:78-120 | The six-case switch equals an independent piecewise-linear ramp through the anchors white, red, yellow, green, cyan, blue and black. |
| `DepthColor.RampBandsJoin` | kinect_calibration/src/calibrate.cpp:80-113 | The last colour of band k equals the first colour of band k+1, which is anchor k+1. |
| `DepthColor.RampStep` | kinect_calibration/src/calibrate.cpp:78-120 | Consecutive table values change each channel by at most one, so the ramp is continuous. |
| `DepthColor.SetDepthColor` | kinect_calibration/src/calibrate.cpp:77-120 | It has no contract of its own: the colour of a raw depth is the ramp colour of its gamma value. `DepthColor.RampMatchesReference` and `DepthColor.SetDepthColorBlackIff` state what that colour is. |
| `DepthColor.SetDepthColorBlackIff` | kinect_calibration/src/calibrate.cpp:76-120 | Raw depth 0 is white. A raw depth below 2048 colours black if and only if it is at least 1127. |
| `Correspondence.PlanarPattern` | kinect_calibration/src/calibrate.cpp:205-208 | The pattern has rows*cols points. Point k is the corner at column k / rows and row k % rows, scaled by the square size, with z = 0. Non-positive dimensions give an empty pattern. |
| `Correspondence.Adjust` | kinect_calibration/src/calibrate.cpp:236-238 | Each IR corner is moved by exactly (-4, -3) into depth-image coordinates. RGB corners are kept as detected. |
| `Correspondence.Collect` | kinect_calibration/src/calibrate.cpp:216-242 | On success the corner lists are the adjusted detections of a prefix of found frames, ending at a missing frame. On failure the named frame had no board and every earlier frame had one. |
| `Correspondence.CollectIr` | kinect_calibration/src/calibrate.cpp:240-241 | `pats` and `points` grow in lockstep, and every entry of `pats` is the planar pattern. `points` is exactly the list of adjusted IR corner lists that `Collect` gives, and a failure is the same failure, at the same frame. |
| `Correspondence.CleanStop` | kinect_calibration/src/calibrate.cpp:362-387 | If frames 0..n-1 all show a board and frame n is missing, collection succeeds with exactly n frames. |
| `Correspondence.FailureBeforeEnd` | kinect_calibration/src/calibrate.cpp:372-377 | A frame without a board, before the first missing file, fails the run at that frame, whatever later frames hold. |
| `Correspondence.IrOffsetOnlyInIrStage` | kinect_calibration/src/calibrate.cpp:65 | The IR and RGB loops stop or fail at the same frame on the same detections. Every IR corner is the RGB one plus the offset, applied once. |
| `DepthModel.CameraDepth` | kinect_calibration/src/calibrate.cpp:315-324 | The depth Z of a pattern point is the third coordinate of the rigid transform R p + t of the frame's pose, which `cv::transform` applies with the 3x4 matrix [R \| t]. |
| `DepthModel.Observations` | kinect_calibration/src/calibrate.cpp:298-332 | The observations of the first nDepth depth frames are listed frame by frame, corner by corner, with one observation per corner. Each carries the camera depth of its pattern point under that frame's pose and the reading under its corner. There must be no more depth frames than IR frames. |
| `DepthModel.RowOf` | kinect_calibration/src/calibrate.cpp:324-327 | It has no contract of its own: it builds the row `(-1, Z)` with right-hand side `Z * r` from one observation. `DepthModel.Rows` and `DepthModel.ExactRowSatisfied` state what the rows mean. |
| `DepthModel.Rows` | kinect_calibration/src/calibrate.cpp:323-329 | There is one least-squares row per observation, and each row is `(-1, Z)` with right-hand side `Z * r`. |
| `DepthModel.ExactRowSatisfied` | kinect_calibration/src/calibrate.cpp:323-329 | If a reading follows `r = B - A / Z` exactly, its row satisfies `-A + Z B = Z r`. |
| `DepthModel.SolveSums` | kinect_calibration/src/calibrate.cpp:337-338 | The solve fails exactly when the normal matrix is singular. Otherwise its result satisfies the normal equations. |
| `DepthModel.ExactRecovery` | kinect_calibration/src/calibrate.cpp:337-340 | If every row is satisfied by (A, B) and the system is non-singular, the solve returns exactly (A, B). |
| `DepthModel.FitDepthModel` | kinect_calibration/src/calibrate.cpp:334-352 | The fit fails, and the run exits with status 1, exactly when the system is singular. Otherwise (A, B) solves the normal equations, and the baseline satisfies `b * fx == 0.125 * A`. |
| `DepthModel.ExactDepthModel` | kinect_calibration/src/calibrate.cpp:298-352 | Noise-free observations of `r = B - A / Z` give back A, B and the baseline `0.125 * A / fx`. |
| `TransformChain.BuildQ` | kinect_calibration/src/calibrate.cpp:464-467 | It has no contract of its own: it holds the entries of Q. `TransformChain.QAction` states its action and `TransformChain.QBackProjects` that it inverts the pinhole model. |
| `TransformChain.QAction` | kinect_calibration/src/calibrate.cpp:464-467 | Q maps (x, y, z, w) to `(x - cx w, y - cy w, fx w, z / b)`. |
| `TransformChain.QBackProjects` | kinect_calibration/src/calibrate.cpp:464-467 | For nonzero disparity d, Q's Euclidean point has depth `fx b / d`, and the pinhole model (fx, cx, cy) projects it back to the original pixel (j, i). |
| `TransformChain.BuildS` | kinect_calibration/src/calibrate.cpp:472-475 | It has no contract of its own: it holds [R \| T] above (0, 0, 0, 1). `TransformChain.SAction` states its action. |
| `TransformChain.SAction` | kinect_calibration/src/calibrate.cpp:472-475 | S keeps the homogeneous coordinate, because its last row is (0,0,0,1). It moves the point part to `R xyz + w T`. |
| `TransformChain.BuildP` | kinect_calibration/src/calibrate.cpp:479-481 | It has no contract of its own: it holds the RGB camera's fx, fy, cx and cy. `TransformChain.PAction` states its action. |
| `TransformChain.PAction` | kinect_calibration/src/calibrate.cpp:479-481 | P gives `(fx x + cx z, fy y + cy z, z)` and ignores the fourth component. |
| `TransformChain.Registration` | kinect_calibration/src/calibrate.cpp:483 | It has no contract of its own: it forms (P*S)*Q. `TransformChain.RegistrationApplies` and `TransformChain.RegistrationOfPoint` state what D does. |
| `TransformChain.RegistrationApplies` | kinect_calibration/src/calibrate.cpp:483 | Applying the single matrix D = P*S*Q equals applying Q, then S, then P. |
| `TransformChain.ProjectPixel` | kinect_calibration/src/calibrate.cpp:552-557 | A depth pixel has no RGB cell exactly when the third component of D p is 0. Otherwise its cell is the `(int)(x + 0.5)` rounding of the two perspective-divided coordinates. |
| `TransformChain.IdentityStages` | kinect_calibration/src/calibrate.cpp:459-481 | Take identical square-pixel cameras, no rotation and no translation. Then P(S(Q(j, i, d, 1))) is `fx (j, i, 1)` whatever the disparity. |
| `TransformChain.IdentityChain` | kinect_calibration/src/calibrate.cpp:483 | The same holds for the composed D. |
| `TransformChain.ProjectScaledPixel` | kinect_calibration/src/calibrate.cpp:555-557 | A pixel whose image under D is a nonzero multiple of (j, i, 1) lands on RGB cell (j, i). |
| `TransformChain.RegistrationOfPoint` | kinect_calibration/src/calibrate.cpp:459-483 | Take any point X = (x, y, z) of the depth camera's frame with z != 0, seen at depth pixel `(fx x / z + cx, fx y / z + cy)` with disparity `fx b / z`, where fx, cx and cy are the depth camera's. Q uses the single focal length fx for both axes. Then D maps that pixel to `fx / z` times P (R X + T, 1), a nonzero multiple. |
| `TransformChain.PinholeDivision` | kinect_calibration/src/calibrate.cpp:479-481 | The perspective division of P (Y, 1) is the pinhole projection `(fx Y.x / Y.z + cx, fy Y.y / Y.z + cy)` through the RGB camera. |
| `TransformChain.ProjectPixelIsPinhole` | kinect_calibration/src/calibrate.cpp:552-557 | For such a point, when R X + T has nonzero depth in the RGB camera's frame, the cell of the depth pixel is the `(int)(x + 0.5)` rounding of the pinhole projection of R X + T into the RGB image. |
| `Reproject.MaxDispIsMax` | kinect_calibration/src/calibrate.cpp:559-567 | The reference z-buffer value of a cell bounds the fixed-point disparity of every pixel hitting that cell. When it is positive, some hitting pixel attains it. |
| `Reproject.MappedColor` | kinect_calibration/src/calibrate.cpp:567-569 | It has no contract of its own: it is the colour `imgdc[k]` should end with. `Reproject.Warp` proves that every pixel of imgdc gets it. |
| `Reproject.WarpPixel` | kinect_calibration/src/calibrate.cpp:549-567 | One pass of the loop body for pixel k. It writes the pixel's depth colour to imgc[k]. It writes the RGB colour under the cell to imgdc[k] only when the disparity is valid and the cell is in bounds. It changes the z-buffer cell, its colour and its owner only when the cell is in bounds and the stored value is strictly below the pixel's fixed-point disparity; the stored value is that disparity modulo 2^16. |
| `Reproject.KeptStep` | kinect_calibration/src/calibrate.cpp:562-566 | Without wrap-around, one strict z-buffer update keeps each cell equal to the running maximum over the pixels seen so far. It keeps a zero cell black. A nonzero cell keeps its earliest hitting pixel that reached that maximum. |
| `Reproject.Warp` | kinect_calibration/src/calibrate.cpp:534-570 | The results have the following properties. **`imgc`:** every depth pixel gets its own depth colour, whether or not it projects inside the RGB image. **`imgdc`:** `imgdc[k]` is the RGB colour under pixel k's cell when the disparity is valid and the cell is in bounds, and black otherwise. **`imgr`:** every `imgr` value is a 16-bit value. When no disparity reaches 2^16, each cell holds the maximum fixed-point disparity of the pixels hitting it, or 0 if there are none. **`imgrc`:** a zero cell stays black. A nonzero cell has the colour of a hitting pixel that reached the maximum while every earlier hitting pixel stayed strictly below it, so it is the earliest in raster order. |
| `CalibrationDoc.FlattenRoundTrip` | kinect_calibration/src/calibrate.cpp:124-134 | Reading a 3x3 matrix row-major into nine numbers and back is the identity in both directions. |
| `CalibrationDoc.WriteCalibration` | kinect_calibration/src/calibrate.cpp:122-152 | It has no contract of its own: it lists the fields `writeCalibration` prints. `CalibrationDoc.CalibrationLayout`, `CalibrationDoc.CalibrationMatrices` and `CalibrationDoc.CalibrationRoundTrip` state what the list holds. |
| `CalibrationDoc.CalibrationLayout` | kinect_calibration/src/calibrate.cpp:122-152 | The fields come in a fixed order: width, height, name, camera matrix, distortion, rectification, projection. Width is 640 and height is 480. Every matrix field holds exactly rows*cols numbers. The keys are spelled in the file as image_width … projection_matrix (`CalibrationDoc.KeyText`), and distinct keys are spelled differently. |
| `CalibrationDoc.CalibrationMatrices` | kinect_calibration/src/calibrate.cpp:141-151 | The rectification field is the identity. The projection field is the camera matrix followed by a zero column. |
| `CalibrationDoc.CalibrationRoundTrip` | kinect_calibration/src/calibrate.cpp:122-152 | Reading a written calibration gives back the camera matrix and the first five distortion coefficients. |
| `CalibrationDoc.WriteKinectParams` | kinect_calibration/src/calibrate.cpp:489-499 | It has no contract of its own: it lists the fields written to `kinect_params.yaml`. `CalibrationDoc.KinectParamsLayout` and `CalibrationDoc.KinectParamsRoundTrip` state what the list holds. |
| `CalibrationDoc.KinectParamsLayout` | kinect_calibration/src/calibrate.cpp:489-499 | The fields are shift_offset, projector_depth_baseline, depth_rgb_rotation and depth_rgb_translation, in that order. These are the spellings in the file, given by `CalibrationDoc.KeyText`. They hold nine numbers for the rotation and three for the translation. |
| `CalibrationDoc.KinectParamsRoundTrip` | kinect_calibration/src/calibrate.cpp:489-499 | Reading the parameters file gives back exactly B, b, R and T. |
| `Acquire.NextAngle` | kinect_calibration/src/acquire_data.cpp:164-183 | 'w' steps the angle up and 'x' steps it down, each clamped to [-30, 30]: 'w' at 30 or above gives 30, and 'x' at -30 or below gives -30. 'c' resets it to 0. Other keys leave it alone. An in-range angle stays in range. |
| `Acquire.KeyPressed` | kinect_calibration/src/acquire_data.cpp:155-250 | Escape only shuts down. After any other key, the last-sent angle equals the angle, and a tilt command is sent exactly when the angle differs from the previous last-sent one. The angle stays in range. Shutdown is sent exactly on Escape. |
| `Acquire.KeyKeepsSettled` | kinect_calibration/src/acquire_data.cpp:164-183 | Every key but Escape keeps the angle in range and in sync with the device. |
| `Acquire.ToggleIr` | kinect_calibration/src/acquire_data.cpp:185-198 | 'i' flips the IR mode and changes nothing else. Entering IR mode selects the IR format and starts IR. Leaving selects RGB and starts RGB. It sends nothing else except a pending tilt (the current angle, when it differs from the last one sent). Pressing it twice restores the state. |
| `Acquire.SaveKey` | kinect_calibration/src/acquire_data.cpp:201-209 | In IR mode 's' sets only saveIR. Otherwise it sets saveRGB and saveDepth and leaves saveIR unchanged. It makes no device call and sends nothing else except a pending tilt. |
| `Acquire.BackKey` | kinect_calibration/src/acquire_data.cpp:212-216 | 'b' decrements ir_num in IR mode, and rgb_num and depth_num otherwise, with no lower bound. It makes no device call and sends nothing else except a pending tilt. From the initial state the next RGB file number becomes -1. |
| `Acquire.LedKeys` | kinect_calibration/src/acquire_data.cpp:218-245 | Keys '0' to '6' change no state variable and send only their LED command. |
| `Acquire.TiltKeys` | kinect_calibration/src/acquire_data.cpp:155-250 | 'w', 'x', 'c' and every key the handler does not recognise only move the angle. The mode, the save requests and the counters stay, and the only command sent is the tilt to the new angle, exactly when it differs from the last one sent. |
| `Acquire.RunKeys` | kinect_calibration/src/acquire_data.cpp:155-163 | It has no contract of its own: it handles keys in order, and Escape ends the GL thread, so no later key is handled. `Acquire.RunKeysSettled` states what a key sequence keeps. |
| `Acquire.RunKeysSettled` | kinect_calibration/src/acquire_data.cpp:155-250 | Over any sequence of keys, the angle stays in [-30, 30] and in sync, and no tilt outside that range is ever sent. |
| `Acquire.TiltCommandsInRange` | kinect_calibration/src/acquire_data.cpp:247-249 | The only tilt a key sends is the new angle, which is in range. |
| `Acquire.DepthFrame` | kinect_calibration/src/acquire_data.cpp:315-329 | A depth frame writes a file exactly when saveDepth is set. The file uses number depth_num, then the counter advances by one and the flag is cleared. Nothing else in the state changes. |
| `Acquire.RgbFrame` | kinect_calibration/src/acquire_data.cpp:417-427 | An RGB frame writes a file only when a save is pending and the board was detected in that frame. The file gets number rgb_num, which then advances once. Otherwise nothing changes. |
| `Acquire.IrFrame` | kinect_calibration/src/acquire_data.cpp:476-486 | The same rule holds for IR frames and ir_num. |
| `Acquire.WriteResultIgnored` | kinect_calibration/src/acquire_data.cpp:322-328 | Whether `imwrite` succeeds changes nothing in any callback. |
| `Acquire.RgbRequestServedOnce` | kinect_calibration/src/acquire_data.cpp:417-427 | A pending RGB request survives frames without a board. It is served by the first frame with one, writing one file and advancing the counter once. Without a request, nothing is written. |
| `Acquire.SwapRB` | kinect_calibration/src/acquire_data.cpp:392-397 | The conversion swaps bytes 0 and 2 of every pixel and keeps byte 1. |
| `Acquire.SwapRBInvolution` | kinect_calibration/src/acquire_data.cpp:410-415 | The redraw swap undoes the conversion swap, so with nothing drawn the display shows the frame received. |
| `Acquire.PreviewColor` | kinect_calibration/src/acquire_data.cpp:335-368 | It has no contract of its own: it is depth_cb's switch on `pval >> 8`. `Acquire.PreviewMatchesRamp` relates it to setDepthColor. |
| `Acquire.DepthPreview` | kinect_calibration/src/acquire_data.cpp:333-369 | The preview has one pixel per depth reading. `Acquire.DepthPreviewIsSwappedColoring` states what each pixel is. |
| `Acquire.PreviewMatchesRamp` | kinect_calibration/src/acquire_data.cpp:333-375 | depth_cb's colour triple for a table value is setDepthColor's triple in reverse byte order. |
| `Acquire.DepthPreviewIsSwappedColoring` | kinect_calibration/src/acquire_data.cpp:333-375 | The whole live preview is the saved-image colouring with red and blue swapped, pixel for pixel. |

## Left out

- OpenCV calls are not modelled. Their results are inputs:
  - `findChessboardCorners` and `cornerSubPix` are the `Detection` of each frame;
  - the per-frame poses from `calibrateCamera` and `Rodrigues` are inputs. The `cv::transform` depth of each corner is modelled by `DepthModel.CameraDepth`, but its `float` output is idealised as exact;
  - so are `stereoCalibrate`'s R and T, `undistort`'s rectified image, `cvtColor` and `drawChessboardCorners`.
- File I/O is not modelled: `imread`, `imwrite`, `fopen`, `fprintf` and `printf`. The documents are field lists, and the text formats (`%.8f`, `%.4f`, ...) are left out.
- Floating point is idealised:
  - `powf` rounding in the gamma table is not modelled;
  - the `ir_gamma` and `g_gamma` tables with exponent 0.45 are left out;
  - `double` rounding in the disparity, the matrices and the solve is not modelled.
- `DepthModel.SolveSums` idealises `cv::solve` with `DECOMP_LU | DECOMP_NORMAL` as Cramer's rule on exact 2x2 normal equations. It fails only on an exactly singular matrix, while LU has a numerical tolerance.
- `TransformChain.ProjectPixel`: the case `q[2] == 0` is division by zero in C and has no defined cell. The model returns `None` instead of an arbitrary integer.
- `TransformChain.BuildQ`: Q is modelled only for a nonzero baseline. A zero baseline gives an infinite entry in C.
- `TransformChain.QBackProjects` also requires a nonzero focal length.
- `Disparity.Baseline` requires a nonzero focal length. With fx == 0 the C division `SHIFT_SCALE * A / f` (calibrate.cpp:341-342) gives an infinite or NaN baseline, which a real number cannot represent.
- `DepthModel.FitDepthModel` inherits that requirement from `Disparity.Baseline`. The fit with a zero focal length, which produces an infinite or NaN `b` in C, is not modelled.
- `Reproject.Warp` gets the projected cell of each depth pixel as an input, rather than computing it with D; `TransformChain.ProjectPixel` models that computation.
- `Reproject.Warp`: the nested row/column loop with the running index k is modelled as one loop over k, where row = k / 640 and column = k % 640.
- `Reproject.Warp` states its maximum and earliest-witness properties only when no fixed-point disparity reaches 2^16. Without that condition it states only that every stored value fits in 16 bits, because a wrapped store breaks the maximum.
- `Reproject.Warp` handles one frame. The outer loop over numbered frame pairs, and its stop at the first missing depth or RGB file, are not modelled.
- The depth-reading loop of `calibrate.cpp` is modelled through its inputs. The raw value under each corner is a per-corner input. The file loop's stop at the first missing depth image is the parameter nDepth.
- Threads are not modelled: the pthread mutex and condition variable, `got_frames`, `DrawGLScene`, the GLUT thread and the `die` join.
- Device plumbing is not modelled: libfreenect setup, event pumping, device enumeration and the `atoi(argv[1])` device number. Device calls in `keyPressed` become emitted commands.
- Option parsing is not modelled. Neither is its acceptance test, which exits with status 1 when a board dimension, the square size or the directory is missing (calibrate.cpp:196-202, acquire_data.cpp:546-552).
- `ir_cb` is modelled only through its save logic. Its conversion of the 16-bit IR image and its display loop are left out.
- The frame counter `s_num` (acquire_data.cpp:67) is declared but never used, so it is left out.
- The program does not compare the number of RGB frames with the number of IR frames. It first pairs the IR `pats` with the RGB corner lists in `calibrateCamera(pats, pointsRGB, ...)` (calibrate.cpp:395), then passes both lists to `stereoCalibrate` (calibrate.cpp:438-440). Both calls are foreign, so neither is modelled.
