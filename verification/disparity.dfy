/** Disparity arithmetic of the registration step: raw Kinect shift values
    to disparity, the "invalid" clamp, the 16x fixed-point value kept in the
    occlusion buffer, the baseline derived from the depth model, and the
    C conversions `(int)x` and `(int)(x + 0.5)` used on the way. All
    quantities are exact reals: the program computes them in `double`, and
    rounding error is not modelled. */
module Disparity {

  /** The sensor constant turning a shift difference into disparity. */
  const SHIFT_SCALE: real := 0.125

  /** C's `(int)x`: truncation toward zero. */
  function TruncToInt(x: real): (n: int)
    ensures 0.0 <= x ==> 0 <= n && n as real <= x < n as real + 1.0
    ensures x < 0.0 ==> n <= 0 && n as real - 1.0 < x <= n as real
  {
    if x >= 0.0 then x.Floor else -((-x).Floor)
  }

  /** `(int)(x + 0.5)`, the rounding used for projected pixel coordinates. */
  function RoundHalf(x: real): (n: int)
    ensures -0.5 <= x ==> n as real - 0.5 <= x < n as real + 0.5
  {
    TruncToInt(x + 0.5)
  }

  /** Because the cast truncates toward zero, every coordinate in (-1.5, 0.5)
      lands on index 0, including those in (-1.5, -0.5) whose nearest integer
      is -1 and which would otherwise fall outside the image. A coordinate of
      -1.0, for example, is rounded into column 0. */
  lemma RoundHalfNearZero(x: real)
    requires -1.5 < x < 0.5
    ensures RoundHalf(x) == 0
  {
  }

  /** shift2disp: disparity from a raw shift reading and the fitted offset B. */
  function Shift2Disp(shift: int, offset: real): (d: real)
    ensures d > 0.0 <==> (shift as real) < offset
    ensures shift as real == offset - d / SHIFT_SCALE
  {
    SHIFT_SCALE * (offset - shift as real)
  }

  /** The disparity the registration loop works with: shift2disp, with every
      non-positive value replaced by 0, the "not valid" marker. */
  function ValidDisparity(shift: int, offset: real): (d: real)
    ensures d >= 0.0
    ensures d == 0.0 <==> offset <= shift as real
    ensures d != 0.0 ==> shift as real == offset - d / SHIFT_SCALE
  {
    var d := Shift2Disp(shift, offset);
    if d <= 0.0 then 0.0 else d
  }

  /** `(int)(d*16 + 0.499)`: the 16x fixed-point disparity kept in the
      occlusion buffer. For d >= 0 the truncating cast is a floor. */
  function FixedDisparity(d: real): (n: int)
    requires d >= 0.0
    ensures n >= 0
    ensures n as real <= 16.0 * d + 0.499 < n as real + 1.0
  {
    TruncToInt(d * 16.0 + 0.499)
  }

  /** A larger disparity never gets a smaller fixed-point value. */
  lemma FixedDisparityMonotone(d1: real, d2: real)
    requires 0.0 <= d1 <= d2
    ensures FixedDisparity(d1) <= FixedDisparity(d2)
  {
  }

  /** Nearer surfaces give smaller raw shifts, hence larger buffer values:
      this is what makes "larger value wins" in the z-buffer mean
      "nearer surface wins". */
  lemma FixedDisparityAntitoneInShift(s1: int, s2: int, offset: real)
    requires s1 <= s2
    ensures FixedDisparity(ValidDisparity(s2, offset)) <= FixedDisparity(ValidDisparity(s1, offset))
  {
    FixedDisparityMonotone(ValidDisparity(s2, offset), ValidDisparity(s1, offset));
  }

  /** A positive disparity below 1/32 still yields buffer value 0. */
  lemma SmallDisparityStoresZero(d: real)
    requires 0.0 <= d < 0.03125
    ensures FixedDisparity(d) == 0
  {
  }

  /** b = 0.125 * A / fx: the projector-to-depth-camera baseline from the
      fitted depth-model coefficient A and the depth camera's focal length. */
  function Baseline(a: real, fx: real): (b: real)
    requires fx != 0.0
    ensures b * fx == SHIFT_SCALE * a
  {
    SHIFT_SCALE * a / fx
  }
}
