/** The depth colouriser shared by both programs: a 2048-entry gamma table
    from raw 11-bit depth to a ramp position, and a six-band colour ramp
    white -> red -> yellow -> green -> cyan -> blue -> black. */
module DepthColor {

  type Byte = x: int | 0 <= x < 256

  /** One 8-bit colour pixel in OpenCV's memory order: blue at offset 0,
      green at offset 1, red at offset 2. */
  datatype Bgr = Bgr(b: Byte, g: Byte, r: Byte)

  const Black := Bgr(0, 0, 0)
  const White := Bgr(255, 255, 255)

  /** Number of entries of the gamma table (raw depth is 11 bits). */
  const GAMMA_SIZE := 2048

  /** Entry i of t_gamma. The program computes ((i/2048)^3 * 6) * 6 * 256 in
      single precision and stores it in a uint16, which truncates; the exact
      value is 9 * i^3 / 2^23, so the idealised entry is its floor. */
  function Gamma(i: int): (t: int)
    requires 0 <= i < GAMMA_SIZE
    ensures 0 <= t < 9216
  {
    CubeMonotone(i, 2047);
    9 * (i * i * i) / 8388608
  }

  lemma CubeMonotone(a: int, b: int)
    requires 0 <= a <= b
    ensures a * a * a <= b * b * b
  {
    assert a * a <= b * b by {
      assert a * a <= a * b <= b * b;
    }
    assert a * a * a <= b * b * a <= b * b * b;
  }

  lemma DivMonotone(x: int, y: int, k: int)
    requires 0 <= x <= y && 0 < k
    ensures x / k <= y / k
  {
    assert k * (x / k) <= x;
    assert y < k * (y / k) + k == k * (y / k + 1);
    MulCancel(k, x / k, y / k + 1);
  }

  lemma MulCancel(k: int, a: int, b: int)
    requires 0 < k && k * a < k * b
    ensures a < b
  {
  }

  /** The table starts at 0, ends at 9202 (a rounding conversion would give
      9203), and never decreases. */
  lemma GammaShape(i: int, j: int)
    requires 0 <= i <= j < GAMMA_SIZE
    ensures Gamma(0) == 0
    ensures Gamma(2047) == 9202
    ensures Gamma(i) <= Gamma(j)
  {
    CubeMonotone(i, j);
    DivMonotone(9 * (i * i * i), 9 * (j * j * j), 8388608);
  }

  /** setDepthColor's switch on a table value: band pval >> 8 picks one of six
      linear ramps, lb = pval & 0xff is the position inside the band, and
      bands beyond 5 are black. */
  function RampColor(pval: int): (c: Bgr)
    requires 0 <= pval
    ensures pval == 0 ==> c == White
    ensures pval / 256 > 5 ==> c == Black
  {
    var lb := pval % 256;
    match pval / 256
    case 0 => Bgr(255 - lb, 255 - lb, 255)
    case 1 => Bgr(0, lb, 255)
    case 2 => Bgr(0, 255, 255 - lb)
    case 3 => Bgr(lb, 255, 0)
    case 4 => Bgr(255, 255 - lb, 0)
    case 5 => Bgr(255 - lb, 0, 0)
    case _ => Black
  }

  /** The seven colours the ramp passes through, band by band. */
  function Anchor(k: nat): Bgr
    requires k <= 6
  {
    match k
    case 0 => White
    case 1 => Bgr(0, 0, 255)
    case 2 => Bgr(0, 255, 255)
    case 3 => Bgr(0, 255, 0)
    case 4 => Bgr(255, 255, 0)
    case 5 => Bgr(255, 0, 0)
    case 6 => Black
  }

  /** Linear interpolation between two full-scale channel values at step t of
      255; exact because the channels are 0 or 255. */
  function Lerp(a: Byte, b: Byte, t: Byte): int
  {
    a + (b - a) * t / 255
  }

  /** An independent description of the ramp: inside band k the colour moves
      linearly from anchor k to anchor k + 1. */
  function RampReference(pval: nat): Bgr
  {
    var k := pval / 256;
    var t := pval % 256;
    if k >= 6 then Black
    else
      var a := Anchor(k);
      var z := Anchor(k + 1);
      var b := Lerp(a.b, z.b, t);
      var g := Lerp(a.g, z.g, t);
      var r := Lerp(a.r, z.r, t);
      if 0 <= b < 256 && 0 <= g < 256 && 0 <= r < 256 then Bgr(b, g, r) else Black
  }

  lemma LerpFullScale(a: Byte, b: Byte, t: Byte)
    requires a == 0 || a == 255
    requires b == 0 || b == 255
    ensures Lerp(a, b, t) == if a == b then a else if a < b then t else 255 - t
  {
    if a < b {
      assert (b - a) * t == 255 * t;
    } else if b < a {
      assert (b - a) * t == -(255 * t);
    }
  }

  /** The switch in setDepthColor is exactly the piecewise-linear ramp through
      the anchors. */
  lemma {:induction false} RampMatchesReference(pval: nat)
    ensures RampColor(pval) == RampReference(pval)
  {
    var k := pval / 256;
    var t := pval % 256;
    if k < 6 {
      var a := Anchor(k);
      var z := Anchor(k + 1);
      LerpFullScale(a.b, z.b, t);
      LerpFullScale(a.g, z.g, t);
      LerpFullScale(a.r, z.r, t);
      var c := Bgr(Lerp(a.b, z.b, t), Lerp(a.g, z.g, t), Lerp(a.r, z.r, t));
      assert RampReference(pval) == c;
      if k == 0 { assert c == Bgr(255 - t, 255 - t, 255); }
      else if k == 1 { assert c == Bgr(0, t, 255); }
      else if k == 2 { assert c == Bgr(0, 255, 255 - t); }
      else if k == 3 { assert c == Bgr(t, 255, 0); }
      else if k == 4 { assert c == Bgr(255, 255 - t, 0); }
      else { assert c == Bgr(255 - t, 0, 0); }
    }
  }

  /** The last colour of band k is the first colour of band k + 1, so the
      ramp has no jumps at band boundaries. */
  lemma RampBandsJoin(k: nat)
    requires k < 6
    ensures RampColor(256 * k + 255) == RampColor(256 * (k + 1))
    ensures RampColor(256 * (k + 1)) == Anchor(k + 1)
  {
    assert (256 * k + 255) / 256 == k && (256 * k + 255) % 256 == 255;
    assert (256 * (k + 1)) / 256 == k + 1 && (256 * (k + 1)) % 256 == 0;
  }

  /** Consecutive table values never change any channel by more than one. */
  lemma RampStep(pval: nat)
    ensures -1 <= RampColor(pval + 1).b - RampColor(pval).b <= 1
    ensures -1 <= RampColor(pval + 1).g - RampColor(pval).g <= 1
    ensures -1 <= RampColor(pval + 1).r - RampColor(pval).r <= 1
  {
    var k := pval / 256;
    if pval % 256 == 255 {
      assert (pval + 1) / 256 == k + 1 && (pval + 1) % 256 == 0;
      if k < 6 {
        RampBandsJoin(k);
        assert pval == 256 * k + 255;
      }
    } else {
      assert (pval + 1) / 256 == k && (pval + 1) % 256 == pval % 256 + 1;
    }
  }

  /** setDepthColor(cptr, d): the colour of raw depth d. The table is indexed
      without a check, so d must be below 2048. */
  function SetDepthColor(d: int): (c: Bgr)
    requires 0 <= d < GAMMA_SIZE
  {
    RampColor(Gamma(d))
  }

  /** Raw depth 0 is white; raw depths from 1127 up, including the sensor's
      "no reading" value 2047, are black, and no smaller depth is. */
  lemma SetDepthColorBlackIff(d: int)
    requires 0 <= d < GAMMA_SIZE
    ensures SetDepthColor(0) == White
    ensures SetDepthColor(d) == Black <==> d >= 1127
  {
    assert Gamma(1126) == 1531;
    assert Gamma(1127) == 1535;
    assert SetDepthColor(1127) == Black;
    if d >= 1127 {
      GammaShape(1127, d);
      if Gamma(d) >= 1536 {
        assert Gamma(d) / 256 >= 6;
      } else {
        assert Gamma(d) == 1535;
      }
    } else {
      GammaShape(d, 1126);
      var p := Gamma(d);
      assert p <= 1531;
      var lb := p % 256;
      if p / 256 == 5 {
        assert lb <= 251;
      }
    }
  }
}
