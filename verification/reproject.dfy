/** The output-image loop of calibrate.cpp: every depth pixel k (raster
    order, k = i * COLS + j) gets a disparity from its raw shift, is
    projected by D to an RGB cell, and
      - imgc[k] receives the pixel's own depth colour;
      - if the cell is inside the RGB image, a 16x fixed-point disparity
        z-buffer imgr keeps the largest value seen at that cell (nearest
        surface), imgrc the depth colour of the pixel that set it, and
        imgdc[k] the RGB colour under the cell when the disparity is valid.
    The projected cell of each pixel is an input (TransformChain.ProjectPixel
    describes how D and the rounding produce it). */
module Reproject {
  import opened DepthColor
  import opened Disparity
  import opened TransformChain

  const ROWS := 480
  const COLS := 640
  const PIXELS := ROWS * COLS

  /** imgr has 16-bit unsigned pixels: a store keeps the value modulo 2^16. */
  const UINT16_RANGE := 65536

  /** One frame's inputs: the raw depth image, the RGB cell each depth pixel
      projects to, and the rectified RGB image, all in raster order. */
  datatype Frame = Frame(raw: seq<int>, proj: seq<Cell>, rgb: seq<Bgr>)

  /** Image sizes are fixed, and each raw value indexes the 2048-entry gamma
      table without a check, so it must be an 11-bit reading. */
  predicate WellFormed(f: Frame)
  {
    && |f.raw| == PIXELS && |f.proj| == PIXELS && |f.rgb| == PIXELS
    && forall k :: 0 <= k < PIXELS ==> 0 <= f.raw[k] < GAMMA_SIZE
  }

  predicate InBounds(c: Cell)
  {
    0 <= c.u < COLS && 0 <= c.v < ROWS
  }

  /** Raster index kk = v * COLS + u of an in-bounds cell. */
  function Target(c: Cell): (kk: int)
    requires InBounds(c)
    ensures 0 <= kk < PIXELS
  {
    c.v * COLS + c.u
  }

  /** The fixed-point disparity (int)(d * 16 + 0.499) of pixel k. */
  function Disp(f: Frame, offset: real, k: int): (n: nat)
    requires 0 <= k < |f.raw|
  {
    FixedDisparity(ValidDisparity(f.raw[k], offset))
  }

  /** Pixel k projects inside the RGB image onto cell c. */
  predicate Hits(f: Frame, k: int, c: int)
    requires 0 <= k < |f.proj|
  {
    InBounds(f.proj[k]) && Target(f.proj[k]) == c
  }

  /** Reference for the z-buffer: the largest fixed-point disparity among
      pixels 0 .. n-1 that hit cell c, or 0 when there is none. */
  function MaxDisp(f: Frame, offset: real, n: nat, c: int): nat
    requires n <= |f.raw| && n <= |f.proj|
  {
    if n == 0 then 0
    else
      var m := MaxDisp(f, offset, n - 1, c);
      if Hits(f, n - 1, c) && m < Disp(f, offset, n - 1) then Disp(f, offset, n - 1) else m
  }

  /** MaxDisp is the maximum: no hitting pixel exceeds it, and a positive
      value is reached by some hitting pixel. */
  lemma {:induction false} MaxDispIsMax(f: Frame, offset: real, n: nat, c: int)
    requires n <= |f.raw| && n <= |f.proj|
    ensures forall k :: 0 <= k < n && Hits(f, k, c) ==> Disp(f, offset, k) <= MaxDisp(f, offset, n, c)
    ensures MaxDisp(f, offset, n, c) > 0 ==>
      exists k :: 0 <= k < n && Hits(f, k, c) && Disp(f, offset, k) == MaxDisp(f, offset, n, c)
  {
    if n > 0 {
      MaxDispIsMax(f, offset, n - 1, c);
      var m := MaxDisp(f, offset, n - 1, c);
      if Hits(f, n - 1, c) && m < Disp(f, offset, n - 1) {
        assert Hits(f, n - 1, c) && Disp(f, offset, n - 1) == MaxDisp(f, offset, n, c);
      } else if m > 0 {
        var w :| 0 <= w < n - 1 && Hits(f, w, c) && Disp(f, offset, w) == m;
        assert Hits(f, w, c) && Disp(f, offset, w) == MaxDisp(f, offset, n, c);
      }
    }
  }

  /** No pixel's fixed-point disparity reaches 2^16, so storing it into imgr
      loses nothing. */
  predicate NoWrap(f: Frame, offset: real)
    requires |f.raw| == PIXELS
  {
    forall k :: 0 <= k < PIXELS ==> Disp(f, offset, k) < UINT16_RANGE
  }

  /** What the z-buffer holds after pixels 0 .. k-1: each cell the running
      maximum, black colour where nothing was stored, and otherwise the
      colour of a witness pixel `who[c]` that hit c with that value while
      every earlier hitting pixel stayed strictly below it. */
  ghost predicate Kept(f: Frame, offset: real, k: nat, imgr: seq<int>, imgrc: seq<Bgr>, who: seq<int>)
    requires WellFormed(f) && k <= PIXELS
    requires |imgr| == PIXELS && |imgrc| == PIXELS && |who| == PIXELS
  {
    && (forall c :: 0 <= c < PIXELS ==> imgr[c] == MaxDisp(f, offset, k, c))
    && (forall c :: 0 <= c < PIXELS && imgr[c] == 0 ==> imgrc[c] == Black)
    && (forall c :: 0 <= c < PIXELS && imgr[c] != 0 ==>
          && 0 <= who[c] < k && Hits(f, who[c], c) && Disp(f, offset, who[c]) == imgr[c]
          && MaxDisp(f, offset, who[c], c) < imgr[c] && imgrc[c] == SetDepthColor(f.raw[who[c]]))
  }

  /** Whether pixel k passes the strict z-buffer test `imgr[kk] < disp`. */
  predicate Wins(f: Frame, offset: real, k: nat, imgr: seq<int>)
    requires WellFormed(f) && k < PIXELS && |imgr| == PIXELS
  {
    InBounds(f.proj[k]) && imgr[Target(f.proj[k])] < Disp(f, offset, k)
  }

  /** One z-buffer update keeps imgr equal to the running maximum: pixel k
      either raises its cell to its own disparity or changes nothing. */
  lemma BufferStep(f: Frame, offset: real, k: nat, before: seq<int>, after: seq<int>)
    requires WellFormed(f) && k < PIXELS && NoWrap(f, offset)
    requires |before| == PIXELS
    requires forall c :: 0 <= c < PIXELS ==> before[c] == MaxDisp(f, offset, k, c)
    requires Wins(f, offset, k, before) ==>
      after == before[Target(f.proj[k]) := Disp(f, offset, k) % UINT16_RANGE]
    requires !Wins(f, offset, k, before) ==> after == before
    ensures forall c :: 0 <= c < PIXELS ==> after[c] == MaxDisp(f, offset, k + 1, c)
  {
    var disp := Disp(f, offset, k);
    assert disp < UINT16_RANGE;
    assert disp % UINT16_RANGE == disp;
    forall c | 0 <= c < PIXELS
      ensures after[c] == MaxDisp(f, offset, k + 1, c)
    {
      var m := MaxDisp(f, offset, k, c);
      assert before[c] == m;
      if Hits(f, k, c) {
        assert Target(f.proj[k]) == c;
        if m < disp {
          assert Wins(f, offset, k, before);
          assert after[c] == disp;
        } else {
          assert !Wins(f, offset, k, before);
        }
      } else {
        assert after[c] == before[c];
      }
    }
  }

  /** The whole z-buffer state is kept by one step of the loop. */
  lemma KeptStep(f: Frame, offset: real, k: nat,
                 r0: seq<int>, rc0: seq<Bgr>, w0: seq<int>,
                 r1: seq<int>, rc1: seq<Bgr>, w1: seq<int>)
    requires WellFormed(f) && k < PIXELS && NoWrap(f, offset)
    requires |r0| == PIXELS && |rc0| == PIXELS && |w0| == PIXELS
    requires Kept(f, offset, k, r0, rc0, w0)
    requires Wins(f, offset, k, r0) ==>
      var kk := Target(f.proj[k]);
      && r1 == r0[kk := Disp(f, offset, k) % UINT16_RANGE]
      && rc1 == rc0[kk := SetDepthColor(f.raw[k])]
      && w1 == w0[kk := k]
    requires !Wins(f, offset, k, r0) ==> r1 == r0 && rc1 == rc0 && w1 == w0
    ensures |r1| == PIXELS && |rc1| == PIXELS && |w1| == PIXELS
    ensures Kept(f, offset, k + 1, r1, rc1, w1)
  {
    BufferStep(f, offset, k, r0, r1);
    forall c | 0 <= c < PIXELS && r1[c] != 0
      ensures && 0 <= w1[c] < k + 1 && Hits(f, w1[c], c) && Disp(f, offset, w1[c]) == r1[c]
              && MaxDisp(f, offset, w1[c], c) < r1[c] && rc1[c] == SetDepthColor(f.raw[w1[c]])
    {
      if Wins(f, offset, k, r0) && c == Target(f.proj[k]) {
        assert r0[c] == MaxDisp(f, offset, k, c);
      } else {
        assert r1[c] == r0[c] && w1[c] == w0[c] && rc1[c] == rc0[c];
      }
    }
  }

  /** After the last pixel the kept state is the finished z-buffer: every
      cell holds the maximum, empty cells are black, and every other cell
      has the colour of the earliest pixel that reached its maximum. */
  lemma KeptFinal(f: Frame, offset: real, imgr: seq<int>, imgrc: seq<Bgr>, who: seq<int>)
    requires WellFormed(f)
    requires |imgr| == PIXELS && |imgrc| == PIXELS && |who| == PIXELS
    requires Kept(f, offset, PIXELS, imgr, imgrc, who)
    ensures forall c :: 0 <= c < PIXELS ==> imgr[c] == MaxDisp(f, offset, PIXELS, c)
    ensures forall c :: 0 <= c < PIXELS && imgr[c] == 0 ==> imgrc[c] == Black
    ensures forall c :: 0 <= c < PIXELS && imgr[c] != 0 ==>
      exists w :: 0 <= w < PIXELS && Hits(f, w, c) && Disp(f, offset, w) == imgr[c] &&
                  MaxDisp(f, offset, w, c) < imgr[c] && imgrc[c] == SetDepthColor(f.raw[w])
  {
    forall c | 0 <= c < PIXELS && imgr[c] != 0
      ensures exists w :: 0 <= w < PIXELS && Hits(f, w, c) && Disp(f, offset, w) == imgr[c] &&
                MaxDisp(f, offset, w, c) < imgr[c] && imgrc[c] == SetDepthColor(f.raw[w])
    {
      var w := who[c];
      assert Hits(f, w, c) && Disp(f, offset, w) == imgr[c];
    }
  }

  /** The colour written to imgdc[k]: the RGB pixel under the projected cell
      when the disparity is valid and the cell is inside the image, black
      (the zero-initialised image) otherwise. */
  function MappedColor(f: Frame, offset: real, k: int): Bgr
    requires WellFormed(f) && 0 <= k < PIXELS
  {
    if ValidDisparity(f.raw[k], offset) != 0.0 && InBounds(f.proj[k])
    then f.rgb[Target(f.proj[k])] else Black
  }

  /** One pass of the loop body for depth pixel k: colour the pixel into
      imgc, skip the rest when its cell is outside the RGB image, otherwise
      apply the strict z-buffer test and, for a valid disparity, copy the
      RGB colour under the cell into imgdc. */
  method WarpPixel(f: Frame, offset: real, k: nat,
                   imgr: seq<int>, imgrc: seq<Bgr>, imgc: seq<Bgr>, imgdc: seq<Bgr>, ghost who: seq<int>)
    returns (imgr1: seq<int>, imgrc1: seq<Bgr>, imgc1: seq<Bgr>, imgdc1: seq<Bgr>, ghost who1: seq<int>)
    requires WellFormed(f) && k < PIXELS
    requires |imgr| == PIXELS && |imgrc| == PIXELS && |imgc| == PIXELS && |imgdc| == PIXELS && |who| == PIXELS
    ensures imgc1 == imgc[k := SetDepthColor(f.raw[k])]
    ensures ValidDisparity(f.raw[k], offset) != 0.0 && InBounds(f.proj[k]) ==>
      imgdc1 == imgdc[k := f.rgb[Target(f.proj[k])]]
    ensures !(ValidDisparity(f.raw[k], offset) != 0.0 && InBounds(f.proj[k])) ==> imgdc1 == imgdc
    ensures Wins(f, offset, k, imgr) ==>
      var kk := Target(f.proj[k]);
      && imgr1 == imgr[kk := Disp(f, offset, k) % UINT16_RANGE]
      && imgrc1 == imgrc[kk := SetDepthColor(f.raw[k])]
      && who1 == who[kk := k]
    ensures !Wins(f, offset, k, imgr) ==> imgr1 == imgr && imgrc1 == imgrc && who1 == who
  {
    imgr1, imgrc1, imgdc1, who1 := imgr, imgrc, imgdc, who;
    var d := ValidDisparity(f.raw[k], offset);
    var cell := f.proj[k];
    imgc1 := imgc[k := SetDepthColor(f.raw[k])];
    if InBounds(cell) {
      var disp := FixedDisparity(d);
      var kk := cell.v * COLS + cell.u;
      if imgr[kk] < disp {
        imgr1 := imgr[kk := disp % UINT16_RANGE];
        imgrc1 := imgrc[kk := SetDepthColor(f.raw[k])];
        who1 := who[kk := k];
      }
      if d != 0.0 {
        imgdc1 := imgdc[k := f.rgb[kk]];
      }
    }
  }

  /** What the loop of Warp has established after k depth pixels. */
  ghost predicate Progress(f: Frame, offset: real, k: nat,
                           imgr: seq<int>, imgrc: seq<Bgr>, imgc: seq<Bgr>, imgdc: seq<Bgr>, who: seq<int>)
    requires WellFormed(f) && k <= PIXELS
  {
    && |imgr| == PIXELS && |imgrc| == PIXELS && |imgc| == PIXELS && |imgdc| == PIXELS && |who| == PIXELS
    && (forall c :: 0 <= c < PIXELS ==> 0 <= imgr[c] < UINT16_RANGE)
    && (forall j :: 0 <= j < k ==> imgc[j] == SetDepthColor(f.raw[j]))
    && (forall j :: 0 <= j < k ==> imgdc[j] == MappedColor(f, offset, j))
    && (forall j :: k <= j < PIXELS ==> imgdc[j] == Black)
    && (NoWrap(f, offset) ==> Kept(f, offset, k, imgr, imgrc, who))
  }

  /** One WarpPixel call takes Progress from k to k + 1. */
  lemma ProgressStep(f: Frame, offset: real, k: nat,
                     r0: seq<int>, rc0: seq<Bgr>, c0: seq<Bgr>, dc0: seq<Bgr>, w0: seq<int>,
                     r1: seq<int>, rc1: seq<Bgr>, c1: seq<Bgr>, dc1: seq<Bgr>, w1: seq<int>)
    requires WellFormed(f) && k < PIXELS
    requires Progress(f, offset, k, r0, rc0, c0, dc0, w0)
    requires c1 == c0[k := SetDepthColor(f.raw[k])]
    requires ValidDisparity(f.raw[k], offset) != 0.0 && InBounds(f.proj[k]) ==>
      dc1 == dc0[k := f.rgb[Target(f.proj[k])]]
    requires !(ValidDisparity(f.raw[k], offset) != 0.0 && InBounds(f.proj[k])) ==> dc1 == dc0
    requires Wins(f, offset, k, r0) ==>
      var kk := Target(f.proj[k]);
      && r1 == r0[kk := Disp(f, offset, k) % UINT16_RANGE]
      && rc1 == rc0[kk := SetDepthColor(f.raw[k])]
      && w1 == w0[kk := k]
    requires !Wins(f, offset, k, r0) ==> r1 == r0 && rc1 == rc0 && w1 == w0
    ensures Progress(f, offset, k + 1, r1, rc1, c1, dc1, w1)
  {
    assert dc1[k] == MappedColor(f, offset, k);
    if NoWrap(f, offset) {
      KeptStep(f, offset, k, r0, rc0, w0, r1, rc1, w1);
    }
  }

  /** Before the first pixel: everything zeroed is Progress at 0. */
  lemma ProgressInit(f: Frame, offset: real, imgr: seq<int>, imgrc: seq<Bgr>, imgc: seq<Bgr>, imgdc: seq<Bgr>, who: seq<int>)
    requires WellFormed(f)
    requires imgr == seq(PIXELS, _ => 0) && who == seq(PIXELS, _ => 0)
    requires imgrc == seq(PIXELS, _ => Black) && imgc == seq(PIXELS, _ => Black) && imgdc == seq(PIXELS, _ => Black)
    ensures Progress(f, offset, 0, imgr, imgrc, imgc, imgdc, who)
  {
    assert Kept(f, offset, 0, imgr, imgrc, who);
  }

  /** After the last pixel, Progress gives everything Warp promises. */
  lemma ProgressFinal(f: Frame, offset: real, imgr: seq<int>, imgrc: seq<Bgr>, imgc: seq<Bgr>, imgdc: seq<Bgr>, who: seq<int>)
    requires WellFormed(f)
    requires Progress(f, offset, PIXELS, imgr, imgrc, imgc, imgdc, who)
    ensures |imgr| == PIXELS && |imgrc| == PIXELS && |imgc| == PIXELS && |imgdc| == PIXELS
    ensures forall c :: 0 <= c < PIXELS ==> 0 <= imgr[c] < UINT16_RANGE
    ensures forall k :: 0 <= k < PIXELS ==> imgc[k] == SetDepthColor(f.raw[k])
    ensures forall k :: 0 <= k < PIXELS ==> imgdc[k] == MappedColor(f, offset, k)
    ensures NoWrap(f, offset) ==>
      forall c :: 0 <= c < PIXELS ==> imgr[c] == MaxDisp(f, offset, PIXELS, c)
    ensures NoWrap(f, offset) ==>
      forall c :: 0 <= c < PIXELS && imgr[c] == 0 ==> imgrc[c] == Black
    ensures NoWrap(f, offset) ==>
      forall c :: 0 <= c < PIXELS && imgr[c] != 0 ==>
        exists w :: 0 <= w < PIXELS && Hits(f, w, c) && Disp(f, offset, w) == imgr[c] &&
                    MaxDisp(f, offset, w, c) < imgr[c] && imgrc[c] == SetDepthColor(f.raw[w])
  {
    if NoWrap(f, offset) {
      KeptFinal(f, offset, imgr, imgrc, who);
    }
  }

  /** WarpPixel seen from the loop: it takes Progress from k to k + 1. */
  method WarpStep(f: Frame, offset: real, k: nat,
                  imgr: seq<int>, imgrc: seq<Bgr>, imgc: seq<Bgr>, imgdc: seq<Bgr>, ghost who: seq<int>)
    returns (imgr1: seq<int>, imgrc1: seq<Bgr>, imgc1: seq<Bgr>, imgdc1: seq<Bgr>, ghost who1: seq<int>)
    requires WellFormed(f) && k < PIXELS
    requires Progress(f, offset, k, imgr, imgrc, imgc, imgdc, who)
    ensures Progress(f, offset, k + 1, imgr1, imgrc1, imgc1, imgdc1, who1)
  {
    imgr1, imgrc1, imgc1, imgdc1, who1 := WarpPixel(f, offset, k, imgr, imgrc, imgc, imgdc, who);
    ProgressStep(f, offset, k, imgr, imgrc, imgc, imgdc, who, imgr1, imgrc1, imgc1, imgdc1, who1);
  }

  /** The loop over one frame. All four images start zeroed. */
  method Warp(f: Frame, offset: real) returns (imgr: seq<int>, imgrc: seq<Bgr>, imgc: seq<Bgr>, imgdc: seq<Bgr>)
    requires WellFormed(f)
    ensures |imgr| == PIXELS && |imgrc| == PIXELS && |imgc| == PIXELS && |imgdc| == PIXELS
    ensures forall c :: 0 <= c < PIXELS ==> 0 <= imgr[c] < UINT16_RANGE
    ensures forall k :: 0 <= k < PIXELS ==> imgc[k] == SetDepthColor(f.raw[k])
    ensures forall k :: 0 <= k < PIXELS ==> imgdc[k] == MappedColor(f, offset, k)
    ensures NoWrap(f, offset) ==>
      forall c :: 0 <= c < PIXELS ==> imgr[c] == MaxDisp(f, offset, PIXELS, c)
    ensures NoWrap(f, offset) ==>
      forall c :: 0 <= c < PIXELS && imgr[c] == 0 ==> imgrc[c] == Black
    ensures NoWrap(f, offset) ==>
      forall c :: 0 <= c < PIXELS && imgr[c] != 0 ==>
        exists w :: 0 <= w < PIXELS && Hits(f, w, c) && Disp(f, offset, w) == imgr[c] &&
                    MaxDisp(f, offset, w, c) < imgr[c] && imgrc[c] == SetDepthColor(f.raw[w])
  {
    imgr := seq(PIXELS, _ => 0);
    imgrc := seq(PIXELS, _ => Black);
    imgc := seq(PIXELS, _ => Black);
    imgdc := seq(PIXELS, _ => Black);
    ghost var who: seq<int> := seq(PIXELS, _ => 0);
    var k := 0;
    ProgressInit(f, offset, imgr, imgrc, imgc, imgdc, who);
    while k < PIXELS
      invariant 0 <= k <= PIXELS
      invariant Progress(f, offset, k, imgr, imgrc, imgc, imgdc, who)
      // Progress spelled out: pixels before k are coloured, pixels from k
      // on are still black in imgdc, and without wrap-around the z-buffer
      // holds the running maximum with its earliest writer.
      invariant forall j :: 0 <= j < k ==> imgc[j] == SetDepthColor(f.raw[j])
      invariant forall j :: 0 <= j < k ==> imgdc[j] == MappedColor(f, offset, j)
      invariant forall j :: k <= j < PIXELS ==> imgdc[j] == Black
      invariant NoWrap(f, offset) ==> Kept(f, offset, k, imgr, imgrc, who)
    {
      imgr, imgrc, imgc, imgdc, who := WarpStep(f, offset, k, imgr, imgrc, imgc, imgdc, who);
      k := k + 1;
    }
    ProgressFinal(f, offset, imgr, imgrc, imgc, imgdc, who);
  }
}
