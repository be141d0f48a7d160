/** The data-acquisition program (acquire_data.cpp): the keyboard handler
    that tilts the sensor, switches between the RGB and IR streams, requests
    saves and backs up frame numbers, and the frame callbacks that decide
    when an image is written and which number it gets. Device calls are
    returned as commands; file writes as the index of the file written. */
module Acquire {
  import opened Outcome
  import opened DepthColor

  /** The sensor's tilt range in degrees. */
  const MAX_TILT := 30
  const MIN_TILT := -30

  const ESC: char := 27 as char

  datatype Led = LedGreen | LedRed | LedYellow | LedBlinkYellow | LedBlinkGreen | LedBlinkRedYellow | LedOff

  datatype Format = FormatRgb | FormatIr

  /** What the handler asks of the device (or of the GL thread, for Shutdown). */
  datatype Command =
    | Shutdown                 // stop the capture thread and close the window
    | SetFormat(fmt: Format)
    | StartRgb
    | StartIr
    | SetLed(led: Led)
    | SetTilt(degrees: int)

  /** The program's globals that the handler and the callbacks share. */
  datatype State = State(
    angle: int, angleLast: int, irMode: bool,
    saveIR: bool, saveRGB: bool, saveDepth: bool,
    irNum: int, rgbNum: int, depthNum: int)

  const Initial := State(0, 0, false, false, false, false, 0, 0, 0)

  /** The tilt angle lies in the sensor's range and the device has been told
      the current angle. */
  predicate Settled(s: State)
  {
    MIN_TILT <= s.angle <= MAX_TILT && s.angleLast == s.angle
  }

  /** The LED mode selected by keys '0' .. '6'. */
  function LedOf(key: char): Option<Led>
  {
    match key
    case '1' => Some(LedGreen)
    case '2' => Some(LedRed)
    case '3' => Some(LedYellow)
    case '4' => Some(LedBlinkYellow)
    case '5' => Some(LedBlinkGreen)
    case '6' => Some(LedBlinkRedYellow)
    case '0' => Some(LedOff)
    case _ => None
  }

  /** The new tilt angle: 'w' steps up and 'x' steps down, each clamped to
      the range, 'c' centres. */
  function NextAngle(angle: int, key: char): (a: int)
    ensures MIN_TILT <= angle <= MAX_TILT ==> MIN_TILT <= a <= MAX_TILT
    ensures key == 'c' ==> a == 0
    ensures key !in {'w', 'x', 'c'} ==> a == angle
    ensures key == 'w' && angle < MAX_TILT ==> a == angle + 1
    ensures key == 'x' && angle > MIN_TILT ==> a == angle - 1
    ensures key == 'w' && angle >= MAX_TILT ==> a == MAX_TILT
    ensures key == 'x' && angle <= MIN_TILT ==> a == MIN_TILT
  {
    if key == 'w' then (if angle + 1 > MAX_TILT then MAX_TILT else angle + 1)
    else if key == 'c' then 0
    else if key == 'x' then (if angle - 1 < MIN_TILT then MIN_TILT else angle - 1)
    else angle
  }

  datatype Reaction = Reaction(state: State, cmds: seq<Command>)

  /** keyPressed. Escape shuts down without reaching the tilt update; every
      other key runs through the chain of tests and ends by sending the tilt
      when the angle differs from the last one sent. */
  function KeyPressed(s: State, key: char): (r: Reaction)
    ensures key == ESC ==> r == Reaction(s, [Shutdown])
    ensures key != ESC ==> r.state.angleLast == r.state.angle
    ensures key != ESC ==>
      (SetTilt(r.state.angle) in r.cmds <==> r.state.angle != s.angleLast)
    ensures MIN_TILT <= s.angle <= MAX_TILT ==> MIN_TILT <= r.state.angle <= MAX_TILT
    ensures Shutdown in r.cmds <==> key == ESC
  {
    if key == ESC then Reaction(s, [Shutdown])
    else
      var angle := NextAngle(s.angle, key);
      var modeCmds :=
        if key == 'i' then
          (if s.irMode then [SetFormat(FormatRgb), StartRgb] else [SetFormat(FormatIr), StartIr])
        else [];
      var irMode := if key == 'i' then !s.irMode else s.irMode;
      var s1 := s.(angle := angle, irMode := irMode);
      var s2 :=
        if key == 's' then
          (if irMode then s1.(saveIR := true) else s1.(saveRGB := true, saveDepth := true))
        else s1;
      var s3 :=
        if key == 'b' then
          (if irMode then s2.(irNum := s2.irNum - 1)
           else s2.(rgbNum := s2.rgbNum - 1, depthNum := s2.depthNum - 1))
        else s2;
      var ledCmds := match LedOf(key) case Some(l) => [SetLed(l)] case None => [];
      var tiltCmds := if angle != s.angleLast then [SetTilt(angle)] else [];
      Reaction(s3.(angleLast := angle), modeCmds + ledCmds + tiltCmds)
  }

  /** Every key but Escape leaves a settled state settled. */
  lemma KeyKeepsSettled(s: State, key: char)
    requires Settled(s) && key != ESC
    ensures Settled(KeyPressed(s, key).state)
  {
  }

  /** The tilt command a key that leaves the angle alone still sends: the
      current angle, when the device has not yet been told it. */
  function PendingTilt(s: State): seq<Command>
  {
    if s.angle != s.angleLast then [SetTilt(s.angle)] else []
  }

  /** 'i' flips the mode and restarts the colour stream in the new format,
      and sends nothing else but a pending tilt; pressed twice it restores
      the mode and the save flags and counters. */
  lemma ToggleIr(s: State)
    ensures KeyPressed(s, 'i') ==
      Reaction(s.(irMode := !s.irMode, angleLast := s.angle),
               (if s.irMode then [SetFormat(FormatRgb), StartRgb] else [SetFormat(FormatIr), StartIr])
               + PendingTilt(s))
    ensures KeyPressed(KeyPressed(s, 'i').state, 'i').state == s.(angleLast := s.angle)
  {
  }

  /** 's' in IR mode raises only the IR request; otherwise it raises the RGB
      and depth requests and leaves the IR one as it was. It sends no device
      command but a pending tilt. */
  lemma SaveKey(s: State)
    ensures s.irMode ==>
      KeyPressed(s, 's') == Reaction(s.(saveIR := true, angleLast := s.angle), PendingTilt(s))
    ensures !s.irMode ==>
      KeyPressed(s, 's') ==
        Reaction(s.(saveRGB := true, saveDepth := true, angleLast := s.angle), PendingTilt(s))
  {
  }

  /** 'b' steps back the counters of the current mode, with no lower bound:
      pressed at 0 it makes the next file number -1. It sends no device
      command but a pending tilt. */
  lemma BackKey(s: State)
    ensures s.irMode ==>
      KeyPressed(s, 'b') == Reaction(s.(irNum := s.irNum - 1, angleLast := s.angle), PendingTilt(s))
    ensures !s.irMode ==>
      KeyPressed(s, 'b') ==
        Reaction(s.(rgbNum := s.rgbNum - 1, depthNum := s.depthNum - 1, angleLast := s.angle),
                 PendingTilt(s))
    ensures KeyPressed(Initial, 'b').state.rgbNum == -1
  {
  }

  /** The LED keys change no state variable and send exactly the LED
      command. */
  lemma LedKeys(s: State, key: char)
    requires Settled(s) && LedOf(key).Some?
    ensures KeyPressed(s, key) == Reaction(s, [SetLed(LedOf(key).value)])
  {
  }

  /** 'w', 'x', 'c' and every key the handler does not recognise only move
      the angle: the mode, the save requests and the counters stay, and the
      one command sent, if any, is the tilt to the new angle. */
  lemma TiltKeys(s: State, key: char)
    requires key !in {ESC, 'i', 's', 'b'} && LedOf(key).None?
    ensures var a := NextAngle(s.angle, key);
      KeyPressed(s, key) ==
        Reaction(s.(angle := a, angleLast := a), if a != s.angleLast then [SetTilt(a)] else [])
  {
  }

  /** The handler over a stream of key presses; Escape ends the GL thread, so
      no later key is handled. */
  function RunKeys(s: State, keys: seq<char>): (r: Reaction)
    decreases |keys|
  {
    if |keys| == 0 then Reaction(s, [])
    else
      var first := KeyPressed(s, keys[0]);
      if keys[0] == ESC then first
      else
        var rest := RunKeys(first.state, keys[1..]);
        Reaction(rest.state, first.cmds + rest.cmds)
  }

  /** Every tilt command in the list asks for an angle in the sensor's range. */
  predicate TiltsInRange(cmds: seq<Command>)
  {
    forall i :: 0 <= i < |cmds| && cmds[i].SetTilt? ==> MIN_TILT <= cmds[i].degrees <= MAX_TILT
  }

  lemma TiltsInRangeConcat(a: seq<Command>, b: seq<Command>)
    requires TiltsInRange(a) && TiltsInRange(b)
    ensures TiltsInRange(a + b)
  {
    assert forall i :: |a| <= i < |a + b| ==> (a + b)[i] == b[i - |a|];
  }

  /** From a settled state, any sequence of keys keeps the angle in range
      and the device told, and never sends a tilt outside the range. */
  lemma {:induction false} RunKeysSettled(s: State, keys: seq<char>)
    requires Settled(s)
    decreases |keys|
    ensures Settled(RunKeys(s, keys).state)
    ensures TiltsInRange(RunKeys(s, keys).cmds)
  {
    if |keys| > 0 {
      var first := KeyPressed(s, keys[0]);
      TiltCommandsInRange(s, keys[0]);
      assert TiltsInRange(first.cmds);
      if keys[0] != ESC {
        KeyKeepsSettled(s, keys[0]);
        RunKeysSettled(first.state, keys[1..]);
        var rest := RunKeys(first.state, keys[1..]);
        assert RunKeys(s, keys) == Reaction(rest.state, first.cmds + rest.cmds);
        TiltsInRangeConcat(first.cmds, rest.cmds);
      }
    }
  }

  /** The only tilt a key can send is the new, in-range angle. */
  lemma TiltCommandsInRange(s: State, key: char)
    requires MIN_TILT <= s.angle <= MAX_TILT
    ensures forall i :: 0 <= i < |KeyPressed(s, key).cmds| && KeyPressed(s, key).cmds[i].SetTilt? ==>
      KeyPressed(s, key).cmds[i].degrees == KeyPressed(s, key).state.angle
      && MIN_TILT <= KeyPressed(s, key).cmds[i].degrees <= MAX_TILT
  {
  }

  /** The effect of one frame callback: the new state and the number of the
      file written, if any. */
  datatype FrameOutcome = FrameOutcome(state: State, saved: Option<int>)

  /** depth_cb: a pending depth request writes img_depth_<depthNum>, bumps
      the counter and clears the request, whether or not the write succeeded. */
  function DepthFrame(s: State, writeOk: bool): (r: FrameOutcome)
    ensures r.saved.Some? <==> s.saveDepth
    ensures !r.state.saveDepth
    ensures s.saveDepth ==> r.saved.value == s.depthNum && r.state.depthNum == s.depthNum + 1
    ensures s.saveDepth ==> r.state == s.(depthNum := s.depthNum + 1, saveDepth := false)
    ensures !s.saveDepth ==> r.state == s
  {
    if s.saveDepth then FrameOutcome(s.(depthNum := s.depthNum + 1, saveDepth := false), Some(s.depthNum))
    else FrameOutcome(s, None)
  }

  /** rgb_cb: the request is served only by a frame in which the board was
      detected; the write result does not matter. */
  function RgbFrame(s: State, detected: bool, writeOk: bool): (r: FrameOutcome)
    ensures r.saved.Some? <==> s.saveRGB && detected
    ensures r.saved.Some? ==> r.saved.value == s.rgbNum && r.state == s.(rgbNum := s.rgbNum + 1, saveRGB := false)
    ensures r.saved.None? ==> r.state == s
  {
    if s.saveRGB && detected then FrameOutcome(s.(rgbNum := s.rgbNum + 1, saveRGB := false), Some(s.rgbNum))
    else FrameOutcome(s, None)
  }

  /** ir_cb: the same rule for IR frames and the IR counter. */
  function IrFrame(s: State, detected: bool, writeOk: bool): (r: FrameOutcome)
    ensures r.saved.Some? <==> s.saveIR && detected
    ensures r.saved.Some? ==> r.saved.value == s.irNum && r.state == s.(irNum := s.irNum + 1, saveIR := false)
    ensures r.saved.None? ==> r.state == s
  {
    if s.saveIR && detected then FrameOutcome(s.(irNum := s.irNum + 1, saveIR := false), Some(s.irNum))
    else FrameOutcome(s, None)
  }

  /** None of the callbacks looks at whether imwrite succeeded. */
  lemma WriteResultIgnored(s: State, detected: bool)
    ensures DepthFrame(s, true) == DepthFrame(s, false)
    ensures RgbFrame(s, detected, true) == RgbFrame(s, detected, false)
    ensures IrFrame(s, detected, true) == IrFrame(s, detected, false)
  {
  }

  /** A stream of RGB frames (detection result of each) with no key pressed
      in between: the state after them and the numbers of the files written. */
  function RgbRun(s: State, detections: seq<bool>): (State, seq<int>)
    decreases |detections|
  {
    if |detections| == 0 then (s, [])
    else
      var r := RgbFrame(s, detections[0], true);
      var rest := RgbRun(r.state, detections[1..]);
      (rest.0, (if r.saved.Some? then [r.saved.value] else []) + rest.1)
  }

  /** One request, one file: a pending RGB request survives every frame
      without a board and is served by the first frame with one, writing
      file rgbNum and advancing the counter once; with no request nothing
      is written. */
  lemma {:induction false} RgbRequestServedOnce(s: State, detections: seq<bool>)
    decreases |detections|
    ensures var (t, saved) := RgbRun(s, detections);
      && (s.saveRGB && true in detections ==>
            saved == [s.rgbNum] && t == s.(rgbNum := s.rgbNum + 1, saveRGB := false))
      && (!(s.saveRGB && true in detections) ==> saved == [] && t == s)
  {
    if |detections| > 0 {
      var r := RgbFrame(s, detections[0], true);
      RgbRequestServedOnce(r.state, detections[1..]);
      assert detections == [detections[0]] + detections[1..];
      assert true in detections <==> detections[0] || true in detections[1..];
      if s.saveRGB && detections[0] {
        RgbIdleRun(r.state, detections[1..]);
      }
    }
  }

  /** Without a pending request a stream of RGB frames does nothing. */
  lemma {:induction false} RgbIdleRun(s: State, detections: seq<bool>)
    requires !s.saveRGB
    decreases |detections|
    ensures RgbRun(s, detections) == (s, [])
  {
    if |detections| > 0 {
      assert RgbFrame(s, detections[0], true) == FrameOutcome(s, None);
      RgbIdleRun(s, detections[1..]);
      var rest := RgbRun(s, detections[1..]);
      assert rest.0 == s;
      assert rest.1 == [];
      assert RgbRun(s, detections).0 == s;
      assert RgbRun(s, detections).1 == [];
    }
  }

  /** One colour pixel as three bytes in memory order. */
  datatype Pixel = Pixel(c0: Byte, c1: Byte, c2: Byte)

  /** The loop that turns the device's RGB frame into OpenCV's BGR order,
      and the redraw loop that turns the (possibly annotated) BGR image back
      into RGB for display: both swap bytes 0 and 2 of every pixel. */
  function SwapRB(img: seq<Pixel>): (out: seq<Pixel>)
    ensures |out| == |img|
    ensures forall i :: 0 <= i < |img| ==>
      out[i].c0 == img[i].c2 && out[i].c1 == img[i].c1 && out[i].c2 == img[i].c0
  {
    seq(|img|, i requires 0 <= i < |img| => Pixel(img[i].c2, img[i].c1, img[i].c0))
  }

  /** With no corners drawn, the redraw shows exactly the frame received. */
  lemma SwapRBInvolution(img: seq<Pixel>)
    ensures SwapRB(SwapRB(img)) == img
  {
  }

  /** The colour triple depth_cb writes for a table value, in display (RGB)
      byte order, as the program spells it out. */
  function PreviewColor(pval: int): (p: Pixel)
    requires 0 <= pval
  {
    var lb := pval % 256;
    match pval / 256
    case 0 => Pixel(255, 255 - lb, 255 - lb)
    case 1 => Pixel(255, lb, 0)
    case 2 => Pixel(255 - lb, 255, 0)
    case 3 => Pixel(0, 255, lb)
    case 4 => Pixel(0, 255 - lb, 255)
    case 5 => Pixel(0, 0, 255 - lb)
    case _ => Pixel(0, 0, 0)
  }

  /** The two hand-written switches agree: depth_cb's bytes are
      setDepthColor's in reverse order. */
  lemma PreviewMatchesRamp(pval: int)
    requires 0 <= pval
    ensures var c := RampColor(pval);
      PreviewColor(pval) == Pixel(c.r, c.g, c.b)
  {
  }

  /** depth_cb's display loop over one depth frame; every reading indexes
      the gamma table. */
  function DepthPreview(depth: seq<int>): (out: seq<Pixel>)
    requires forall i :: 0 <= i < |depth| ==> 0 <= depth[i] < GAMMA_SIZE
    ensures |out| == |depth|
  {
    seq(|depth|, i requires 0 <= i < |depth| => PreviewColor(Gamma(depth[i])))
  }

  /** The live preview is the saved-image colouring with red and blue
      swapped, pixel for pixel. */
  lemma DepthPreviewIsSwappedColoring(depth: seq<int>)
    requires forall i :: 0 <= i < |depth| ==> 0 <= depth[i] < GAMMA_SIZE
    ensures forall i :: 0 <= i < |depth| ==>
      var c := SetDepthColor(depth[i]);
      DepthPreview(depth)[i] == Pixel(c.r, c.g, c.b)
  {
    forall i | 0 <= i < |depth|
      ensures var c := SetDepthColor(depth[i]); DepthPreview(depth)[i] == Pixel(c.r, c.g, c.b)
    {
      PreviewMatchesRamp(Gamma(depth[i]));
    }
  }
}
