// Turning raw input into keys without a key press: process_swipe's gesture
// recogniser, which ends a touch with a volume, power or back key, and the
// trackball accumulator of input_callback, which turns vertical REL_Y
// motion into up and down key presses.
module Synthesis {
  import opened Keys

  /** mt_count, in_touch, touch_*, old_* and diff_*. Touch coordinates are
      already scaled to the screen (see SwipeStep). */
  datatype Gesture = Gesture(
    mtCount: int, inTouch: int,
    touchX: int, touchY: int, oldX: int, oldY: int, diffX: int, diffY: int)

  /** The values the constructor gives these fields. */
  const Untouched := Gesture(0, 0, 0, 0, 0, 0, 0, 0)

  /** reset_gestures: clears the coordinates and the accumulated motion,
      not mt_count or in_touch. */
  function ResetGesture(g: Gesture): (r: Gesture)
    ensures r.mtCount == g.mtCount && r.inTouch == g.inTouch
    ensures r.diffX == 0 && r.diffY == 0 && r.oldX == 0 && r.oldY == 0
    ensures r.touchX == 0 && r.touchY == 0
  {
    g.(diffX := 0, diffY := 0, oldX := 0, oldY := 0, touchX := 0, touchY := 0)
  }

  /** The key a finished swipe stands for: vertical motion first, down
      before up, then horizontal, right before left; strict thresholds. */
  function SwipeKey(g: Gesture, minX: int, minY: int): (key: Option<int>)
  {
    if g.diffY > minY then Some(KEY_VOLUMEDOWN)
    else if g.diffY < -minY then Some(KEY_VOLUMEUP)
    else if g.diffX > minX then Some(KEY_POWER)
    else if g.diffX < -minX then Some(KEY_BACK)
    else None
  }

  /** The gesture after one event and the key to enqueue, if any. */
  datatype SwipeResult = SwipeResult(gesture: Gesture, key: Option<int>)

  /** process_swipe for one event; scaled is the sample's coordinate after
      scaling to the screen, used only for ABS_MT_POSITION_X/Y events. The
      BTN_TOUCH value is compared with the key codes KEY_DOWN and KEY_UP. */
  function SwipeStep(g: Gesture, minX: int, minY: int, ev: InputEvent, scaled: int): (r: SwipeResult)
  {
    if ev.evType == EV_KEY && ev.code == BTN_TOUCH then
      var m :=
        if ev.value == KEY_DOWN then g.mtCount + 1
        else if g.mtCount > 0 && ev.value == KEY_UP then g.mtCount - 1
        else g.mtCount;
      var g1 := g.(mtCount := m);
      SwipeResult(if m == 0 then ResetGesture(g1) else g1, None)
    else if ev.evType == EV_SYN then
      if g.inTouch == 0 && ev.code == SYN_MT_REPORT then
        SwipeResult(ResetGesture(g), None)
      else
        var g1 := g.(inTouch := 0);
        var key := SwipeKey(g1, minX, minY);
        SwipeResult(if key.Some? then ResetGesture(g1) else g1, key)
    else if ev.evType == EV_ABS && ev.code == ABS_MT_POSITION_X then
      SwipeResult(g.(inTouch := 1, oldX := g.touchX, touchX := scaled,
                     diffX := if g.touchX != 0 then g.diffX + (scaled - g.touchX) else g.diffX), None)
    else if ev.evType == EV_ABS && ev.code == ABS_MT_POSITION_Y then
      SwipeResult(g.(inTouch := 1, oldY := g.touchY, touchY := scaled,
                     diffY := if g.touchY != 0 then g.diffY + (scaled - g.touchY) else g.diffY), None)
    else
      SwipeResult(g, None)
  }

  /** Only a sync event can produce a key. */
  lemma OnlySyncEmits(g: Gesture, minX: int, minY: int, ev: InputEvent, scaled: int)
    requires SwipeStep(g, minX, minY, ev, scaled).key.Some?
    ensures ev.evType == EV_SYN && !(g.inTouch == 0 && ev.code == SYN_MT_REPORT)
  {
  }

  /** The end of a touch. A multitouch report while no touch is in progress
      clears the gesture and emits nothing. Any other sync ends the touch and
      emits at most one key, chosen in the fixed order volume-down, volume-up,
      power, back by strict comparison with the thresholds; the gesture is
      cleared exactly when a key is emitted. */
  lemma GestureClose(g: Gesture, minX: int, minY: int, code: int, value: int, scaled: int)
    ensures var r := SwipeStep(g, minX, minY, InputEvent(EV_SYN, code, value), scaled);
      if g.inTouch == 0 && code == SYN_MT_REPORT then
        r == SwipeResult(ResetGesture(g), None)
      else
        && r.gesture.inTouch == 0
        && (r.key == Some(KEY_VOLUMEDOWN) <==> g.diffY > minY)
        && (r.key == Some(KEY_VOLUMEUP) <==> !(g.diffY > minY) && g.diffY < -minY)
        && (r.key == Some(KEY_POWER) <==>
              -minY <= g.diffY <= minY && g.diffX > minX)
        && (r.key == Some(KEY_BACK) <==>
              -minY <= g.diffY <= minY && !(g.diffX > minX) && g.diffX < -minX)
        && (r.key == None <==> -minY <= g.diffY <= minY && -minX <= g.diffX <= minX)
        && (r.key.Some? ==> r.gesture == ResetGesture(g).(inTouch := 0))
        && (r.key.None? ==> r.gesture == g.(inTouch := 0))
  {
  }

  /** The BTN_TOUCH values a touchscreen sends are 1 and 0, neither of which
      equals KEY_DOWN or KEY_UP: from a zero count the count stays zero and
      every such event clears the gesture. */
  lemma TouchValuesLeaveCountAtZero(g: Gesture, minX: int, minY: int, value: int, scaled: int)
    requires g.mtCount == 0 && (value == 0 || value == 1)
    ensures SwipeStep(g, minX, minY, InputEvent(EV_KEY, BTN_TOUCH, value), scaled)
      == SwipeResult(ResetGesture(g), None)
  {
  }

  /** The position sample events of process_swipe. */
  predicate PositionCode(code: int)
  {
    code == ABS_MT_POSITION_X || code == ABS_MT_POSITION_Y
  }

  /** touch_x or touch_y, whichever axis code samples. */
  function Coord(g: Gesture, code: int): (c: int)
    requires PositionCode(code)
  {
    if code == ABS_MT_POSITION_X then g.touchX else g.touchY
  }

  /** diff_x or diff_y, whichever axis code samples. */
  function Motion(g: Gesture, code: int): (d: int)
    requires PositionCode(code)
  {
    if code == ABS_MT_POSITION_X then g.diffX else g.diffY
  }

  /** The fields of the axis code does not sample. */
  predicate OtherAxisUnchanged(g: Gesture, h: Gesture, code: int)
    requires PositionCode(code)
  {
    if code == ABS_MT_POSITION_X then h.touchY == g.touchY && h.oldY == g.oldY && h.diffY == g.diffY
    else h.touchX == g.touchX && h.oldX == g.oldX && h.diffX == g.diffX
  }

  /** One position sample, on either axis: the touch is marked in
      progress, the new position is recorded and the previous one kept as
      old_*, and the motion grows by the distance moved, except right after
      a cleared (zero) position, when it does not grow at all. The other
      axis, mt_count and the key are untouched. */
  lemma PositionSample(g: Gesture, minX: int, minY: int, code: int, value: int, scaled: int)
    requires PositionCode(code)
    ensures var r := SwipeStep(g, minX, minY, InputEvent(EV_ABS, code, value), scaled);
      && r.key == None
      && r.gesture.inTouch == 1 && r.gesture.mtCount == g.mtCount
      && Coord(r.gesture, code) == scaled
      && (code == ABS_MT_POSITION_X ==> r.gesture.oldX == g.touchX)
      && (code == ABS_MT_POSITION_Y ==> r.gesture.oldY == g.touchY)
      && (Coord(g, code) == 0 ==> Motion(r.gesture, code) == Motion(g, code))
      && (Coord(g, code) != 0 ==> Motion(r.gesture, code) == Motion(g, code) + (scaled - Coord(g, code)))
      && OtherAxisUnchanged(g, r.gesture, code)
  {
  }

  /** A sequence of position samples on one axis. */
  function Samples(g: Gesture, minX: int, minY: int, code: int, vs: seq<int>): (g1: Gesture)
    decreases |vs|
  {
    if |vs| == 0 then g
    else
      var ev := InputEvent(EV_ABS, code, 0);
      Samples(SwipeStep(g, minX, minY, ev, vs[0]).gesture, minX, minY, code, vs[1..])
  }

  predicate NonZero(vs: seq<int>)
  {
    forall i :: 0 <= i < |vs| ==> vs[i] != 0
  }

  /** Nonzero samples on one axis telescope: the accumulated motion grows
      by the distance from the previous position (or, with none, from the
      first sample) to the last sample, and nothing on the other axis
      changes. */
  lemma {:induction false} SamplesAccumulate(g: Gesture, minX: int, minY: int, code: int, vs: seq<int>)
    requires PositionCode(code) && |vs| > 0 && NonZero(vs)
    ensures var r := Samples(g, minX, minY, code, vs);
      var first := if Coord(g, code) != 0 then Coord(g, code) else vs[0];
      && Motion(r, code) == Motion(g, code) + (vs[|vs| - 1] - first)
      && Coord(r, code) == vs[|vs| - 1]
      && r.inTouch == 1
      && r.mtCount == g.mtCount
      && OtherAxisUnchanged(g, r, code)
    decreases |vs|
  {
    var g1 := SwipeStep(g, minX, minY, InputEvent(EV_ABS, code, 0), vs[0]).gesture;
    PositionSample(g, minX, minY, code, 0, vs[0]);
    if |vs| > 1 {
      assert NonZero(vs[1..]) by {
        assert forall i :: 0 <= i < |vs| - 1 ==> vs[1..][i] == vs[i + 1];
      }
      SamplesAccumulate(g1, minX, minY, code, vs[1..]);
      assert vs[1..][|vs| - 2] == vs[|vs| - 1];
    }
  }

  /** A touch that starts cleared and moves right by more than the
      horizontal threshold, with no vertical motion, ends as a power key. */
  lemma SwipeRightYieldsPower(g: Gesture, minX: int, minY: int, xs: seq<int>)
    requires g.touchX == 0 && g.diffX == 0 && g.diffY == 0 && minY >= 0
    requires |xs| > 0 && NonZero(xs) && xs[|xs| - 1] - xs[0] > minX
    ensures var r := Samples(g, minX, minY, ABS_MT_POSITION_X, xs);
      SwipeStep(r, minX, minY, InputEvent(EV_SYN, SYN_REPORT, 0), 0).key == Some(KEY_POWER)
  {
    SamplesAccumulate(g, minX, minY, ABS_MT_POSITION_X, xs);
  }

  /** A touch that starts cleared and moves down by more than the vertical
      threshold ends as a volume-down key, whatever the horizontal motion. */
  lemma SwipeDownYieldsVolumeDown(g: Gesture, minX: int, minY: int, ys: seq<int>)
    requires g.touchY == 0 && g.diffY == 0
    requires |ys| > 0 && NonZero(ys) && ys[|ys| - 1] - ys[0] > minY
    ensures var r := Samples(g, minX, minY, ABS_MT_POSITION_Y, ys);
      SwipeStep(r, minX, minY, InputEvent(EV_SYN, SYN_REPORT, 0), 0).key == Some(KEY_VOLUMEDOWN)
  {
    SamplesAccumulate(g, minX, minY, ABS_MT_POSITION_Y, ys);
  }

  /** Motion carries across frames: a sync whose accumulated motion stays
      within both thresholds only ends the frame (clears in_touch) and keeps
      the positions, so the next frame's samples continue from the last
      position of the one before. */
  lemma FramesAccumulate(g: Gesture, minX: int, minY: int, code: int, vs: seq<int>, ws: seq<int>)
    requires PositionCode(code) && |vs| > 0 && NonZero(vs) && |ws| > 0 && NonZero(ws)
    requires var r := Samples(g, minX, minY, code, vs);
      -minY <= r.diffY <= minY && -minX <= r.diffX <= minX
    ensures var r := Samples(g, minX, minY, code, vs);
      var c := SwipeStep(r, minX, minY, InputEvent(EV_SYN, SYN_REPORT, 0), 0);
      var first := if Coord(g, code) != 0 then Coord(g, code) else vs[0];
      && c == SwipeResult(r.(inTouch := 0), None)
      && Motion(Samples(c.gesture, minX, minY, code, ws), code) == Motion(g, code) + (ws[|ws| - 1] - first)
  {
    var r := Samples(g, minX, minY, code, vs);
    SamplesAccumulate(g, minX, minY, code, vs);
    var c := SwipeStep(r, minX, minY, InputEvent(EV_SYN, SYN_REPORT, 0), 0);
    GestureClose(r, minX, minY, SYN_REPORT, 0, 0);
    SamplesAccumulate(c.gesture, minX, minY, code, ws);
  }

  /** The trackball sum after an event, and the key whose press and
      release it stands for, if any. */
  datatype TrackballResult = TrackballResult(sum: int, key: Option<int>)

  /** input_callback's handling of rel_sum: sync events leave it alone,
      vertical relative motion accumulates and fires a key once past +3 or
      -3, other relative motion leaves it alone, anything else resets it. */
  function Trackball(sum: int, ev: InputEvent): (r: TrackballResult)
    ensures -3 <= sum <= 3 ==> -3 <= r.sum <= 3
    ensures r.key.Some? ==> r.sum == 0 && ev.evType == EV_REL && ev.code == REL_Y
    ensures r.key == Some(KEY_DOWN) <==> ev.evType == EV_REL && ev.code == REL_Y && sum + ev.value > 3
    ensures r.key == Some(KEY_UP) <==> ev.evType == EV_REL && ev.code == REL_Y && sum + ev.value < -3
    ensures ev.evType == EV_SYN || (ev.evType == EV_REL && ev.code != REL_Y) ==> r == TrackballResult(sum, None)
    ensures ev.evType != EV_SYN && ev.evType != EV_REL ==> r == TrackballResult(0, None)
    ensures ev.evType == EV_REL && ev.code == REL_Y && -3 <= sum + ev.value <= 3
      ==> r == TrackballResult(sum + ev.value, None)
  {
    if ev.evType == EV_SYN then TrackballResult(sum, None)
    else if ev.evType == EV_REL then
      if ev.code == REL_Y then
        var s := sum + ev.value;
        if s > 3 then TrackballResult(0, Some(KEY_DOWN))
        else if s < -3 then TrackballResult(0, Some(KEY_UP))
        else TrackballResult(s, None)
      else TrackballResult(sum, None)
    else TrackballResult(0, None)
  }

  /** The final sum of a run of trackball events and the keys it produced. */
  datatype TrackballResultRun = TrackballResultRun(sum: int, keys: seq<int>)

  /** Keys produced by a run of trackball events, and the final sum. */
  function TrackballRun(sum: int, evs: seq<InputEvent>): (r: TrackballResultRun)
    decreases |evs|
  {
    if |evs| == 0 then TrackballResultRun(sum, [])
    else
      var r := Trackball(sum, evs[0]);
      var rest := TrackballRun(r.sum, evs[1..]);
      TrackballResultRun(rest.sum, (if r.key.Some? then [r.key.value] else []) + rest.keys)
  }

  /** Slow downward motion: n one-step REL_Y events from a sum s in 0..3
      produce one down key per four steps in total, the remainder staying
      in the sum. */
  lemma {:induction false} UnitStepsDown(s: int, n: nat)
    requires 0 <= s <= 3
    ensures var r := TrackballRun(s, seq(n, _ => InputEvent(EV_REL, REL_Y, 1)));
      r.sum == (s + n) % 4 && r.keys == seq((s + n) / 4, _ => KEY_DOWN)
    decreases n
  {
    var evs := seq(n, _ => InputEvent(EV_REL, REL_Y, 1));
    if n > 0 {
      var s1 := if s == 3 then 0 else s + 1;
      assert Trackball(s, evs[0]).sum == s1;
      assert evs[1..] == seq(n - 1, _ => InputEvent(EV_REL, REL_Y, 1));
      UnitStepsDown(s1, n - 1);
      if s == 3 {
        assert (s + n) / 4 == (n - 1) / 4 + 1 && (s + n) % 4 == (n - 1) % 4;
        assert [KEY_DOWN] + seq((n - 1) / 4, _ => KEY_DOWN) == seq((s + n) / 4, _ => KEY_DOWN);
      } else {
        assert (s + n) / 4 == (s1 + n - 1) / 4 && (s + n) % 4 == (s1 + n - 1) % 4;
      }
    }
  }
}
