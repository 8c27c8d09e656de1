// The whole input engine as a value: the state a RecoveryUI object holds,
// and what each of its operations does to that state. The class in
// recovery_ui.dfy is proved to follow these functions; the lemmas here
// state what follows for sequences of operations.
module Engine {
  import opened Keys
  import opened KeyTracker
  import opened HotKeys
  import opened KeyQueue
  import opened Synthesis

  datatype UIState = UIState(
    pressed: seq<int>,      // key_pressed, indexed by key code 0..KEY_MAX
    press: PressState,      // key_last_down, key_down_count, key_long_press
    counters: Counters,     // CheckKey's consecutive counts and last_key
    capacity: int,          // number of entries in key_queue
    queue: seq<int>,        // key_queue[0..key_queue_len)
    gesture: Gesture,       // process_swipe's fields
    minXSwipe: int,
    minYSwipe: int,
    relSum: int,
    volumesChanged: int,    // v_changed
    effects: seq<Effect>)   // calls made on code outside the engine, oldest first

  /** The state the constructor leaves behind. */
  function InitialState(capacity: int): (s: UIState)
    ensures WellFormed(s) <==> capacity >= 0
    ensures s.queue == [] && s.effects == []
  {
    UIState(seq(KEY_MAX + 1, _ => 0), Idle, Fresh, capacity, [], Untouched, 100, 80, 0, 0, [])
  }

  /** What every operation relies on and preserves. */
  predicate WellFormed(s: UIState)
  {
    |s.pressed| == KEY_MAX + 1 && |s.queue| <= s.capacity
  }

  /** EnqueueKey. */
  function EnqueueKeyState(s: UIState, dialog: DialogHost, key: int): (next: UIState)
  {
    var r := Offer(s.queue, s.capacity, dialog, key);
    s.(queue := r.queue, effects := s.effects + r.calls)
  }

  /** The calls process_key makes for each hot-key decision but ENQUEUE. */
  function ActionCalls(action: KeyAction): (calls: seq<Effect>)
  {
    match action
    case Ignore => []
    case Toggle => [ToggleTextVisibility]
    case Reboot => [UnmountAllVolumes, Restart]
    case Enqueue => []
    case MountSystem => [MountPath("/system"), PrintStatus("Mounted /system.")]
  }

  /** process_key's switch on the action CheckKey returned. */
  function DispatchState(s: UIState, action: KeyAction, key: int, dialog: DialogHost): (next: UIState)
  {
    if action == Enqueue then EnqueueKeyState(s, dialog, key)
    else s.(effects := s.effects + ActionCalls(action))
  }

  /** IsKeyPressed. */
  function KeyPressed(s: UIState, key: int): (pressed: bool)
    requires 0 <= key < |s.pressed|
  {
    s.pressed[key] != 0
  }

  /** CheckKey, consulting key_pressed for the power key. */
  function CheckKeyState(s: UIState, key: int): (d: Decision)
    requires WellFormed(s)
  {
    Check(s.counters, key, KeyPressed(s, KEY_POWER))
  }

  /** process_key: record the key state, start the long-press timer on a
      press, and on a registration report the long-press flag, ask CheckKey
      and carry out its decision. */
  function ProcessKeyState(s: UIState, code: int, updown: int, dialog: DialogHost): (next: UIState)
    requires WellFormed(s) && 0 <= code <= KEY_MAX
  {
    var o := KeyStep(s.press, code, updown);
    var s1 := s.(pressed := s.pressed[code := updown], press := o.state,
                 effects := s.effects + (if updown != 0 then [StartLongPressTimer(code, o.state.downCount)] else []));
    if o.registered then
      var d := CheckKeyState(s1, code);
      DispatchState(s1.(counters := d.counters, effects := s1.effects + [NextCheckKeyIsLong(o.longPress)]),
                    d.action, code, dialog)
    else s1
  }

  /** time_key, once its timer has expired. */
  function TimeKeyState(s: UIState, code: int, count: int): (next: UIState)
  {
    var r := TimerFired(s.press, code, count);
    s.(press := r.state, effects := s.effects + (if r.fired then [KeyLongPress(code)] else []))
  }

  /** process_swipe: a recognised swipe is enqueued directly. */
  function SwipeState(s: UIState, ev: InputEvent, scaled: int, dialog: DialogHost): (next: UIState)
  {
    var r := SwipeStep(s.gesture, s.minXSwipe, s.minYSwipe, ev, scaled);
    var s1 := s.(gesture := r.gesture);
    if r.key.Some? then EnqueueKeyState(s1, dialog, r.key.value) else s1
  }

  /** Ending a touch: the state after clearing in_touch, and after
      enqueueing the swipe key and clearing the gesture if there is one, is
      the state SwipeState describes. */
  lemma SwipeCloseState(s: UIState, closed: UIState, ev: InputEvent, scaled: int,
                        dialog: DialogHost, now: UIState)
    requires ev.evType == EV_SYN && !(s.gesture.inTouch == 0 && ev.code == SYN_MT_REPORT)
    requires closed == s.(gesture := s.gesture.(inTouch := 0))
    requires var k := SwipeKey(closed.gesture, s.minXSwipe, s.minYSwipe);
      && (k.Some? ==> now == EnqueueKeyState(closed, dialog, k.value).(gesture := ResetGesture(closed.gesture)))
      && (k.None? ==> now == closed)
    ensures now == SwipeState(s, ev, scaled, dialog)
  {
  }

  /** input_callback for one event that was read successfully. */
  function InputState(s: UIState, ev: InputEvent, scaled: int, dialog: DialogHost): (next: UIState)
    requires WellFormed(s) && WellFormedEvent(ev)
  {
    var s1 := SwipeState(s, ev, scaled, dialog);
    if ev.evType == EV_SYN then s1
    else
      var t := Trackball(s1.relSum, ev);
      var s2 := s1.(relSum := t.sum);
      var s3 := if t.key.Some? then
          ProcessKeyState(ProcessKeyState(s2, t.key.value, 1, dialog), t.key.value, 0, dialog)
        else s2;
      if ev.evType == EV_KEY && ev.code <= KEY_MAX then ProcessKeyState(s3, ev.code, ev.value, dialog)
      else s3
  }

  /** CancelWaitKey. */
  function CancelState(s: UIState): (next: UIState)
  {
    s.(queue := s.queue + [CANCEL_SENTINEL])
  }

  /** FlushKeys. */
  function FlushState(s: UIState): (next: UIState)
  {
    s.(queue := [])
  }

  /** The returned key and state of the dequeue step at the end of WaitKey. */
  datatype Taken = Taken(key: int, state: UIState)

  function DequeueState(s: UIState): (taken: Taken)
  {
    var d := Dequeue(s.queue);
    Taken(d.key, s.(queue := d.rest))
  }

  /** NotifyVolumesChanged. */
  function NotifyState(s: UIState): (next: UIState)
  {
    s.(volumesChanged := 1)
  }

  /** The answer VolumesChanged gives and the state it leaves. */
  datatype Answer = Answer(changed: bool, state: UIState)

  function VolumesChangedState(s: UIState): (answer: Answer)
  {
    Answer(s.volumesChanged == 1,
           if s.volumesChanged > 0 then s.(volumesChanged := 0) else s)
  }

  // ---------------------------------------------------------------------
  // What the operations keep.

  lemma ProcessKeyKeepsWellFormed(s: UIState, code: int, updown: int, dialog: DialogHost)
    requires WellFormed(s) && 0 <= code <= KEY_MAX
    ensures WellFormed(ProcessKeyState(s, code, updown, dialog))
  {
  }

  lemma {:induction false} InputKeepsWellFormed(s: UIState, ev: InputEvent, scaled: int, dialog: DialogHost)
    requires WellFormed(s) && WellFormedEvent(ev)
    ensures WellFormed(InputState(s, ev, scaled, dialog))
  {
    var s1 := SwipeState(s, ev, scaled, dialog);
    assert WellFormed(s1);
    if ev.evType != EV_SYN {
      var t := Trackball(s1.relSum, ev);
      var s2 := s1.(relSum := t.sum);
      if t.key.Some? {
        ProcessKeyKeepsWellFormed(s2, t.key.value, 1, dialog);
        ProcessKeyKeepsWellFormed(ProcessKeyState(s2, t.key.value, 1, dialog), t.key.value, 0, dialog);
      }
    }
  }

  /** EnqueueKey never reorders or drops what is queued: it appends the key
      when no dialog is up and there is room, and otherwise leaves the queue
      exactly as it was. */
  lemma EnqueueKeepsQueued(s: UIState, dialog: DialogHost, key: int)
    requires WellFormed(s)
    ensures var r := EnqueueKeyState(s, dialog, key);
      WellFormed(r) && r.queue[..|s.queue|] == s.queue
      && (dialog.showing || |s.queue| == s.capacity ==> r.queue == s.queue)
      && (!dialog.showing && |s.queue| < s.capacity ==> r.queue == s.queue + [key])
  {
  }

  // ---------------------------------------------------------------------
  // Scenarios through several operations.

  /** A key that is neither power nor a volume key, pressed and released
      with no dialog up and room in the queue: a timer is started, the
      release registers as a short press, and the key is queued. */
  lemma DownThenUpRegisters(s: UIState, code: int, dialog: DialogHost)
    requires WellFormed(s) && 0 <= code <= KEY_MAX
    requires code != KEY_POWER && code != KEY_VOLUMEUP && code != KEY_VOLUMEDOWN
    requires !dialog.showing && |s.queue| < s.capacity
    ensures var r := ProcessKeyState(ProcessKeyState(s, code, 1, dialog), code, 0, dialog);
      var n := s.press.downCount + 1;
      && r.queue == s.queue + [code]
      && r.press == PressState(-1, n, false)
      && r.counters == Counters(0, 0, code)
      && r.pressed == s.pressed[code := 0]
      && r.effects == s.effects + [StartLongPressTimer(code, n), NextCheckKeyIsLong(false)]
  {
    var s1 := ProcessKeyState(s, code, 1, dialog);
    assert s1.pressed == s.pressed[code := 1];
    assert s1.pressed[code := 0] == s.pressed[code := 0];
  }

  /** A press held until its timer fires and then released is reported to
      the long-press hook when the timer fires and again with the
      registration. */
  lemma LongPressThroughTimer(s: UIState, code: int, dialog: DialogHost)
    requires WellFormed(s) && 0 <= code <= KEY_MAX
    ensures var n := s.press.downCount + 1;
      var s1 := ProcessKeyState(s, code, 1, dialog);
      var s2 := TimeKeyState(s1, code, n);
      var r := ProcessKeyState(s2, code, 0, dialog);
      && s2.effects == s1.effects + [KeyLongPress(code)]
      && r.effects[|s2.effects|] == NextCheckKeyIsLong(true)
      && r.press == PressState(-1, n, true)
  {
  }

  /** Trackball motion past the threshold, with no dialog up and room in
      the queue, queues a down key through the hot-key check and clears the
      sum. */
  lemma TrackballPastThresholdEnqueuesDown(s: UIState, value: int, dialog: DialogHost)
    requires WellFormed(s) && s.relSum + value > 3
    requires !dialog.showing && |s.queue| < s.capacity
    ensures var r := InputState(s, InputEvent(EV_REL, REL_Y, value), 0, dialog);
      r.queue == s.queue + [KEY_DOWN] && r.relSum == 0
      && r.counters.lastKey == KEY_DOWN
  {
    var ev := InputEvent(EV_REL, REL_Y, value);
    var s1 := SwipeState(s, ev, 0, dialog);
    assert s1 == s.(gesture := s.gesture);
    var s2 := s1.(relSum := 0);
    var s3 := ProcessKeyState(s2, KEY_DOWN, 1, dialog);
    assert s3.queue == s.queue && s3.counters == s.counters;
    assert s3.press.lastDown == KEY_DOWN;
  }

  /** Swipe keys go to the queue without passing through CheckKey: a sync
      event never touches the hot-key counters, the key state or the
      trackball sum, however many swipes it ends. */
  lemma SwipeKeysBypassCheckKey(s: UIState, code: int, value: int, scaled: int, dialog: DialogHost)
    requires WellFormed(s) && 0 <= code < 0x1_0000
    ensures var ev := InputEvent(EV_SYN, code, value);
      var r := InputState(s, ev, scaled, dialog);
      var k := SwipeStep(s.gesture, s.minXSwipe, s.minYSwipe, ev, scaled).key;
      && r.counters == s.counters && r.press == s.press && r.pressed == s.pressed
      && r.relSum == s.relSum
      && (k.Some? ==> r.queue == Offer(s.queue, s.capacity, dialog, k.value).queue)
      && (k.None? ==> r.queue == s.queue)
  {
  }

  /** Events the engine does not use leave everything but the trackball
      sum as it was; they do reset the sum. */
  lemma OtherEventsResetTrackballOnly(s: UIState, ev: InputEvent, scaled: int, dialog: DialogHost)
    requires WellFormed(s) && WellFormedEvent(ev)
    requires ev.evType !in {EV_SYN, EV_KEY, EV_REL, EV_ABS}
    ensures InputState(s, ev, scaled, dialog) == s.(relSum := 0)
  {
  }

  /** Key and absolute events also reset the trackball sum: after the
      swipe step the sum is cleared, and a key event then goes through the
      press tracker as usual. */
  lemma KeyAndAbsResetTrackball(s: UIState, ev: InputEvent, scaled: int, dialog: DialogHost)
    requires WellFormed(s) && WellFormedEvent(ev)
    requires ev.evType == EV_KEY || ev.evType == EV_ABS
    ensures var s2 := SwipeState(s, ev, scaled, dialog).(relSum := 0);
      InputState(s, ev, scaled, dialog)
        == if ev.evType == EV_KEY && ev.code <= KEY_MAX then ProcessKeyState(s2, ev.code, ev.value, dialog) else s2
    ensures InputState(s, ev, scaled, dialog).relSum == 0
  {
  }

  /** The queue hands keys out in order: a queued key comes out first, and
      the rest of the queue moves up. */
  lemma DequeueIsFifo(s: UIState, dialog: DialogHost, key: int)
    requires WellFormed(s) && !dialog.showing && |s.queue| < s.capacity
    ensures var r := DequeueState(EnqueueKeyState(s, dialog, key));
      if |s.queue| == 0 then r.key == key && r.state.queue == []
      else r.key == s.queue[0] && r.state.queue == s.queue[1..] + [key]
  {
  }

  /** CancelWaitKey on an empty queue makes the next dequeue return the
      cancel value; FlushKeys makes it return NO_KEY. */
  lemma CancelAndFlushSeenByDequeue(s: UIState)
    ensures DequeueState(CancelState(FlushState(s))).key == CANCEL_SENTINEL
    ensures DequeueState(FlushState(s)) == Taken(NO_KEY, FlushState(s))
    ensures DequeueState(CancelState(FlushState(s))).state.queue == []
  {
  }

  /** The volumes-changed flag is one-shot: after a notification the first
      query says yes and clears it, the next says no. */
  lemma VolumesChangedOneShot(s: UIState)
    ensures var a := VolumesChangedState(NotifyState(s));
      var b := VolumesChangedState(a.state);
      a.changed && a.state.volumesChanged == 0 && !b.changed && b.state == a.state
  {
  }

  /** Only the value 1 is reported as a change; any positive value is cleared. */
  lemma VolumesChangedReportsOnlyOne(s: UIState)
    ensures VolumesChangedState(s).changed <==> s.volumesChanged == 1
    ensures VolumesChangedState(s).state.volumesChanged ==
      (if s.volumesChanged > 0 then 0 else s.volumesChanged)
  {
  }
}
