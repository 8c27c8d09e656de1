// RecoveryUI's input engine as an object: the fields of the C++ class, the
// key queue as a fixed array with a length, and key_pressed as an array
// indexed by key code. Each method updates the fields in place, as the
// original does, and is proved to move the abstract state State() exactly
// as the matching function of module Engine says. Locking is left out: every
// method runs to completion before the next one starts.
module UI {
  import opened Keys
  import opened KeyTracker
  import opened HotKeys
  import opened KeyQueue
  import opened Synthesis
  import opened Engine

  class RecoveryUI {
    // The key queue: key_queue[0..key_queue_len) are the queued keys.
    const keyQueue: array<int>
    var keyQueueLen: int

    // Key state.
    const keyPressed: array<int>
    var keyLastDown: int
    var keyLongPress: bool
    var keyDownCount: int

    // CheckKey's hot-key counters.
    var consecutivePowerKeys: int
    var consecutiveAlternateKeys: int
    var lastKey: int

    // Swipe gesture state.
    var inTouch: int
    var touchX: int
    var touchY: int
    var oldX: int
    var oldY: int
    var diffX: int
    var diffY: int
    var minXSwipePx: int
    var minYSwipePx: int
    var mtCount: int

    // Trackball accumulator and the volumes-changed flag.
    var relSum: int
    var vChanged: int

    // Calls made on code outside the engine, oldest first.
    var effects: seq<Effect>

    ghost predicate Valid()
      reads this
    {
      && keyPressed.Length == KEY_MAX + 1
      && 0 <= keyQueueLen <= keyQueue.Length
      && keyQueue != keyPressed
    }

    ghost function State(): (s: UIState)
      requires Valid()
      reads this, keyQueue, keyPressed
      ensures WellFormed(s)
    {
      UIState(
        keyPressed[..],
        PressState(keyLastDown, keyDownCount, keyLongPress),
        Counters(consecutivePowerKeys, consecutiveAlternateKeys, lastKey),
        keyQueue.Length, keyQueue[..keyQueueLen],
        Gesture(mtCount, inTouch, touchX, touchY, oldX, oldY, diffX, diffY),
        minXSwipePx, minYSwipePx, relSum, vChanged, effects)
    }

    /** The queue holds capacity keys; capacity is the size of key_queue. */
    constructor(capacity: int)
      requires capacity > 0
      ensures Valid() && State() == InitialState(capacity)
      ensures fresh(keyQueue) && fresh(keyPressed)
    {
      keyQueue := new int[capacity];
      keyPressed := new int[KEY_MAX + 1](_ => 0);
      keyQueueLen := 0;
      keyLastDown := -1;
      keyLongPress := false;
      keyDownCount := 0;
      consecutivePowerKeys := 0;
      consecutiveAlternateKeys := 0;
      lastKey := -1;
      inTouch := 0;
      touchX := 0;
      touchY := 0;
      oldX := 0;
      oldY := 0;
      diffX := 0;
      diffY := 0;
      minXSwipePx := 100;
      minYSwipePx := 80;
      mtCount := 0;
      relSum := 0;
      vChanged := 0;
      effects := [];
      new;
      assert keyPressed[..] == seq(KEY_MAX + 1, _ => 0);
    }

    method IsKeyPressed(key: int) returns (pressed: bool)
      requires Valid() && 0 <= key <= KEY_MAX
      ensures pressed == KeyPressed(State(), key)
    {
      pressed := keyPressed[key] != 0;
    }

    method CheckKey(key: int) returns (action: KeyAction)
      requires Valid()
      modifies this
      ensures Valid()
      ensures var d := CheckKeyState(old(State()), key);
        action == d.action && State() == old(State()).(counters := d.counters)
    {
      var powerHeld := IsKeyPressed(KEY_POWER);
      if powerHeld && key == KEY_VOLUMEUP {
        return Toggle;
      }

      if key == KEY_POWER {
        consecutivePowerKeys := consecutivePowerKeys + 1;
        if consecutivePowerKeys >= 7 {
          return Reboot;
        }
      } else {
        consecutivePowerKeys := 0;
      }

      if (key == KEY_VOLUMEUP && (lastKey == KEY_VOLUMEDOWN || lastKey == -1))
        || (key == KEY_VOLUMEDOWN && (lastKey == KEY_VOLUMEUP || lastKey == -1))
      {
        consecutiveAlternateKeys := consecutiveAlternateKeys + 1;
        if consecutiveAlternateKeys >= 7 {
          consecutiveAlternateKeys := 0;
          return MountSystem;
        }
      } else {
        consecutiveAlternateKeys := 0;
      }
      lastKey := key;
      return Enqueue;
    }

    method EnqueueKey(key: int, dialog: DialogHost)
      requires Valid()
      modifies this, keyQueue
      ensures Valid() && State() == EnqueueKeyState(old(State()), dialog, key)
    {
      if dialog.showing {
        if dialog.dismissable {
          effects := effects + [DialogDismiss];
        }
        return;
      }
      var queueMax := keyQueue.Length;
      if keyQueueLen < queueMax {
        keyQueue[keyQueueLen] := key;
        keyQueueLen := keyQueueLen + 1;
      }
    }

    /** updown is nonzero for a press and zero for a release. */
    method ProcessKey(code: int, updown: int, dialog: DialogHost)
      requires Valid() && 0 <= code <= KEY_MAX
      modifies this, keyQueue, keyPressed
      ensures Valid() && State() == ProcessKeyState(old(State()), code, updown, dialog)
    {
      var registerKey, longPress := RecordKey(code, updown);
      if registerKey {
        RegisterKey(code, longPress, dialog);
      }
    }

    /** The first half of process_key: records the key's state, starts the
        long-press timer on a press, and says whether a release registers
        the key and whether the press was long. */
    method RecordKey(code: int, updown: int) returns (registerKey: bool, longPress: bool)
      requires Valid() && 0 <= code <= KEY_MAX
      modifies this, keyPressed
      ensures Valid()
      ensures var s := old(State()); var o := KeyStep(s.press, code, updown);
        && registerKey == o.registered && longPress == o.longPress
        && State() == s.(pressed := s.pressed[code := updown], press := o.state,
             effects := s.effects + (if updown != 0 then [StartLongPressTimer(code, o.state.downCount)] else []))
    {
      ghost var s0 := State();
      registerKey := false;
      longPress := false;

      keyPressed[code] := updown;
      if updown != 0 {
        keyDownCount, keyLastDown, keyLongPress := keyDownCount + 1, code, false;
        effects := effects + [StartLongPressTimer(code, keyDownCount)];
      } else {
        if keyLastDown == code {
          longPress := keyLongPress;
          registerKey := true;
        }
        keyLastDown := -1;
      }
      assert keyPressed[..] == s0.pressed[code := updown];
      assert keyQueue[..keyQueueLen] == s0.queue;
    }

    /** The registration half of process_key: reports whether the press was
        long, asks CheckKey and carries out its decision. */
    method RegisterKey(code: int, longPress: bool, dialog: DialogHost)
      requires Valid() && 0 <= code <= KEY_MAX
      modifies this, keyQueue
      ensures Valid()
      ensures var s := old(State()); var d := CheckKeyState(s, code);
        State() == DispatchState(s.(counters := d.counters, effects := s.effects + [NextCheckKeyIsLong(longPress)]),
                                 d.action, code, dialog)
    {
      effects := effects + [NextCheckKeyIsLong(longPress)];
      var action := CheckKey(code);
      match action
      case Ignore =>
      case Toggle =>
        effects := effects + [ToggleTextVisibility];
      case Reboot =>
        effects := effects + [UnmountAllVolumes, Restart];
      case Enqueue =>
        EnqueueKey(code, dialog);
      case MountSystem =>
        effects := effects + [MountPath("/system"), PrintStatus("Mounted /system.")];
    }

    /** The long-press timer of the press that set key_down_count to count,
        once it has expired. */
    method TimeKey(code: int, count: int)
      requires Valid()
      modifies this
      ensures Valid() && State() == TimeKeyState(old(State()), code, count)
    {
      var longPress := false;
      if keyLastDown == code && keyDownCount == count {
        keyLongPress := true;
        longPress := true;
      }
      if longPress {
        effects := effects + [KeyLongPress(code)];
      }
    }

    method ResetGestures()
      requires Valid()
      modifies this
      ensures Valid() && State() == old(State()).(gesture := ResetGesture(old(State()).gesture))
    {
      ghost var s0 := State();
      diffX, diffY, oldX, oldY, touchX, touchY := 0, 0, 0, 0, 0, 0;
      assert keyPressed[..] == s0.pressed;
      assert keyQueue[..keyQueueLen] == s0.queue;
      assert Gesture(mtCount, inTouch, touchX, touchY, oldX, oldY, diffX, diffY) == ResetGesture(s0.gesture);
    }

    /** scaled is the event's coordinate scaled to the screen; it is used
        only for ABS_MT_POSITION_X and ABS_MT_POSITION_Y events. The four
        kinds of event process_swipe reacts to are handled by the four
        methods below. */
    method ProcessSwipe(ev: InputEvent, scaled: int, dialog: DialogHost)
      requires Valid()
      modifies this, keyQueue
      ensures Valid() && State() == SwipeState(old(State()), ev, scaled, dialog)
    {
      if ev.evType == EV_KEY && ev.code == BTN_TOUCH {
        TouchButton(ev, scaled, dialog);
      } else if ev.evType == EV_SYN {
        SyncGesture(ev, scaled, dialog);
      } else if ev.evType == EV_ABS && ev.code == ABS_MT_POSITION_X {
        SampleX(ev, scaled, dialog);
      } else if ev.evType == EV_ABS && ev.code == ABS_MT_POSITION_Y {
        SampleY(ev, scaled, dialog);
      }
    }

    /** BTN_TOUCH: counts touches, comparing the value with KEY_DOWN and
        KEY_UP, and clears the gesture when the count is zero. */
    method TouchButton(ev: InputEvent, scaled: int, dialog: DialogHost)
      requires Valid() && ev.evType == EV_KEY && ev.code == BTN_TOUCH
      modifies this
      ensures Valid() && State() == SwipeState(old(State()), ev, scaled, dialog)
    {
      if ev.value == KEY_DOWN {
        mtCount := mtCount + 1;
      } else if mtCount > 0 && ev.value == KEY_UP {
        mtCount := mtCount - 1;
      }
      if mtCount == 0 {
        ResetGestures();
      }
    }

    /** A sync event: ends the touch and enqueues the key of a long enough
        swipe. */
    method SyncGesture(ev: InputEvent, scaled: int, dialog: DialogHost)
      requires Valid() && ev.evType == EV_SYN
      modifies this, keyQueue
      ensures Valid() && State() == SwipeState(old(State()), ev, scaled, dialog)
    {
      if inTouch == 0 && ev.code == SYN_MT_REPORT {
        ResetGestures();
        return;
      }
      inTouch := 0;
      ghost var closed := State();
      if diffY > minYSwipePx {
        EnqueueKey(KEY_VOLUMEDOWN, dialog);
        ResetGestures();
      } else if diffY < -minYSwipePx {
        EnqueueKey(KEY_VOLUMEUP, dialog);
        ResetGestures();
      } else if diffX > minXSwipePx {
        EnqueueKey(KEY_POWER, dialog);
        ResetGestures();
      } else if diffX < -minXSwipePx {
        EnqueueKey(KEY_BACK, dialog);
        ResetGestures();
      }
      SwipeCloseState(old(State()), closed, ev, scaled, dialog, State());
    }

    /** A horizontal position sample. */
    method SampleX(ev: InputEvent, scaled: int, dialog: DialogHost)
      requires Valid() && ev.evType == EV_ABS && ev.code == ABS_MT_POSITION_X
      modifies this
      ensures Valid() && State() == SwipeState(old(State()), ev, scaled, dialog)
    {
      ghost var s0 := State();
      inTouch, oldX, touchX := 1, touchX, scaled;
      if oldX != 0 {
        diffX := diffX + (touchX - oldX);
      }
      assert keyPressed[..] == s0.pressed;
      assert keyQueue[..keyQueueLen] == s0.queue;
    }

    /** A vertical position sample. */
    method SampleY(ev: InputEvent, scaled: int, dialog: DialogHost)
      requires Valid() && ev.evType == EV_ABS && ev.code == ABS_MT_POSITION_Y
      modifies this
      ensures Valid() && State() == SwipeState(old(State()), ev, scaled, dialog)
    {
      ghost var s0 := State();
      inTouch, oldY, touchY := 1, touchY, scaled;
      if oldY != 0 {
        diffY := diffY + (touchY - oldY);
      }
      assert keyPressed[..] == s0.pressed;
      assert keyQueue[..keyQueueLen] == s0.queue;
    }

    /** input_callback for an event that was read successfully; scaled is
        passed on to ProcessSwipe. */
    method InputCallback(ev: InputEvent, scaled: int, dialog: DialogHost)
      requires Valid() && WellFormedEvent(ev)
      modifies this, keyQueue, keyPressed
      ensures Valid() && State() == InputState(old(State()), ev, scaled, dialog)
    {
      ProcessSwipe(ev, scaled, dialog);

      if ev.evType == EV_SYN {
        return;
      } else if ev.evType == EV_REL {
        RelativeMotion(ev, dialog);
      } else {
        relSum := 0;
      }

      if ev.evType == EV_KEY && ev.code <= KEY_MAX {
        ProcessKey(ev.code, ev.value, dialog);
      }
    }

    /** The trackball part of input_callback, for relative motion: vertical
        motion past the threshold presses and releases an arrow key. */
    method RelativeMotion(ev: InputEvent, dialog: DialogHost)
      requires Valid() && ev.evType == EV_REL
      modifies this, keyQueue, keyPressed
      ensures Valid()
      ensures var t := Trackball(old(State()).relSum, ev);
        var s2 := old(State()).(relSum := t.sum);
        State() == if t.key.Some? then
          ProcessKeyState(ProcessKeyState(s2, t.key.value, 1, dialog), t.key.value, 0, dialog)
        else s2
    {
      if ev.code == REL_Y {
        relSum := relSum + ev.value;
        if relSum > 3 {
          ProcessKey(KEY_DOWN, 1, dialog);
          ProcessKey(KEY_DOWN, 0, dialog);
          relSum := 0;
        } else if relSum < -3 {
          ProcessKey(KEY_UP, 1, dialog);
          ProcessKey(KEY_UP, 0, dialog);
          relSum := 0;
        }
      }
    }

    /** Wakes a waiting reader with CANCEL_SENTINEL; there is no capacity
        check, so the caller must leave room. */
    method CancelWaitKey()
      requires Valid() && keyQueueLen < keyQueue.Length
      modifies this, keyQueue
      ensures Valid() && State() == CancelState(old(State()))
    {
      keyQueue[keyQueueLen] := CANCEL_SENTINEL;
      keyQueueLen := keyQueueLen + 1;
    }

    method FlushKeys()
      requires Valid()
      modifies this
      ensures Valid() && State() == FlushState(old(State()))
    {
      keyQueueLen := 0;
    }

    /** The step at the end of WaitKey: takes the oldest key and moves the
        others down one place; NO_KEY when the queue is empty. */
    method DequeueKey() returns (key: int)
      requires Valid()
      modifies this, keyQueue
      ensures Valid()
      ensures var t := DequeueState(old(State())); key == t.key && State() == t.state
    {
      key := NO_KEY;
      if keyQueueLen > 0 {
        key := keyQueue[0];
        keyQueueLen := keyQueueLen - 1;
        MoveDown(keyQueue, keyQueueLen);
      }
    }

    /** The memcpy of WaitKey: moves the n cells after the first one down
        by one place, front to back. */
    static method MoveDown(a: array<int>, n: int)
      requires 0 <= n < a.Length
      modifies a
      ensures a[..n] == old(a[1..n + 1]) && a[n..] == old(a[n..])
    {
      var i := 0;
      while i < n
        invariant 0 <= i <= n
        invariant a[..i] == old(a[1..i + 1])
        invariant a[i..] == old(a[i..])
      {
        a[i] := a[i + 1];
        i := i + 1;
      }
    }

    method NotifyVolumesChanged()
      requires Valid()
      modifies this
      ensures Valid() && State() == NotifyState(old(State()))
    {
      vChanged := 1;
    }

    method VolumesChanged() returns (changed: bool)
      requires Valid()
      modifies this
      ensures Valid()
      ensures var a := VolumesChangedState(old(State())); changed == a.changed && State() == a.state
    {
      var ret := vChanged;
      if vChanged > 0 {
        vChanged := 0;
      }
      changed := ret == 1;
    }
  }
}
