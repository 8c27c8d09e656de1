// Key registration and long-press detection: the part of process_key and
// time_key that works on key_last_down, key_down_count and key_long_press.
// A key is registered when its release directly follows its own press;
// a press starts a timer that, if it fires while that same press is still
// the latest one, marks the press as long.
module KeyTracker {
  import opened Keys

  /** key_last_down (-1 for none), key_down_count and key_long_press. */
  datatype PressState = PressState(lastDown: int, downCount: int, longPress: bool)

  /** The values the constructor gives these fields. */
  const Idle := PressState(-1, 0, false)

  /** The new fields after one key event, whether the key was registered,
      and the long-press flag handed on with a registration. */
  datatype KeyOutcome = KeyOutcome(state: PressState, registered: bool, longPress: bool)

  /** process_key's update of the tracker: any nonzero updown is a press. */
  function KeyStep(t: PressState, code: int, updown: int): (o: KeyOutcome)
  {
    if updown != 0 then
      KeyOutcome(PressState(code, t.downCount + 1, false), false, false)
    else
      var reg := t.lastDown == code;
      KeyOutcome(PressState(-1, t.downCount, t.longPress), reg, reg && t.longPress)
  }

  /** The new fields after a timer started for (code, count) fires, and
      whether it reported a long press. */
  datatype TimerOutcome = TimerOutcome(state: PressState, fired: bool)

  /** time_key: only the timer of the latest press, while still held, counts. */
  function TimerFired(t: PressState, code: int, count: int): (r: TimerOutcome)
    ensures r.fired <==> t.lastDown == code && t.downCount == count
    ensures r.fired ==> r.state == t.(longPress := true)
    ensures !r.fired ==> r.state == t
  {
    if t.lastDown == code && t.downCount == count then
      TimerOutcome(t.(longPress := true), true)
    else
      TimerOutcome(t, false)
  }

  /** What can happen to the tracker: a key event, or a timer firing. */
  datatype TrackerEvent = KeyEvent(code: int, updown: int) | TimerEvent(code: int, count: int)

  function Apply(t: PressState, e: TrackerEvent): (t1: PressState)
  {
    match e
    case KeyEvent(code, updown) => KeyStep(t, code, updown).state
    case TimerEvent(code, count) => TimerFired(t, code, count).state
  }

  /** The fields after a whole sequence of events, oldest first. */
  function Run(t: PressState, es: seq<TrackerEvent>): (t1: PressState)
    decreases |es|
  {
    if |es| == 0 then t else Run(Apply(t, es[0]), es[1..])
  }

  predicate IsKey(e: TrackerEvent)
  {
    e.KeyEvent?
  }

  predicate IsPress(e: TrackerEvent)
  {
    e.KeyEvent? && e.updown != 0
  }

  /** Key codes are never -1, the "no key down" value. */
  predicate ValidCodes(es: seq<TrackerEvent>)
  {
    forall i :: 0 <= i < |es| ==> es[i].code >= 0
  }

  /** Number of key presses in a sequence of events. */
  function Presses(es: seq<TrackerEvent>): (n: nat)
    decreases |es|
  {
    if |es| == 0 then 0 else (if IsPress(es[0]) then 1 else 0) + Presses(es[1..])
  }

  lemma {:induction false} RunAppend(t: PressState, a: seq<TrackerEvent>, b: seq<TrackerEvent>)
    ensures Run(t, a + b) == Run(Run(t, a), b)
    decreases |a|
  {
    if |a| == 0 {
      assert a + b == b;
    } else {
      assert (a + b)[0] == a[0];
      assert (a + b)[1..] == a[1..] + b;
      RunAppend(Apply(t, a[0]), a[1..], b);
    }
  }

  /** key_down_count counts the presses: timers and releases leave it alone. */
  lemma {:induction false} DownCountCountsPresses(t: PressState, es: seq<TrackerEvent>)
    ensures Run(t, es).downCount == t.downCount + Presses(es)
    decreases |es|
  {
    if |es| > 0 {
      DownCountCountsPresses(Apply(t, es[0]), es[1..]);
    }
  }

  /** Timers never touch key_last_down: after a run, it is the code of the
      latest key event if that was a press, and -1 if it was a release. */
  lemma {:induction false} LastDownIsLatestKey(t: PressState, es: seq<TrackerEvent>, j: int)
    requires 0 <= j < |es| && IsKey(es[j])
    requires forall i :: j < i < |es| ==> !IsKey(es[i])
    ensures Run(t, es).lastDown == (if es[j].updown != 0 then es[j].code else -1)
  {
    RunAppend(t, es[..j + 1], es[j + 1..]);
    assert es[..j + 1] + es[j + 1..] == es;
    RunAppend(t, es[..j], [es[j]]);
    assert es[..j] + [es[j]] == es[..j + 1];
    TimersKeepLastDown(Run(t, es[..j + 1]), es[j + 1..]);
  }

  lemma {:induction false} TimersKeepLastDown(t: PressState, ts: seq<TrackerEvent>)
    requires forall i :: 0 <= i < |ts| ==> !IsKey(ts[i])
    ensures Run(t, ts).lastDown == t.lastDown && Run(t, ts).downCount == t.downCount
    decreases |ts|
  {
    if |ts| > 0 {
      TimersKeepLastDown(Apply(t, ts[0]), ts[1..]);
    }
  }

  /** The registration rule: a release registers exactly when the latest
      earlier key event was the press of that same key (timers in between
      do not matter); with no earlier key event it depends on the state the
      run started from. */
  lemma RegisteredIffReleaseFollowsOwnPress(t: PressState, es: seq<TrackerEvent>, i: int, j: int)
    requires 0 <= j < i < |es| && ValidCodes(es)
    requires IsKey(es[j]) && IsKey(es[i])
    requires forall k :: j < k < i ==> !IsKey(es[k])
    ensures KeyStep(Run(t, es[..i]), es[i].code, es[i].updown).registered
      <==> es[i].updown == 0 && es[j].updown != 0 && es[j].code == es[i].code
  {
    assert es[..i][j] == es[j];
    LastDownIsLatestKey(t, es[..i], j);
  }

  /** A press followed only by timers, the latest state being (code, count):
      the long-press flag is set exactly when one of the timers belongs to
      this press. */
  lemma {:induction false} TimersAfterPress(code: int, count: int, lp: bool, ts: seq<TrackerEvent>)
    requires forall i :: 0 <= i < |ts| ==> !IsKey(ts[i])
    ensures Run(PressState(code, count, lp), ts)
      == PressState(code, count, lp || TimerEvent(code, count) in ts)
    decreases |ts|
  {
    if |ts| > 0 {
      var t1 := Apply(PressState(code, count, lp), ts[0]);
      assert t1 == PressState(code, count, lp || ts[0] == TimerEvent(code, count));
      TimersAfterPress(code, count, t1.longPress, ts[1..]);
      assert ts == [ts[0]] + ts[1..];
    }
  }

  /** Press a key, let any timers fire, release it: the release registers,
      and it is reported as long exactly when the timer that this press
      started (for count downCount + 1) fired in between. */
  lemma LongPressReported(t: PressState, code: int, updown: int, ts: seq<TrackerEvent>)
    requires updown != 0
    requires forall i :: 0 <= i < |ts| ==> !IsKey(ts[i])
    ensures var s := Run(t, [KeyEvent(code, updown)] + ts);
      var r := KeyStep(s, code, 0);
      r.registered && (r.longPress <==> TimerEvent(code, t.downCount + 1) in ts)
  {
    var t1 := PressState(code, t.downCount + 1, false);
    assert Run(t, [KeyEvent(code, updown)]) == t1 by {
      assert [KeyEvent(code, updown)][1..] == [];
    }
    RunAppend(t, [KeyEvent(code, updown)], ts);
    TimersAfterPress(code, t.downCount + 1, false, ts);
    assert Run(t, [KeyEvent(code, updown)] + ts)
      == PressState(code, t.downCount + 1, TimerEvent(code, t.downCount + 1) in ts);
  }

  /** A timer whose count predates the state, however many events later it
      fires, changes nothing and reports nothing. */
  lemma StaleTimerIsNoOp(t: PressState, es: seq<TrackerEvent>, code: int, count: int)
    requires count < t.downCount
    ensures TimerFired(Run(t, es), code, count) == TimerOutcome(Run(t, es), false)
  {
    DownCountCountsPresses(t, es);
  }

  /** Once its key has been released, a timer reports nothing. */
  lemma ReleasedTimerIsNoOp(t: PressState, code: int, count: int)
    requires code >= 0
    ensures TimerFired(KeyStep(t, code, 0).state, code, count).fired == false
  {
  }
}
