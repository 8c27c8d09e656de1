// The default CheckKey: the hot-key detector consulted for every
// registered key. Holding power and pressing volume-up toggles the text
// display, seven power keys in a row reboot, seven alternating volume keys
// mount /system; everything else is queued for the menu.
module HotKeys {
  import opened Keys

  /** consecutive_power_keys, consecutive_alternate_keys and last_key. */
  datatype Counters = Counters(powerKeys: int, alternateKeys: int, lastKey: int)

  /** The values the constructor gives these fields. */
  const Fresh := Counters(0, 0, -1)

  datatype Decision = Decision(action: KeyAction, counters: Counters)

  /** Volume-up after volume-down, volume-down after volume-up, or either
      one as the first key. */
  predicate Alternates(lastKey: int, key: int)
  {
    (key == KEY_VOLUMEUP && (lastKey == KEY_VOLUMEDOWN || lastKey == -1))
    || (key == KEY_VOLUMEDOWN && (lastKey == KEY_VOLUMEUP || lastKey == -1))
  }

  /** CheckKey for a key, given whether power is currently held. */
  function Check(c: Counters, key: int, powerHeld: bool): (d: Decision)
    // the toggle chord, which touches no counter
    ensures d.action == Toggle <==> powerHeld && key == KEY_VOLUMEUP
    ensures d.action == Toggle ==> d.counters == c
    // the power counter
    ensures d.action != Toggle ==>
      d.counters.powerKeys == (if key == KEY_POWER then c.powerKeys + 1 else 0)
    ensures d.action == Reboot <==>
      d.action != Toggle && key == KEY_POWER && c.powerKeys + 1 >= 7
    ensures d.action == Reboot ==>
      d.counters.alternateKeys == c.alternateKeys && d.counters.lastKey == c.lastKey
    // the alternation counter
    ensures d.action == MountSystem <==>
      d.action !in {Toggle, Reboot} && Alternates(c.lastKey, key) && c.alternateKeys + 1 >= 7
    ensures d.action == MountSystem ==> d.counters.alternateKeys == 0
    ensures d.action == Enqueue ==>
      d.counters.alternateKeys == (if Alternates(c.lastKey, key) then c.alternateKeys + 1 else 0)
    // last_key changes only when the key is queued
    ensures d.counters.lastKey == (if d.action == Enqueue then key else c.lastKey)
    ensures d.action != Ignore
  {
    if powerHeld && key == KEY_VOLUMEUP then
      Decision(Toggle, c)
    else
      var p := if key == KEY_POWER then c.powerKeys + 1 else 0;
      if key == KEY_POWER && p >= 7 then
        Decision(Reboot, c.(powerKeys := p))
      else if Alternates(c.lastKey, key) then
        var a := c.alternateKeys + 1;
        if a >= 7 then Decision(MountSystem, Counters(p, 0, c.lastKey))
        else Decision(Enqueue, Counters(p, a, key))
      else
        Decision(Enqueue, Counters(p, 0, key))
  }

  /** The decisions for a sequence of keys, power not held. */
  function Actions(c: Counters, keys: seq<int>): (r: seq<KeyAction>)
    ensures |r| == |keys|
    decreases |keys|
  {
    if |keys| == 0 then []
    else
      var d := Check(c, keys[0], false);
      [d.action] + Actions(d.counters, keys[1..])
  }

  /** The counters after a sequence of keys, power not held. */
  function Final(c: Counters, keys: seq<int>): (c1: Counters)
    decreases |keys|
  {
    if |keys| == 0 then c else Final(Check(c, keys[0], false).counters, keys[1..])
  }

  /** n power keys in a row: the i-th reboots exactly when the counter it
      started from plus i + 1 reaches seven, and the counter is never
      reset on the way, so every power key after the seventh reboots too. */
  lemma {:induction false} PowerRun(c: Counters, n: nat)
    requires c.powerKeys >= 0
    ensures var keys := seq(n, _ => KEY_POWER);
      && Final(c, keys).powerKeys == c.powerKeys + n
      && (forall i :: 0 <= i < n ==>
            (Actions(c, keys)[i] == Reboot <==> c.powerKeys + i + 1 >= 7))
      && (forall i :: 0 <= i < n ==>
            (Actions(c, keys)[i] != Reboot ==> Actions(c, keys)[i] == Enqueue))
    decreases n
  {
    var keys := seq(n, _ => KEY_POWER);
    if n > 0 {
      var d := Check(c, KEY_POWER, false);
      assert keys[1..] == seq(n - 1, _ => KEY_POWER);
      PowerRun(d.counters, n - 1);
      assert Actions(c, keys) == [d.action] + Actions(d.counters, keys[1..]);
    }
  }

  /** Seven power presses from the start reboot on the seventh, and only then. */
  lemma SevenPowerKeysReboot()
    ensures Actions(Fresh, seq(7, _ => KEY_POWER))
      == [Enqueue, Enqueue, Enqueue, Enqueue, Enqueue, Enqueue, Reboot]
  {
    var a := Actions(Fresh, seq(7, _ => KEY_POWER));
    PowerRun(Fresh, 7);
    assert forall i :: 0 <= i < 6 ==> a[i] == Enqueue;
  }

  /** Each key is a volume key and differs from the one before it. */
  predicate Alternating(keys: seq<int>)
  {
    && (forall i :: 0 <= i < |keys| ==> keys[i] == KEY_VOLUMEUP || keys[i] == KEY_VOLUMEDOWN)
    && (forall i :: 0 < i < |keys| ==> keys[i] != keys[i - 1])
  }

  /** An alternating run that continues last_key (or starts it afresh)
      counts one per key while the count stays below seven, queuing every
      key and remembering the latest one. */
  lemma {:induction false} AlternationCounts(c: Counters, keys: seq<int>)
    requires Alternating(keys) && |keys| > 0
    requires Alternates(c.lastKey, keys[0])
    requires c.alternateKeys + |keys| < 7
    ensures Actions(c, keys) == seq(|keys|, _ => Enqueue)
    ensures Final(c, keys) == Counters(0, c.alternateKeys + |keys|, keys[|keys| - 1])
    decreases |keys|
  {
    var d := Check(c, keys[0], false);
    assert d.counters == Counters(0, c.alternateKeys + 1, keys[0]);
    if |keys| > 1 {
      var rest := keys[1..];
      assert Alternating(rest) by {
        assert forall i :: 0 < i < |rest| ==> rest[i] == keys[i + 1] && rest[i - 1] == keys[i];
      }
      assert keys[1] != keys[0];
      AlternationCounts(d.counters, rest);
      assert Actions(c, keys) == [Enqueue] + seq(|rest|, _ => Enqueue);
    }
  }

  /** Seven alternating volume keys from the start: six are queued, the
      seventh mounts /system and clears the counter, and last_key is left at
      the sixth key because the mount exits before last_key is updated. */
  lemma SevenAlternationsMount(keys: seq<int>)
    requires Alternating(keys) && |keys| == 7
    ensures Actions(Fresh, keys) == [Enqueue, Enqueue, Enqueue, Enqueue, Enqueue, Enqueue, MountSystem]
    ensures Final(Fresh, keys) == Counters(0, 0, keys[5])
  {
    var six := keys[..6];
    assert Alternating(six) by {
      assert forall i :: 0 <= i < 6 ==> six[i] == keys[i];
    }
    AlternationCounts(Fresh, six);
    ActionsAppend(Fresh, six, keys[6..]);
    FinalAppend(Fresh, six, keys[6..]);
    assert six + keys[6..] == keys;
    assert keys[6..] == [keys[6]];
    assert keys[6] != keys[5];
  }

  /** Continuing the same alternation after a mount: last_key still holds the
      sixth key, which is the key that would continue the alternation, so the
      count starts again from zero instead of one. */
  lemma AlternationAfterMountRestarts(keys: seq<int>)
    requires Alternating(keys) && |keys| == 8
    ensures Actions(Fresh, keys)[7] == Enqueue
    ensures Final(Fresh, keys).alternateKeys == 0
  {
    SevenAlternationsMount(keys[..7]);
    assert keys[..7][5] == keys[5];
    assert keys[7] != keys[6] && keys[6] != keys[5];
    assert keys[5] in {KEY_VOLUMEUP, KEY_VOLUMEDOWN} && keys[6] in {KEY_VOLUMEUP, KEY_VOLUMEDOWN};
    assert keys[7] in {KEY_VOLUMEUP, KEY_VOLUMEDOWN};
    assert keys[7] == keys[5];
    ActionsAppend(Fresh, keys[..7], keys[7..]);
    FinalAppend(Fresh, keys[..7], keys[7..]);
    assert keys[..7] + keys[7..] == keys;
    assert keys[7..] == [keys[7]];
  }

  lemma {:induction false} ActionsAppend(c: Counters, a: seq<int>, b: seq<int>)
    ensures Actions(c, a + b) == Actions(c, a) + Actions(Final(c, a), b)
    decreases |a|
  {
    if |a| > 0 {
      var d := Check(c, a[0], false);
      assert (a + b)[0] == a[0];
      assert (a + b)[1..] == a[1..] + b;
      ActionsAppend(d.counters, a[1..], b);
    } else {
      assert a + b == b;
    }
  }

  lemma {:induction false} FinalAppend(c: Counters, a: seq<int>, b: seq<int>)
    ensures Final(c, a + b) == Final(Final(c, a), b)
    decreases |a|
  {
    if |a| > 0 {
      assert (a + b)[0] == a[0];
      assert (a + b)[1..] == a[1..] + b;
      FinalAppend(Check(c, a[0], false).counters, a[1..], b);
    } else {
      assert a + b == b;
    }
  }

  /** Repeating the last queued key breaks both counts unless it is power. */
  lemma SameKeyRepeatResets(c: Counters, key: int, powerHeld: bool)
    requires key == c.lastKey && key != KEY_POWER
    requires !(powerHeld && key == KEY_VOLUMEUP)
    ensures Check(c, key, powerHeld) == Decision(Enqueue, Counters(0, 0, key))
  {
  }
}
