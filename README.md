# RecoveryUI input engine

A Dafny model of the input engine of the Android recovery's `RecoveryUI`
(`ui.cpp`), with proofs of what it does. The engine turns raw input events
into keys for the recovery menu:

- `process_key` records which keys are held and registers a key when its
  release directly follows its own press; a press starts a timer
  (`time_key`) that marks it as long if the same press is still the latest
  one when the timer fires;
- the built-in `CheckKey` hot-key detector reacts to registered keys:
  power held plus volume-up toggles the text display, seven power keys in
  a row reboot, seven alternating volume keys mount `/system`, and every
  other key is queued;
- the key queue is a fixed array with a length: `EnqueueKey` (which hands
  the key to a showing dialog instead), `CancelWaitKey`, `FlushKeys` and the
  dequeue step that ends `WaitKey`;
- `process_swipe` recognises touchscreen swipes and queues volume, power
  and back keys directly, and `input_callback` turns trackball motion into
  up and down presses;
- `NotifyVolumesChanged` / `VolumesChanged` form a one-shot flag;
- `message_socket_client_event` splits a control message in place with
  `string_split` and shows or dismisses the dialog.

The object is the class `UI.RecoveryUI` (`recovery_ui.dfy`), with the C++
fields as fields. `key_queue` and `key_pressed` are arrays, and
`key_queue_len` plus the other counters and flags are plain fields. Every
method is proved to move the abstract state `State()` exactly as a function
of module `Engine` (`engine.dfy`) says. Those functions are built from
smaller modules, each with its own lemmas:

- `KeyTracker` (`tracker.dfy`): key registration and long-press detection.
- `HotKeys` (`hotkeys.dfy`): the `CheckKey` counters.
- `KeyQueue` (`queue.dfy`): the queue as a sequence, and the dialog
  redirect.
- `Synthesis` (`synthesis.dfy`): the swipe recogniser and the trackball.

The control channel is modelled in two modules:

- `Split` (`split.dfy`): `string_split` as an in-place method over an
  `array<char>`, proved against `SplitFields`, the pure description of the
  fields it produces.
- `Control` (`control.dfy`): the decoding of the fields.

Calls the engine makes on code outside it are appended to an effect log, of
type `Keys.Effect`, instead of being performed. These are the dialog hooks,
the text toggle, `vold_unmount_all`, `android_reboot`,
`ensure_path_mounted`, `Print`, starting a long-press timer, and the
`NextCheckKeyIsLong` and `KeyLongPress` hooks.

The answers of `DialogShowing()` and `DialogDismissable()` are passed in as
a `DialogHost` value. The touch coordinate, already scaled to the screen,
is passed in as an integer.

## Model

| member | source | states |
|---|---|---|
| Split.SpaceFromIsFirst | ui.cpp:57-59 | the search returns a space with no space before it from the starting index, or -1 exactly when no space is left |
| Split.StrChrSpace | ui.cpp:57-59 | scanning the C string from `from` to its NUL finds the first space, or returns -1 exactly when the string holds none |
| Split.SplitFieldsShape | ui.cpp:53-68 | a split into at most `maxfields` fields gives between 1 and `maxfields` fields; all but the last hold no space, and so does the last when fewer than `maxfields` came out; joining them with single spaces gives back the string |
| Split.SplitFieldsNoNul | ui.cpp:53-68 | splitting a string without NULs gives fields without NULs |
| Split.StringSplit | ui.cpp:53-68 | returns the number of fields of `SplitFields`; each returned start index begins a NUL-terminated copy of that field in the buffer; the starts are `Packed`: the first is 0 and each later one lies just past the NUL that ends the field before; a cell changes only if it lies just before a returned start, and only a space can become a NUL |
| Split.PackedAdjacent | ui.cpp:56-65 | packed starts begin at 0 and each lies one past the end of the previous field, which is where the NUL goes |
| Split.CutSeparators | ui.cpp:55-63 | the loop of `string_split`: fewer than `maxfields` fields are cut, each cut cell lies just before a later start, and the scan stops only when `maxfields` is reached or no space is left |
| Control.MessageCallsCases | ui.cpp:97-109 | a message starting `dialog show ` shows everything after the second space; `dialog dismiss`, alone or followed by a space, dismisses; anything else makes no call |
| Control.CallsNeedCommand | ui.cpp:99-109 | a message that makes any dialog call is a show or a dismiss command |
| Control.MessageSocketClientEvent | ui.cpp:75-109 | no pending input does nothing; a failed or empty read dismisses the dialog and closes the client; otherwise the calls are those `MessageCalls` gives for the message as it was before the split |
| KeyTracker.DownCountCountsPresses | ui.cpp:218-219 | after any run of events, `key_down_count` has grown by the number of presses |
| KeyTracker.LastDownIsLatestKey | ui.cpp:218-234 | after a run, `key_last_down` is the code of the latest key event when it was a press and -1 when it was a release; timers do not matter |
| KeyTracker.TimersKeepLastDown | ui.cpp:278-280 | timers change neither `key_last_down` nor `key_down_count` |
| KeyTracker.RegisteredIffReleaseFollowsOwnPress | ui.cpp:229-234 | a key event registers exactly when it is a release and the latest earlier key event was the press of the same key |
| KeyTracker.TimersAfterPress | ui.cpp:278-280 | after a press, a run of timers sets the long-press flag exactly when one of them belongs to that press |
| KeyTracker.LongPressReported | ui.cpp:218-280 | press, timers, release: the release registers, and is reported long exactly when the timer of that press fired in between |
| KeyTracker.StaleTimerIsNoOp | ui.cpp:278-280 | a timer whose count predates the current one changes nothing, however many events come first |
| KeyTracker.ReleasedTimerIsNoOp | ui.cpp:234 | once its key is released, a timer reports nothing |
| HotKeys.Check | ui.cpp:480-509 | the toggle chord; the power counter and REBOOT at seven without a reset; the alternation counter and MOUNT_SYSTEM at seven, with the counter cleared; `last_key` changing only when the key is queued; never IGNORE |
| HotKeys.PowerRun | ui.cpp:485-492 | n power keys in a row: the counter grows by n, and the i-th key reboots exactly when the starting count plus i + 1 reaches seven; every other one is queued |
| HotKeys.SevenPowerKeysReboot | ui.cpp:485-489 | from the start, seven power keys give six ENQUEUE and then REBOOT |
| HotKeys.AlternationCounts | ui.cpp:494-506 | an alternating run of volume keys that stays below seven counts one per key, queues every key and remembers the latest |
| HotKeys.SevenAlternationsMount | ui.cpp:494-508 | seven alternating volume keys from the start give six ENQUEUE and then MOUNT_SYSTEM, with the counter cleared and `last_key` left at the sixth key |
| HotKeys.AlternationAfterMountRestarts | ui.cpp:499-506 | an eighth alternating key after the mount is queued, but its count starts again from zero |
| HotKeys.SameKeyRepeatResets | ui.cpp:485-506 | repeating the last queued key, other than power and outside the toggle chord, resets both counters |
| KeyQueue.PushAllKeepsFirst | ui.cpp:377-381 | pushing a run of keys keeps the queue and, in order, as many of the new keys as fit |
| KeyQueue.PushAllAtCapacity | ui.cpp:378-381 | a full queue ignores every further key |
| KeyQueue.Offer | ui.cpp:369-383 | with a dialog showing, the queue is unchanged and the only call made is one `DialogDismiss`, exactly when the dialog is dismissable; otherwise the key is pushed and no call is made; the old entries are always kept |
| KeyQueue.DrainIsFifo | ui.cpp:432-436 | n dequeues return the queued keys in order, then -1 for every step past the end |
| KeyQueue.QueueRoundTrip | ui.cpp:369-438 | keys enqueued with no dialog showing come back out in the order they went in, up to the capacity |
| Synthesis.OnlySyncEmits | ui.cpp:315-364 | only a sync event that ends a touch can produce a key |
| Synthesis.GestureClose | ui.cpp:324-343 | a multitouch report with no touch in progress clears the gesture and emits nothing; any other sync clears `in_touch` and emits at most one key, tested in the order down, up, power, back by strict comparison; the gesture is cleared exactly when a key is emitted |
| Synthesis.TouchValuesLeaveCountAtZero | ui.cpp:315-322 | BTN_TOUCH values 0 and 1, compared with the key codes KEY_DOWN and KEY_UP, leave a zero `mt_count` at zero and clear the gesture |
| Synthesis.PositionSample | ui.cpp:345-363 | one X or Y sample marks the touch in progress, records the position and keeps the previous one as `old_*`; the motion grows by the distance moved, and not at all after a cleared (zero) position; the other axis and `mt_count` are untouched and no key comes out |
| Synthesis.SamplesAccumulate | ui.cpp:345-363 | nonzero samples on either axis add up to the distance from the previous or first position to the last one, and leave the other axis alone |
| Synthesis.SwipeRightYieldsPower | ui.cpp:331-353 | a touch that starts cleared and moves right by more than the threshold, with no vertical motion, ends as a power key |
| Synthesis.SwipeDownYieldsVolumeDown | ui.cpp:331-363 | a touch that starts cleared and moves down by more than the threshold ends as a volume-down key, whatever the horizontal motion |
| Synthesis.FramesAccumulate | ui.cpp:324-363 | a sync whose motion stays within both thresholds only clears `in_touch` and keeps the positions, so the next frame's samples continue the motion from the last position of the frame before |
| Synthesis.Trackball | ui.cpp:171-192 | the sum stays within -3..3; KEY_DOWN exactly when vertical motion takes the sum above 3, KEY_UP exactly when below -3, and then the sum is reset; vertical motion within the threshold is added to the sum; sync events and other relative motion leave the sum and emit nothing; every other event type resets the sum to 0 and emits nothing |
| Synthesis.UnitStepsDown | ui.cpp:174-188 | n one-step downward motions give one KEY_DOWN per four steps, with the remainder left in the sum |
| Engine.InitialState | ui.cpp:126-149 | the starting state is well formed exactly when the capacity is not negative, with empty queue and effect log |
| Engine.ProcessKeyKeepsWellFormed | ui.cpp:212-265 | `process_key` keeps `key_pressed` at full size and the queue within capacity |
| Engine.InputKeepsWellFormed | ui.cpp:160-198 | so does `input_callback` |
| Engine.EnqueueKeepsQueued | ui.cpp:369-383 | `EnqueueKey` never drops or reorders queued keys; it appends exactly when no dialog is showing and there is room |
| Engine.DownThenUpRegisters | ui.cpp:212-265 | an ordinary key pressed and released is registered as a short press and queued; the counters, key state and effects are as stated |
| Engine.LongPressThroughTimer | ui.cpp:212-283 | a press whose timer fires before its release is reported to the long-press hook and then registered as long |
| Engine.TrackballPastThresholdEnqueuesDown | ui.cpp:179-183 | trackball motion past +3 queues KEY_DOWN through the hot-key check and resets the sum |
| Engine.SwipeKeysBypassCheckKey | ui.cpp:331-343 | a sync event leaves the hot-key counters, key state and trackball sum alone; a swipe key goes through `EnqueueKey` only |
| Engine.OtherEventsResetTrackballOnly | ui.cpp:190-192 | an event of any other type only resets the trackball sum |
| Engine.KeyAndAbsResetTrackball | ui.cpp:169-197 | a key or absolute event takes the swipe step, resets the trackball sum to 0 and, for a key code up to KEY_MAX, then goes through `process_key` |
| Engine.DequeueIsFifo | ui.cpp:432-436 | a key enqueued behind others comes out after them |
| Engine.CancelAndFlushSeenByDequeue | ui.cpp:396-403 | after a flush, a dequeue returns -1; after a flush and a cancel, it returns -2 |
| Engine.VolumesChangedOneShot | ui.cpp:517-526 | after a notification, the first query says yes and clears the flag, and the second says no |
| Engine.VolumesChangedReportsOnlyOne | ui.cpp:521-526 | a query says yes exactly when the flag is 1, and clears any positive value |
| UI.RecoveryUI.constructor | ui.cpp:126-149 | the fields start as the constructor sets them |
| UI.RecoveryUI.IsKeyPressed | ui.cpp:460-466 | reports whether the key's entry in `key_pressed` is nonzero |
| UI.RecoveryUI.CheckKey | ui.cpp:480-509 | returns the decision of `HotKeys.Check` and updates only the counters |
| UI.RecoveryUI.EnqueueKey | ui.cpp:369-383 | the new state is `EnqueueKeyState`: the dialog redirect, then an append if there is room |
| UI.RecoveryUI.ProcessKey | ui.cpp:212-265 | the new state is `ProcessKeyState` |
| UI.RecoveryUI.RecordKey | ui.cpp:216-236 | updates `key_pressed` and the tracker as `KeyStep` says, logs the timer start on a press, and returns the registration and the long-press flag |
| UI.RecoveryUI.RegisterKey | ui.cpp:238-264 | reports the long-press flag, asks `CheckKey`, and carries out its decision |
| UI.RecoveryUI.TimeKey | ui.cpp:276-282 | the new state is `TimeKeyState`: the flag is set and the hook called exactly when the timer belongs to the latest press |
| UI.RecoveryUI.ResetGestures | ui.cpp:295-302 | only the gesture changes, as `ResetGesture` says |
| UI.RecoveryUI.ProcessSwipe | ui.cpp:315-367 | the new state is `SwipeState` |
| UI.RecoveryUI.TouchButton | ui.cpp:315-322 | the BTN_TOUCH branch, as `SwipeState` says |
| UI.RecoveryUI.SyncGesture | ui.cpp:324-343 | the sync branch, as `SwipeState` says |
| UI.RecoveryUI.SampleX | ui.cpp:345-353 | the horizontal sample branch, as `SwipeState` says |
| UI.RecoveryUI.SampleY | ui.cpp:355-363 | the vertical sample branch, as `SwipeState` says |
| UI.RecoveryUI.InputCallback | ui.cpp:169-197 | the new state is `InputState` |
| UI.RecoveryUI.RelativeMotion | ui.cpp:173-189 | the trackball sum follows `Trackball`, and a key it produces is pressed and released through `process_key` |
| UI.RecoveryUI.CancelWaitKey | ui.cpp:396-403 | -2 is appended at the tail, and nothing else changes |
| UI.RecoveryUI.FlushKeys | ui.cpp:468-472 | the queue becomes empty, and nothing else changes |
| UI.RecoveryUI.DequeueKey | ui.cpp:432-438 | returns the first key, or -1, and leaves the rest of the queue moved down by one |
| UI.RecoveryUI.MoveDown | ui.cpp:435 | the n cells after the first move down one place, and the rest of the array is unchanged |
| UI.RecoveryUI.NotifyVolumesChanged | ui.cpp:517-519 | sets the flag to 1 |
| UI.RecoveryUI.VolumesChanged | ui.cpp:521-526 | answers and clears as `VolumesChangedState` says |

The BTN_TOUCH branch compares the event value with the key codes `KEY_DOWN`
(108) and `KEY_UP` (103), as the code does. A touchscreen sends 1 and 0, so
`mt_count` never moves from zero and every BTN_TOUCH event clears the
gesture (`Synthesis.TouchValuesLeaveCountAtZero`). This is modelled as
written. Whether it was intended cannot be told from the code.

## Left out

- Threads and locking: the mutex, the condition variable, the detached
  timer threads and the 750 ms sleep are left out. Every method runs to
  completion, and a timer firing is a call of `TimeKey` with the count its
  press captured.
- The timed wait of `WaitKey` is left out, because it depends on the clock
  and on `usb_connected`. Only its final dequeue step (`DequeueKey`) is
  modelled.
- The event-loop and device plumbing are left out, because they are I/O:
  `ev_init`, `ev_add_fd`, `ev_wait`, `ev_dispatch`, `ev_get_input`,
  `ev_del_fd`, the `EVIOCGABS` ioctl, `message_socket_listen_event`,
  `Init` and `input_thread`. `InputCallback` models only an event that was
  read successfully.
- MessageSocket `Read` and `Close` are I/O. `MessageSocketClientEvent`
  takes the poll result, the read count and the buffer as parameters. It
  assumes a message without NULs that is NUL-terminated within the buffer.
- Floating point is left out. The coordinate scaling by `max_*_touch` and
  the framebuffer size becomes the integer parameter `scaled`, and
  `set_min_swipe_lengths` is left out. The thresholds keep their
  constructor values 100 and 80.
- Foreign calls are recorded in the effect log instead of being performed.
  `android_reboot` is modelled as returning.
- `printf` logging is left out.
- Integers are unbounded, and so are event values and scaled
  coordinates. The C `int` wrap-around of `rel_sum += ev->value`
  (ui.cpp:179) and of `diff_x`/`diff_y` (ui.cpp:353, 363) on extreme
  values is not modelled, nor is that of the press and key counters.
- `key_pressed`, `rel_sum` and `v_changed` start at 0 in the model. The
  constructor shown does not initialise them.
- The queue capacity is a constructor parameter greater than zero, because
  the declaration of `key_queue` is not shown.
- `key_pressed` has `KEY_MAX + 1` entries, for the same reason.
- `CancelWaitKey` requires room in the queue, because the code writes
  without a bounds check.
- UI.RecoveryUI.MoveDown: the `memcpy` of overlapping regions is modelled
  as a front-to-back copy, which is what the code relies on.
- The `NO_RECOVERY_MOUNT` build option is taken as undefined, so
  MOUNT_SYSTEM mounts `/system` and prints.
- Only the default `CheckKey` is modelled, not device overrides.
- The dialog state is a snapshot passed to each call. The engine reaches
  `EnqueueKey` at most once per call that receives the snapshot.
