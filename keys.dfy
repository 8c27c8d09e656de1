// Constants from linux/input.h that the recovery input engine compares
// against, the hot-key decision kinds, and the calls the engine makes on
// its host (recorded as an effect log instead of being performed).
module Keys {

  // Event types.
  const EV_SYN := 0x00
  const EV_KEY := 0x01
  const EV_REL := 0x02
  const EV_ABS := 0x03

  // Event codes.
  const SYN_REPORT := 0
  const SYN_MT_REPORT := 2
  const REL_Y := 0x01
  const ABS_MT_POSITION_X := 0x35
  const ABS_MT_POSITION_Y := 0x36

  // Key codes.
  const KEY_UP := 103
  const KEY_DOWN := 108
  const KEY_VOLUMEDOWN := 114
  const KEY_VOLUMEUP := 115
  const KEY_POWER := 116
  const KEY_BACK := 158
  const BTN_TOUCH := 0x14a
  const KEY_MAX := 0x2ff

  datatype Option<T> = None | Some(value: T)

  /** One raw event as delivered by the event source. */
  datatype InputEvent = InputEvent(evType: int, code: int, value: int)

  /** Type and code of an input_event are 16-bit unsigned. */
  predicate WellFormedEvent(ev: InputEvent)
  {
    0 <= ev.evType < 0x1_0000 && 0 <= ev.code < 0x1_0000
  }

  /** What CheckKey decides for a registered key. */
  datatype KeyAction = Ignore | Toggle | Reboot | Enqueue | MountSystem

  /** A call the engine makes on code outside this model. */
  datatype Effect =
    | DialogDismiss
    | DialogShowInfo(message: string)
    | StartLongPressTimer(keyCode: int, count: int)  // the detached time_key thread
    | NextCheckKeyIsLong(isLongPress: bool)          // overridable no-op hook
    | KeyLongPress(keyCode: int)                     // overridable no-op hook
    | ToggleTextVisibility                           // ShowText(!IsTextVisible())
    | UnmountAllVolumes
    | Restart
    | MountPath(path: string)
    | PrintStatus(text: string)
}
