/** Keypresses as the terminal input hook delivers them to every screen. */
module Keys {

  /**
   * The typed text (`input`, possibly several characters when pasted, empty
   * for a special key) and the flags of the key; `enter` is ink's `key.return`.
   */
  datatype KeyEvent = KeyEvent(
    input: string,
    enter: bool,
    escape: bool,
    upArrow: bool,
    downArrow: bool,
    backspace: bool,
    delete: bool,
    ctrl: bool,
    meta: bool)

  /** A printable key press without modifiers. */
  function Typed(s: string): KeyEvent
  {
    KeyEvent(s, false, false, false, false, false, false, false, false)
  }

  const Enter := KeyEvent("", true, false, false, false, false, false, false, false)
  const Escape := KeyEvent("", false, true, false, false, false, false, false, false)
}
