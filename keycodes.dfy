/** Key codes as the X server reports them, and the one code the launcher
    recognises (src/main.cpp:41-50). */
module KeyCodes {

  /** The C++ `unsigned int` that carries a key code. */
  newtype u32 = x: int | 0 <= x < 0x1_0000_0000

  /** `KeyCode::Code`: an enumeration backed by `u32`; only Escape exists. */
  datatype Code = ESC

  /** The numeric value behind each enumerator. */
  function Value(c: Code): (v: u32)
  {
    match c
    case ESC => 0x09
  }

  /** `KeyCode::is`: does the raw key code `value` denote `keycode`? */
  function Is(value: u32, keycode: Code): (b: bool)
    ensures keycode == ESC ==> (b <==> value == 0x09)
  {
    value == Value(keycode)
  }
}
