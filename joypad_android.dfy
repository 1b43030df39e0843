/**
 * JoypadControllerAndroid (controllers/joypad_android.cpp): eight key flags
 * that the touch handler writes and the emulator reads through isKeyPressed.
 */
module Joypad {

  /** FunkyBoy::Controller::JoypadKey: the eight keys, or any other value of the enumeration's type. */
  datatype JoypadKey = KeyA | KeyB | KeyLeft | KeyUp | KeyRight | KeyDown | KeyStart | KeySelect | Unlisted(code: int)

  /** A key isKeyPressed has a flag for. */
  predicate Listed(k: JoypadKey) {
    !k.Unlisted?
  }

  class JoypadController {
    var a: bool
    var b: bool
    var left: bool
    var up: bool
    var right: bool
    var down: bool
    var start: bool
    var select: bool

    /** All eight keys start unpressed. */
    constructor ()
      ensures forall k :: !IsKeyPressed(k)
    {
      a, b, left, up := false, false, false, false;
      right, down, start, select := false, false, false, false;
    }

    /** isKeyPressed(key): the flag of the key; a value outside the eight is never pressed. */
    function IsKeyPressed(key: JoypadKey): (pressed: bool)
      reads this
      ensures pressed ==> Listed(key)
    {
      match key
      case KeyA => a
      case KeyB => b
      case KeyLeft => left
      case KeyUp => up
      case KeyRight => right
      case KeyDown => down
      case KeyStart => start
      case KeySelect => select
      case Unlisted(_) => false
    }
  }
}
