/**
 * Decoded input: the pygame keys the game binds, key events, and the per-player
 * key bindings of lib/keymap.py.
 */
module Input {

  /** The keys the game refers to by name; any other key code is `OtherKey`. */
  datatype Key =
    | KLeft | KRight | KUp | KDown | KSpace | KReturn | KEscape
    | KLShift | KTab | KA | KD | KW | KI
    | OtherKey(code: int)

  /** One pygame event, as far as the game looks at it. */
  datatype Event = Quit | KeyDown(key: Key) | KeyUp(key: Key) | OtherEvent

  /** lib/keymap.py's KeyMap: which key does what for one player. */
  datatype KeyMap = KeyMap(left: Key, right: Key, jump: Key, shoot: Key, invincible: Key)

  /** The first player's bindings. */
  const KM1: KeyMap := KeyMap(KLeft, KRight, KSpace, KLShift, KI)
  /** The second player's bindings; the invincibility key is shared with KM1. */
  const KM2: KeyMap := KeyMap(KA, KD, KW, KTab, KI)
}
