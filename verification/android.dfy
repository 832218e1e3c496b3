/** Platform constants the shortcut code refers to. The key codes and the
    control meta flag carry the values of the Android SDK's `KeyEvent`; resource
    ids are assigned by the build, so each drawable and string gets a distinct
    placeholder number here and nothing depends on the numbers themselves. */
module Android {

  /** `KeyEvent.KEYCODE_A`; the letter key codes A..Z are consecutive. */
  const KeyCodeA: int := 29
  const KeyCodeD: int := 32
  const KeyCodeK: int := 39
  const KeyCodeL: int := 40
  const KeyCodeR: int := 46
  const KeyCodeU: int := 49
  const KeyCodeW: int := 51
  const KeyCodeZ: int := 54
  const KeyCodeTab: int := 61
  const KeyCodeEscape: int := 111

  /** `KeyEvent.META_CTRL_ON`. */
  const MetaCtrlOn: int := 0x1000

  /** The key code of a lower-case Latin letter. */
  function LetterKeyCode(c: char): int
    requires 'a' <= c <= 'z'
  {
    KeyCodeA + ((c as int) - ('a' as int))
  }

  // Drawable resource ids (placeholders).
  const KeyboardGearFill: int := 1
  const KeyboardKeyFeedbackMoreBackground: int := 2
  const Maximize: int := 3
  const Search: int := 4
  const Undo: int := 5
  const Close: int := 6
  const DirectionArrows: int := 7

  // String resource ids (placeholders).
  const CustomShortcutDynamicName: int := 101
  const ActionCustomShortcutsManagerTitle: int := 102
}
