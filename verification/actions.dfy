/** The keyboard's action record, reduced to what the shortcut code sets:
    an icon, a name, an optional press behaviour and an optional window. */
module Actions {
  import opened Wrappers

  /** A synthetic key press handed to the keyboard: `sendKeyEvent(keyCode, metaState)`. */
  datatype KeyEvent = KeyEvent(keyCode: int, metaState: int)

  /** The windows an action can open; the shortcut code opens only the manager window. */
  datatype Window = CustomShortcutsManagerWindow

  /** An action. `pressSends` is the key event a press sends (the
      `simplePressImpl` of the Kotlin action, which in this code only ever sends one
      key event), `None` for no press behaviour; `window` is the window the
      action opens (`windowImpl`), `None` for no window. */
  datatype Action = Action(icon: int, name: int, pressSends: Option<KeyEvent>, window: Option<Window>)

  /** What the keyboard receives when the action's press behaviour runs:
      nothing when it has none. */
  function SentOnPress(a: Action): seq<KeyEvent> {
    match a.pressSends
    case Some(e) => [e]
    case None => []
  }

  /** An action that acts by a key press alone. */
  predicate IsKeyPressAction(a: Action) {
    a.pressSends.Some? && a.window.None?
  }
}
