/** The five standalone terminal actions. Each one sends one key press and opens
    no window. */
module TerminalActions {
  import opened Wrappers
  import opened Actions
  import opened Android
  import CustomShortcuts

  const CtrlLAction := Action(Maximize, CustomShortcutDynamicName, Some(KeyEvent(KeyCodeL, MetaCtrlOn)), None)
  const CtrlRAction := Action(Search, CustomShortcutDynamicName, Some(KeyEvent(KeyCodeR, MetaCtrlOn)), None)
  const CtrlZAction := Action(Undo, CustomShortcutDynamicName, Some(KeyEvent(KeyCodeZ, MetaCtrlOn)), None)
  const EscAction := Action(Close, CustomShortcutDynamicName, Some(KeyEvent(KeyCodeEscape, 0)), None)
  const TabAction := Action(DirectionArrows, CustomShortcutDynamicName, Some(KeyEvent(KeyCodeTab, 0)), None)

  /** A standalone action and the catalog entry with the same id send the same
      key press. They differ only in the icon. */
  predicate SendsLike(a: Action, s: CustomShortcuts.CustomShortcut) {
    && IsKeyPressAction(a)
    && SentOnPress(a) == SentOnPress(CustomShortcuts.ToAction(s))
    && a.name == CustomShortcuts.ToAction(s).name
  }

  /** Each terminal action sends its catalog entry's (key code, meta state) and has no window. */
  lemma TerminalActionsMatchCatalog()
    ensures SentOnPress(CtrlLAction) == [KeyEvent(KeyCodeL, MetaCtrlOn)]
    ensures SentOnPress(CtrlRAction) == [KeyEvent(KeyCodeR, MetaCtrlOn)]
    ensures SentOnPress(CtrlZAction) == [KeyEvent(KeyCodeZ, MetaCtrlOn)]
    ensures SentOnPress(EscAction) == [KeyEvent(KeyCodeEscape, 0)]
    ensures SentOnPress(TabAction) == [KeyEvent(KeyCodeTab, 0)]
    ensures SendsLike(CtrlLAction, CustomShortcuts.CtrlL)
    ensures SendsLike(CtrlRAction, CustomShortcuts.CtrlR)
    ensures SendsLike(CtrlZAction, CustomShortcuts.CtrlZ)
    ensures SendsLike(EscAction, CustomShortcuts.Esc)
    ensures SendsLike(TabAction, CustomShortcuts.Tab)
  {
  }
}
