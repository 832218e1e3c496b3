/** The shortcut record, its conversion to a keyboard action, and the
    compiled-in catalog of terminal shortcuts. */
module CustomShortcuts {
  import opened Wrappers
  import opened Actions
  import opened Android
  import opened Seqs

  /** A key combination shortcut. Equality is field by field, as for a Kotlin
      data class; the registry relies on this to detect changes. */
  datatype CustomShortcut = CustomShortcut(
    id: string,
    name: string,
    description: string,
    keyCode: int,
    metaState: int,
    icon: int)

  /** The constructor call with the `icon` argument omitted. */
  function NewShortcut(id: string, name: string, description: string, keyCode: int, metaState: int): (s: CustomShortcut)
    ensures s.icon == KeyboardGearFill
    ensures s.id == id && s.name == name && s.description == description
    ensures s.keyCode == keyCode && s.metaState == metaState
  {
    CustomShortcut(id, name, description, keyCode, metaState, KeyboardGearFill)
  }

  /** The action for a shortcut: pressing it sends exactly the shortcut's key
      code and meta state, it opens no window, and it shows the shortcut's icon. */
  function ToAction(s: CustomShortcut): (a: Action)
    ensures SentOnPress(a) == [KeyEvent(s.keyCode, s.metaState)]
    ensures IsKeyPressAction(a)
    ensures a.icon == s.icon && a.name == CustomShortcutDynamicName
  {
    Action(s.icon, CustomShortcutDynamicName, Some(KeyEvent(s.keyCode, s.metaState)), None)
  }

  const CtrlL := CustomShortcut("ctrl_l", "Clear Screen (Ctrl+L)", "Clear terminal screen",
    KeyCodeL, MetaCtrlOn, KeyboardKeyFeedbackMoreBackground)
  const CtrlR := CustomShortcut("ctrl_r", "Search History (Ctrl+R)", "Search command history",
    KeyCodeR, MetaCtrlOn, KeyboardKeyFeedbackMoreBackground)
  const CtrlZ := CustomShortcut("ctrl_z", "Suspend Process (Ctrl+Z)", "Suspend current process",
    KeyCodeZ, MetaCtrlOn, KeyboardKeyFeedbackMoreBackground)
  const CtrlD := CustomShortcut("ctrl_d", "EOF/Logout (Ctrl+D)", "Send EOF or logout",
    KeyCodeD, MetaCtrlOn, KeyboardKeyFeedbackMoreBackground)
  const CtrlW := CustomShortcut("ctrl_w", "Delete Word (Ctrl+W)", "Delete previous word",
    KeyCodeW, MetaCtrlOn, KeyboardKeyFeedbackMoreBackground)
  const CtrlU := CustomShortcut("ctrl_u", "Delete Line (Ctrl+U)", "Delete entire line",
    KeyCodeU, MetaCtrlOn, KeyboardKeyFeedbackMoreBackground)
  const CtrlK := CustomShortcut("ctrl_k", "Delete to End (Ctrl+K)", "Delete from cursor to end of line",
    KeyCodeK, MetaCtrlOn, KeyboardKeyFeedbackMoreBackground)
  const Esc := CustomShortcut("esc", "Escape", "Escape key",
    KeyCodeEscape, 0, KeyboardKeyFeedbackMoreBackground)
  const Tab := CustomShortcut("tab", "Tab", "Tab key",
    KeyCodeTab, 0, KeyboardKeyFeedbackMoreBackground)

  /** Every predefined shortcut, in catalog order. */
  const AllPredefined: seq<CustomShortcut> := [CtrlL, CtrlR, CtrlZ, CtrlD, CtrlW, CtrlU, CtrlK, Esc, Tab]

  /** The ids of a list of shortcuts, in order. */
  function Ids(xs: seq<CustomShortcut>): (r: seq<string>)
    ensures |r| == |xs|
    ensures forall i :: 0 <= i < |xs| ==> r[i] == xs[i].id
  {
    Map(xs, (s: CustomShortcut) => s.id)
  }

  /** The catalog is nine shortcuts in a fixed order, and no two share an id. */
  lemma CatalogOrder()
    ensures |AllPredefined| == 9
    ensures Ids(AllPredefined) == ["ctrl_l", "ctrl_r", "ctrl_z", "ctrl_d", "ctrl_w", "ctrl_u", "ctrl_k", "esc", "tab"]
    ensures NoDuplicates(Ids(AllPredefined))
  {
  }

  /** An id naming a control combination: it starts with `ctrl_`. */
  predicate IsCtrlId(id: string) {
    |id| >= 5 && id[..5] == "ctrl_"
  }

  /** A `ctrl_<letter>` entry sends its letter's key with the control flag;
      the two other entries (Escape and Tab) send no modifier. */
  lemma CatalogKeyBindings()
    ensures forall i :: 0 <= i < |AllPredefined| && IsCtrlId(AllPredefined[i].id) ==>
      var s := AllPredefined[i];
      && |s.id| == 6 && 'a' <= s.id[5] <= 'z'
      && s.keyCode == LetterKeyCode(s.id[5])
      && s.metaState == MetaCtrlOn
    ensures forall i :: 0 <= i < |AllPredefined| && !IsCtrlId(AllPredefined[i].id) ==>
      AllPredefined[i].metaState == 0
    ensures Esc.keyCode == KeyCodeEscape && Tab.keyCode == KeyCodeTab
  {
  }
}
