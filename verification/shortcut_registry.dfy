/** The registry that turns the available shortcuts into keyed actions and
    remembers the last result. It rebuilds the map only when the available
    list differs, by value, from the list it last saw. */
module ShortcutRegistry {
  import opened Wrappers
  import opened Actions
  import opened Android
  import opened CustomShortcuts
  import ShortcutsManager

  /** The prefix of every key in the action map. */
  const KeyPrefix := "custom_shortcut_"

  /** The map key of the shortcut with id `id`. */
  function ActionKey(id: string): string {
    KeyPrefix + id
  }

  /** Distinct ids get distinct keys. */
  lemma ActionKeyInjective(a: string, b: string)
    ensures ActionKey(a) == ActionKey(b) ==> a == b
  {
    assert ActionKey(a)[|KeyPrefix|..] == a;
    assert ActionKey(b)[|KeyPrefix|..] == b;
  }

  /** The action the registry builds for a shortcut: a press sends exactly the
      shortcut's (key code, meta state), there is no window, and the icon is the
      shortcut's. It is the same action as the shortcut's own conversion. */
  function CreateActionFromShortcut(s: CustomShortcut): (a: Action)
    ensures SentOnPress(a) == [KeyEvent(s.keyCode, s.metaState)]
    ensures IsKeyPressAction(a) && a.icon == s.icon
    ensures a == ToAction(s)
  {
    Action(s.icon, CustomShortcutDynamicName, Some(KeyEvent(s.keyCode, s.metaState)), None)
  }

  /** No later shortcut in the list has the same id as the one at `i`. */
  predicate LastWithId(xs: seq<CustomShortcut>, i: int)
    requires 0 <= i < |xs|
  {
    forall j :: i < j < |xs| ==> xs[j].id != xs[i].id
  }

  /** The keys of `m` are exactly the keys of the shortcuts in `xs`. */
  ghost predicate KeysOf(xs: seq<CustomShortcut>, m: map<string, Action>) {
    m.Keys == set s | s in xs :: ActionKey(s.id)
  }

  /** Under each key, `m` holds the action of the last shortcut with that id. */
  ghost predicate LastActionsOf(xs: seq<CustomShortcut>, m: map<string, Action>) {
    forall i :: 0 <= i < |xs| && LastWithId(xs, i) ==>
      ActionKey(xs[i].id) in m && m[ActionKey(xs[i].id)] == CreateActionFromShortcut(xs[i])
  }

  /** Kotlin's `associate`: one entry per shortcut, keyed by its id, taken in
      list order, so when two shortcuts share an id the later one wins. */
  function Associate(xs: seq<CustomShortcut>): (m: map<string, Action>)
    ensures KeysOf(xs, m)
    ensures LastActionsOf(xs, m)
  {
    if |xs| == 0 then map[]
    else
      var init := xs[..|xs| - 1];
      var last := xs[|xs| - 1];
      assert init + [last] == xs;
      AssociateStep(init, last, Associate(init));
      Associate(init)[ActionKey(last.id) := CreateActionFromShortcut(last)]
  }

  /** Putting one more shortcut's entry keeps the map in step with the list. */
  lemma AssociateStep(init: seq<CustomShortcut>, last: CustomShortcut, m0: map<string, Action>)
    requires KeysOf(init, m0) && LastActionsOf(init, m0)
    ensures var xs, m := init + [last], m0[ActionKey(last.id) := CreateActionFromShortcut(last)];
      KeysOf(xs, m) && LastActionsOf(xs, m)
  {
    AssociateStepKeys(init, last, m0);
    AssociateStepValues(init, last, m0);
  }

  lemma AssociateStepKeys(init: seq<CustomShortcut>, last: CustomShortcut, m0: map<string, Action>)
    requires KeysOf(init, m0)
    ensures KeysOf(init + [last], m0[ActionKey(last.id) := CreateActionFromShortcut(last)])
  {
    var xs := init + [last];
    assert forall s :: s in xs <==> s in init || s == last;
    assert (set s | s in xs :: ActionKey(s.id)) == (set s | s in init :: ActionKey(s.id)) + {ActionKey(last.id)};
  }

  lemma AssociateStepValues(init: seq<CustomShortcut>, last: CustomShortcut, m0: map<string, Action>)
    requires LastActionsOf(init, m0)
    ensures LastActionsOf(init + [last], m0[ActionKey(last.id) := CreateActionFromShortcut(last)])
  {
    var xs, m := init + [last], m0[ActionKey(last.id) := CreateActionFromShortcut(last)];
    forall i | 0 <= i < |xs| && LastWithId(xs, i)
      ensures ActionKey(xs[i].id) in m && m[ActionKey(xs[i].id)] == CreateActionFromShortcut(xs[i])
    {
      if i < |init| {
        assert xs[i] == init[i];
        assert forall j :: 0 <= j < |init| ==> xs[j] == init[j];
        assert LastWithId(init, i);
        assert xs[|xs| - 1] == last;
        ActionKeyInjective(xs[i].id, last.id);
      }
    }
  }

  /** The registry's two cached fields. */
  datatype Registry = Registry(customShortcutActions: map<string, Action>, lastKnownShortcuts: seq<CustomShortcut>)

  /** Both fields start empty. */
  const InitialRegistry := Registry(map[], [])

  /** The cache invariant: the cached map is the one built from the remembered list. */
  predicate Consistent(reg: Registry) {
    reg.customShortcutActions == Associate(reg.lastKnownShortcuts)
  }

  /** The result of one lookup: the registry afterwards, the map returned, and
      how many actions were built to produce it. */
  datatype Fetched = Fetched(registry: Registry, actions: map<string, Action>, built: nat)

  /** `getCustomShortcutActions`: rebuild the map when the available list is not
      value-equal to the remembered one, then return the cached map. */
  function GetCustomShortcutActions(reg: Registry, st: ShortcutsManager.Store): (f: Fetched)
    ensures f.registry.lastKnownShortcuts == ShortcutsManager.GetAvailableShortcuts(st)
    ensures f.actions == f.registry.customShortcutActions
    ensures Consistent(reg) ==> Consistent(f.registry)
    ensures Consistent(reg) ==> f.actions == Associate(ShortcutsManager.GetAvailableShortcuts(st))
    ensures reg.lastKnownShortcuts == ShortcutsManager.GetAvailableShortcuts(st) <==> f.built == 0 && f.registry == reg
    ensures reg.lastKnownShortcuts != ShortcutsManager.GetAvailableShortcuts(st) ==>
      f.built == |ShortcutsManager.GetAvailableShortcuts(st)|
  {
    var current := ShortcutsManager.GetAvailableShortcuts(st);
    if current != reg.lastKnownShortcuts then
      Fetched(Registry(Associate(current), current), Associate(current), |current|)
    else
      Fetched(reg, reg.customShortcutActions, 0)
  }

  /** `getShortcutAction`: look the id's key up in the current map. With a
      consistent cache, an action is found exactly when some available
      shortcut has the id, and it is the action of the last such shortcut. */
  function GetShortcutAction(reg: Registry, st: ShortcutsManager.Store, id: string): (r: (Registry, Option<Action>))
    ensures Consistent(reg) ==> Consistent(r.0)
    ensures r.0.lastKnownShortcuts == ShortcutsManager.GetAvailableShortcuts(st)
    ensures Consistent(reg) ==>
      var available := ShortcutsManager.GetAvailableShortcuts(st);
      && (r.1.Some? <==> exists s :: s in available && s.id == id)
      && (r.1.Some? ==> exists i :: 0 <= i < |available| && available[i].id == id
                           && LastWithId(available, i)
                           && r.1.value == CreateActionFromShortcut(available[i]))
  {
    var f := GetCustomShortcutActions(reg, st);
    var key := ActionKey(id);
    AssociateLookup(ShortcutsManager.GetAvailableShortcuts(st), id);
    (f.registry, if key in f.actions then Some(f.actions[key]) else None)
  }

  /** Looking an id up in an associated map: present exactly when some
      shortcut has the id, and then the action of the last one. */
  lemma AssociateLookup(xs: seq<CustomShortcut>, id: string)
    ensures var m := Associate(xs);
      && (ActionKey(id) in m <==> exists s :: s in xs && s.id == id)
      && (ActionKey(id) in m ==> exists i :: 0 <= i < |xs| && xs[i].id == id
                                   && LastWithId(xs, i)
                                   && m[ActionKey(id)] == CreateActionFromShortcut(xs[i]))
  {
    var m := Associate(xs);
    if ActionKey(id) in m {
      assert ActionKey(id) in set s | s in xs :: ActionKey(s.id);
      var s :| s in xs && ActionKey(id) == ActionKey(s.id);
      ActionKeyInjective(id, s.id);
      var i := LastIndexOfId(xs, id);
    }
  }

  /** The position of the last shortcut with the given id. */
  function LastIndexOfId(xs: seq<CustomShortcut>, id: string): (i: int)
    requires exists s :: s in xs && s.id == id
    ensures 0 <= i < |xs| && xs[i].id == id && LastWithId(xs, i)
  {
    if xs[|xs| - 1].id == id then |xs| - 1
    else
      assert forall s :: s in xs ==> s in xs[..|xs| - 1] || s == xs[|xs| - 1];
      LastIndexOfId(xs[..|xs| - 1], id)
  }

  /** `clearCache`: both fields back to empty, which is consistent. */
  function ClearCache(reg: Registry): (r: Registry)
    ensures Consistent(r)
    ensures r == InitialRegistry
  {
    Registry(map[], [])
  }

  /** The calls that reach the registry. */
  datatype RegistryCall = Fetch(st: ShortcutsManager.Store) | Clear

  /** The registry after one call. */
  function Step(reg: Registry, call: RegistryCall): Registry {
    match call
    case Fetch(st) => GetCustomShortcutActions(reg, st).registry
    case Clear => ClearCache(reg)
  }

  /** Applies the calls in order. */
  function Run(reg: Registry, calls: seq<RegistryCall>): Registry
    decreases |calls|
  {
    if |calls| == 0 then reg else Run(Step(reg, calls[0]), calls[1..])
  }

  /** The cache invariant holds from the start and after any sequence of calls. */
  lemma {:induction false} RunKeepsConsistent(reg: Registry, calls: seq<RegistryCall>)
    requires Consistent(reg)
    ensures Consistent(Run(reg, calls))
    decreases |calls|
  {
    if |calls| > 0 {
      RunKeepsConsistent(Step(reg, calls[0]), calls[1..]);
    }
  }

  lemma InitialRegistryConsistent()
    ensures Consistent(InitialRegistry)
  {
  }

  /** Two lookups with no change in between: the second builds nothing and
      returns the same map. */
  lemma RepeatedFetchIsMemoized(reg: Registry, st: ShortcutsManager.Store)
    ensures var first := GetCustomShortcutActions(reg, st);
      var second := GetCustomShortcutActions(first.registry, st);
      second.built == 0 && second.actions == first.actions && second.registry == first.registry
  {
  }

  /** After `clearCache`, a lookup with a non-empty available list rebuilds
      every action even if nothing changed. */
  lemma ClearForcesRebuild(reg: Registry, st: ShortcutsManager.Store)
    requires |ShortcutsManager.GetAvailableShortcuts(st)| > 0
    ensures GetCustomShortcutActions(ClearCache(reg), st).built == |ShortcutsManager.GetAvailableShortcuts(st)|
  {
  }

  /** When two available shortcuts share an id, the later one's action is stored. */
  lemma LaterDuplicateWins(a: CustomShortcut, b: CustomShortcut)
    requires a.id == b.id
    ensures Associate([a, b])[ActionKey(a.id)] == CreateActionFromShortcut(b)
  {
    assert LastWithId([a, b], 1);
  }

  /** The action that opens the shortcut manager window: no press behaviour,
      only a window. */
  const CustomShortcutsManagerAction :=
    Action(KeyboardGearFill, ActionCustomShortcutsManagerTitle, None, Some(CustomShortcutsManagerWindow))

  lemma ManagerActionOnlyOpensWindow()
    ensures SentOnPress(CustomShortcutsManagerAction) == []
    ensures CustomShortcutsManagerAction.window == Some(CustomShortcutsManagerWindow)
  {
  }
}
