/** Storage of the user's shortcuts and of the enabled shortcut ids in the
    settings store. Every operation reads what it needs, transforms it in memory
    and writes it back; here each one is a pure function from store to store. */
module ShortcutsManager {
  import opened Wrappers
  import opened Seqs
  import opened Text
  import opened CustomShortcuts

  /** The stored JSON text of the shortcut list, kept abstract: either the
      encoding of a list of shortcuts, or text that does not decode to one. */
  datatype StoredShortcuts = Encoded(shortcuts: seq<CustomShortcut>) | Undecodable(text: string)

  /** The two settings the manager owns: the `custom_shortcuts` text and the
      `enabled_custom_shortcuts` comma-separated text. */
  datatype Store = Store(customShortcuts: StoredShortcuts, enabledShortcuts: string)

  /** The settings' default values: `"[]"` (the empty list) and `""`. */
  const InitialStore := Store(Encoded([]), "")

  /** The separator of the stored enabled ids. */
  const Separator := ','

  /** The ids enabled on first run, in the order they are seeded. */
  const DefaultEnabled: seq<string> := [CtrlL.id, CtrlR.id, CtrlZ.id, Esc.id, Tab.id]

  /** An id that survives being stored in the comma-separated text. */
  predicate StorableId(id: string) {
    !IsBlank(id) && Separator !in id
  }

  /** An enabled set as it is read back: storable ids, none twice. */
  predicate WellFormedEnabled(ids: seq<string>) {
    NoDuplicates(ids) && forall id :: id in ids ==> StorableId(id)
  }

  /** Reading the shortcut list: the decoded list, or the empty list when the
      stored text does not decode (the failure is swallowed). */
  function GetCustomShortcuts(st: Store): seq<CustomShortcut> {
    match st.customShortcuts
    case Encoded(list) => list
    case Undecodable(_) => []
  }

  /** Writing the shortcut list replaces the stored list wholesale: it reads
      back as written, and the enabled ids are untouched. */
  function SaveCustomShortcuts(st: Store, shortcuts: seq<CustomShortcut>): (st': Store)
    ensures GetCustomShortcuts(st') == shortcuts
    ensures st'.enabledShortcuts == st.enabledShortcuts
  {
    st.(customShortcuts := Encoded(shortcuts))
  }

  /** A token that is kept when the enabled ids are read. */
  predicate NonBlank(t: string) {
    !IsBlank(t)
  }

  /** Reading the enabled ids: split the stored text on commas, drop blank
      tokens, collect into an insertion-ordered set. */
  function ParseEnabled(raw: string): (r: seq<string>)
    ensures WellFormedEnabled(r)
    ensures forall id :: id in r <==> id in Split(raw, Separator) && !IsBlank(id)
    ensures WellFormedEnabled(Split(raw, Separator)) ==> r == Split(raw, Separator)
  {
    var tokens := Split(raw, Separator);
    var kept := Filter(tokens, NonBlank);
    assert forall t :: t in kept ==> t in tokens && !IsBlank(t);
    assert forall t :: t in tokens ==> Separator !in t;
    var r := Distinct(kept);
    assert forall k :: 0 <= k < |r| ==> r[k] in kept;
    assert WellFormedEnabled(tokens) ==> r == tokens by {
      if WellFormedEnabled(tokens) {
        FilterAll(tokens, NonBlank);
        DistinctOfDistinct(tokens);
      }
    }
    r
  }

  function GetEnabledShortcuts(st: Store): (r: seq<string>)
    ensures WellFormedEnabled(r)
  {
    ParseEnabled(st.enabledShortcuts)
  }

  /** Writing the enabled ids joins them with commas: the empty set is the
      empty text, and comma-free ids split back into exactly themselves. The
      shortcut list is untouched. */
  function SaveEnabledShortcuts(st: Store, ids: seq<string>): (st': Store)
    ensures st'.customShortcuts == st.customShortcuts
    ensures |ids| == 0 ==> st'.enabledShortcuts == ""
    ensures |ids| > 0 && (forall k :: 0 <= k < |ids| ==> Separator !in ids[k]) ==>
      Split(st'.enabledShortcuts, Separator) == ids
  {
    var text := Join(ids, Separator);
    assert |ids| > 0 && (forall k :: 0 <= k < |ids| ==> Separator !in ids[k]) ==> Split(text, Separator) == ids by {
      if |ids| > 0 && (forall k :: 0 <= k < |ids| ==> Separator !in ids[k]) {
        SplitJoin(ids, Separator);
      }
    }
    st.(enabledShortcuts := text)
  }

  /** The shortcut list reads back as it was written. */
  lemma CustomShortcutsRoundTrip(st: Store, shortcuts: seq<CustomShortcut>)
    ensures GetCustomShortcuts(SaveCustomShortcuts(st, shortcuts)) == shortcuts
    ensures SaveCustomShortcuts(st, shortcuts).enabledShortcuts == st.enabledShortcuts
  {
  }

  /** Text that does not decode, and the default `"[]"`, both read as the empty list. */
  lemma UnreadableShortcutsAreEmpty(text: string, enabled: string)
    ensures GetCustomShortcuts(Store(Undecodable(text), enabled)) == []
    ensures GetCustomShortcuts(InitialStore) == []
  {
  }

  /** An enabled set of storable ids reads back exactly, in order; in
      particular the default `""` reads as the empty set. */
  lemma {:induction false} EnabledRoundTrip(st: Store, ids: seq<string>)
    requires WellFormedEnabled(ids)
    ensures GetEnabledShortcuts(SaveEnabledShortcuts(st, ids)) == ids
    ensures GetCustomShortcuts(SaveEnabledShortcuts(st, ids)) == GetCustomShortcuts(st)
    ensures |ids| == 0 ==> SaveEnabledShortcuts(st, ids).enabledShortcuts == ""
  {
    var raw := Join(ids, Separator);
    if |ids| == 0 {
      assert Split(raw, Separator) == [""];
      assert IsBlank("");
      assert Filter([""], NonBlank) == [];
    } else {
      assert forall k :: 0 <= k < |ids| ==> ids[k] in ids;
      SplitJoin(ids, Separator);
      FilterAll(ids, NonBlank);
      DistinctOfDistinct(ids);
    }
  }

  /** Adding appends the shortcut after every existing one, with no check for
      an existing id. */
  function AddCustomShortcut(st: Store, shortcut: CustomShortcut): (st': Store)
    ensures var before, after := GetCustomShortcuts(st), GetCustomShortcuts(st');
      && |after| == |before| + 1
      && after[..|before|] == before
      && after[|before|] == shortcut
    ensures st'.enabledShortcuts == st.enabledShortcuts
  {
    SaveCustomShortcuts(st, GetCustomShortcuts(st) + [shortcut])
  }

  /** Removing drops every shortcut with the id, keeps the others in order,
      and takes the id out of the enabled set, leaving the other enabled ids
      in place. */
  function RemoveCustomShortcut(st: Store, id: string): (st': Store)
    ensures GetCustomShortcuts(st') == Filter(GetCustomShortcuts(st), (s: CustomShortcut) => s.id != id)
    ensures forall s :: s in GetCustomShortcuts(st') <==> s in GetCustomShortcuts(st) && s.id != id
    ensures GetEnabledShortcuts(st') == Minus(GetEnabledShortcuts(st), id)
    ensures id !in GetEnabledShortcuts(st')
    ensures forall x :: x != id ==> (x in GetEnabledShortcuts(st') <==> x in GetEnabledShortcuts(st))
  {
    var existing := GetCustomShortcuts(st);
    var updated := Filter(existing, (s: CustomShortcut) => s.id != id);
    var st1 := SaveCustomShortcuts(st, updated);
    var enabled := GetEnabledShortcuts(st1);
    var updatedEnabled := Minus(enabled, id);
    EnabledRoundTrip(st1, updatedEnabled);
    SaveEnabledShortcuts(st1, updatedEnabled)
  }

  /** Updating replaces every shortcut whose id matches, in place; it never
      inserts, so with no match the list is unchanged. */
  function UpdateCustomShortcut(st: Store, shortcut: CustomShortcut): (st': Store)
    ensures var before, after := GetCustomShortcuts(st), GetCustomShortcuts(st');
      && |after| == |before|
      && (forall i :: 0 <= i < |before| && before[i].id == shortcut.id ==> after[i] == shortcut)
      && (forall i :: 0 <= i < |before| && before[i].id != shortcut.id ==> after[i] == before[i])
      && ((forall i :: 0 <= i < |before| ==> before[i].id != shortcut.id) ==> after == before)
    ensures st'.enabledShortcuts == st.enabledShortcuts
  {
    var existing := GetCustomShortcuts(st);
    SaveCustomShortcuts(st, Map(existing, (s: CustomShortcut) => if s.id == shortcut.id then shortcut else s))
  }

  /** Enabling adds the id to the enabled set, disabling removes it. For a
      storable id, membership afterwards is exactly `enabled`, and no other id
      changes; disabling never touches another id. */
  function SetShortcutEnabled(st: Store, id: string, enabled: bool): (st': Store)
    ensures GetCustomShortcuts(st') == GetCustomShortcuts(st)
    ensures StorableId(id) ==> (id in GetEnabledShortcuts(st') <==> enabled)
    ensures StorableId(id) || !enabled ==>
      forall x :: x != id ==> (x in GetEnabledShortcuts(st') <==> x in GetEnabledShortcuts(st))
    ensures !enabled ==> GetEnabledShortcuts(st') == Minus(GetEnabledShortcuts(st), id)
    ensures StorableId(id) && enabled ==> GetEnabledShortcuts(st') == Plus(GetEnabledShortcuts(st), id)
  {
    var current := GetEnabledShortcuts(st);
    var updated := if enabled then Plus(current, id) else Minus(current, id);
    if StorableId(id) || !enabled then
      EnabledRoundTrip(st, updated);
      SaveEnabledShortcuts(st, updated)
    else
      SaveEnabledShortcuts(st, updated)
  }

  /** Setting the same enabled state twice is the same as setting it once. */
  lemma SetShortcutEnabledIdempotent(st: Store, id: string, enabled: bool)
    requires StorableId(id) || !enabled
    ensures SetShortcutEnabled(SetShortcutEnabled(st, id, enabled), id, enabled)
         == SetShortcutEnabled(st, id, enabled)
  {
    var once := SetShortcutEnabled(st, id, enabled);
    var updated := GetEnabledShortcuts(once);
    assert once == SaveEnabledShortcuts(st, updated);
    if enabled {
      assert Plus(updated, id) == updated;
    } else {
      assert id !in updated;
    }
  }

  /** What the user reads back is the same after setting a state twice as
      after setting it once, for every id: storable or not, enabling or not. */
  lemma SetShortcutEnabledReadIdempotent(st: Store, id: string, enabled: bool)
    ensures GetEnabledShortcuts(SetShortcutEnabled(SetShortcutEnabled(st, id, enabled), id, enabled))
         == GetEnabledShortcuts(SetShortcutEnabled(st, id, enabled))
  {
    if StorableId(id) || !enabled {
      SetShortcutEnabledIdempotent(st, id, enabled);
    } else {
      var e0 := GetEnabledShortcuts(st);
      var pieces := Filter(Split(id, Separator), NonBlank);
      assert id !in e0;
      ParseAppended(e0, id);
      var e1 := GetEnabledShortcuts(SetShortcutEnabled(st, id, true));
      assert e1 == Distinct(e0 + pieces);
      assert id !in e1;
      ParseAppended(e1, id);
      DistinctAbsorbs(e1, pieces);
    }
  }

  /** Reading back a well-formed set with one more id appended: the set,
      followed by the id's non-blank comma-separated pieces not already in it. */
  lemma ParseAppended(enabled: seq<string>, id: string)
    requires WellFormedEnabled(enabled)
    ensures ParseEnabled(Join(enabled + [id], Separator))
         == Distinct(enabled + Filter(Split(id, Separator), NonBlank))
  {
    if |enabled| == 0 {
      assert enabled + [id] == [id];
      assert enabled + Filter(Split(id, Separator), NonBlank) == Filter(Split(id, Separator), NonBlank);
    } else {
      JoinAppend(enabled, id, Separator);
      SplitAround(Join(enabled, Separator), id, Separator);
      assert forall k :: 0 <= k < |enabled| ==> enabled[k] in enabled;
      SplitJoin(enabled, Separator);
      FilterAppend(enabled, Split(id, Separator), NonBlank);
      FilterAll(enabled, NonBlank);
    }
  }

  /** The stored text itself is not idempotent for an id that does not
      survive storage: enabling "a,b" twice stores "a,b,a,b". */
  lemma EnablingTwiceGrowsText()
    ensures SetShortcutEnabled(InitialStore, "a,b", true).enabledShortcuts == "a,b"
    ensures SetShortcutEnabled(SetShortcutEnabled(InitialStore, "a,b", true), "a,b", true).enabledShortcuts
         == "a,b,a,b"
  {
    EnablingStoresIdVerbatim("a,b");
    var once := SetShortcutEnabled(InitialStore, "a,b", true);
    ParseTwoIds();
    assert GetEnabledShortcuts(once) == ["a", "b"];
    EnablingNewIdAppends(once, "a,b");
    JoinWithCommaId();
  }

  /** Enabling an id that is not enabled stores the enabled ids read back,
      followed by the id. */
  lemma EnablingNewIdAppends(st: Store, id: string)
    requires id !in GetEnabledShortcuts(st)
    ensures SetShortcutEnabled(st, id, true).enabledShortcuts == Join(GetEnabledShortcuts(st) + [id], Separator)
  {
  }

  /** Joining "a", "b" and "a,b" gives "a,b,a,b". */
  lemma JoinWithCommaId()
    ensures Join(["a", "b"] + ["a,b"], Separator) == "a,b,a,b"
  {
    JoinAppend(["a", "b"], "a,b", Separator);
    assert Join(["a", "b"], Separator) == "a,b";
  }

  /** An id containing the separator does not survive storage: enabling
      "a,b" enables "a" and "b" instead. */
  lemma SeparatorInIdSplitsIt()
    ensures GetEnabledShortcuts(SetShortcutEnabled(InitialStore, "a,b", true)) == ["a", "b"]
  {
    EnablingStoresIdVerbatim("a,b");
    ParseTwoIds();
  }

  /** Enabling an id in the initial store writes exactly that id. */
  lemma EnablingStoresIdVerbatim(id: string)
    ensures SetShortcutEnabled(InitialStore, id, true).enabledShortcuts == id
  {
    assert GetEnabledShortcuts(InitialStore) == [] by {
      EnabledRoundTrip(InitialStore, []);
    }
    assert Plus([], id) == [id];
  }

  /** "a,b" reads as the two ids "a" and "b". */
  lemma ParseTwoIds()
    ensures ParseEnabled("a,b") == ["a", "b"]
  {
    assert Split("a,b", Separator) == ["a", "b"] by {
      SplitWithoutDelimiter("a", Separator);
      SplitWithoutDelimiter("b", Separator);
      SplitAtDelimiter("a", "b", Separator);
      assert "a" + [Separator] + "b" == "a,b";
    }
    assert StorableId("a") && StorableId("b");
    assert WellFormedEnabled(["a", "b"]);
  }

  /** The available shortcuts: catalog entries and then the user's shortcuts,
      each in its own order, keeping those whose id is enabled. */
  function GetAvailableShortcuts(st: Store): (r: seq<CustomShortcut>)
    ensures var enabled := GetEnabledShortcuts(st);
      && r == Filter(AllPredefined, (s: CustomShortcut) => s.id in enabled)
            + Filter(GetCustomShortcuts(st), (s: CustomShortcut) => s.id in enabled)
      && forall s :: s in r <==> (s in AllPredefined || s in GetCustomShortcuts(st)) && s.id in enabled
  {
    var custom := GetCustomShortcuts(st);
    var all := AllPredefined + custom;
    var enabled := GetEnabledShortcuts(st);
    FilterAppend(AllPredefined, custom, (s: CustomShortcut) => s.id in enabled);
    Filter(all, (s: CustomShortcut) => s.id in enabled)
  }

  /** First-run seeding: an empty enabled set becomes exactly the five default
      ids; a non-empty one is left alone, and the shortcut list never changes. */
  function InitializeDefaultShortcuts(st: Store): (st': Store)
    ensures |GetEnabledShortcuts(st)| == 0 ==>
      GetEnabledShortcuts(st') == ["ctrl_l", "ctrl_r", "ctrl_z", "esc", "tab"]
    ensures |GetEnabledShortcuts(st)| > 0 ==> st' == st
    ensures GetCustomShortcuts(st') == GetCustomShortcuts(st)
  {
    var enabled := GetEnabledShortcuts(st);
    if |enabled| == 0 then
      DefaultEnabledWellFormed();
      EnabledRoundTrip(st, DefaultEnabled);
      SaveEnabledShortcuts(st, DefaultEnabled)
    else
      st
  }

  lemma DefaultEnabledWellFormed()
    ensures WellFormedEnabled(DefaultEnabled)
  {
    assert !IsWhitespace('c') && !IsWhitespace('e') && !IsWhitespace('t');
    assert CtrlL.id[0] == 'c' && !IsBlank(CtrlL.id);
    assert CtrlR.id[0] == 'c' && !IsBlank(CtrlR.id);
    assert CtrlZ.id[0] == 'c' && !IsBlank(CtrlZ.id);
    assert Esc.id[0] == 'e' && !IsBlank(Esc.id);
    assert Tab.id[0] == 't' && !IsBlank(Tab.id);
  }

  /** Seeding twice is seeding once. */
  lemma InitializeDefaultShortcutsIdempotent(st: Store)
    ensures InitializeDefaultShortcuts(InitializeDefaultShortcuts(st)) == InitializeDefaultShortcuts(st)
  {
  }

  /** Every seeded id names a catalog shortcut. */
  lemma DefaultEnabledAreCatalogIds()
    ensures forall id :: id in DefaultEnabled ==> id in Ids(AllPredefined)
  {
    CatalogOrder();
  }
}
