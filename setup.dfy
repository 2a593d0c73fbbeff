/** The settings screen of src/features/training/SetupPanel.tsx: the two
    configuration updaters, which are pure functions of the previous
    configuration, and the two deck actions, which overwrite the store's
    deck. */
module Setup {
  import opened Common
  import opened Types
  import opened Notes
  import opened Srs
  import opened InitCards
  import opened Store

  function OtherThan(clef: Clef): Clef -> bool {
    (c: Clef) => c != clef
  }

  /** `toggleClef`: an enabled clef is removed, a disabled one appended;
      a removal that would leave no clef keeps the previous configuration. */
  function ToggleClef(prev: TrainingConfig, clef: Clef): (r: TrainingConfig)
    ensures r.enabledClefs != []
    ensures r.ranges == prev.ranges && r.infiniteMode == prev.infiniteMode && r.fourNoteMode == prev.fourNoteMode
    ensures clef !in prev.enabledClefs ==> r.enabledClefs == prev.enabledClefs + [clef]
    ensures clef in prev.enabledClefs && (exists c :: c in prev.enabledClefs && c != clef) ==>
      && clef !in r.enabledClefs
      && (forall c :: c in r.enabledClefs <==> c in prev.enabledClefs && c != clef)
      && IsSubsequence(r.enabledClefs, prev.enabledClefs)
      && multiset(r.enabledClefs) == multiset(prev.enabledClefs)[clef := 0]
    ensures clef in prev.enabledClefs && (forall c :: c in prev.enabledClefs ==> c == clef) ==> r == prev
  {
    var enabledClefs :=
      if clef in prev.enabledClefs then Filter(prev.enabledClefs, OtherThan(clef))
      else prev.enabledClefs + [clef];
    assert |enabledClefs| > 0 ==> enabledClefs[0] in enabledClefs;
    assert forall c :: c in prev.enabledClefs && c != clef ==> c in enabledClefs;
    assert clef in prev.enabledClefs ==> multiset(enabledClefs) == multiset(prev.enabledClefs)[clef := 0] by {
      if clef in prev.enabledClefs {
        forall x ensures multiset(enabledClefs)[x] == multiset(prev.enabledClefs)[clef := 0][x] {
          FilterMultiplicity(prev.enabledClefs, OtherThan(clef), x);
        }
      }
    }
    if |enabledClefs| == 0 then prev
    else prev.(enabledClefs := enabledClefs)
  }

  /** Enabling a clef and then disabling it again gives back the previous
      configuration, as long as some clef was enabled before. */
  lemma ToggleClefTwiceFromAbsent(prev: TrainingConfig, clef: Clef)
    requires prev.enabledClefs != [] && clef !in prev.enabledClefs
    ensures ToggleClef(ToggleClef(prev, clef), clef) == prev
  {
    var once := ToggleClef(prev, clef);
    var p := OtherThan(clef);
    FilterConcat(prev.enabledClefs, [clef], p);
    FilterKeepsAll(prev.enabledClefs, p);
    assert Filter([clef], p) == [];
    assert prev.enabledClefs[0] in once.enabledClefs && prev.enabledClefs[0] != clef;
  }

  /** Disabling a clef and then enabling it again gives back the same set
      of clefs, the toggled one now last. */
  lemma ToggleClefTwiceFromPresent(prev: TrainingConfig, clef: Clef)
    requires clef in prev.enabledClefs
    ensures forall c :: c in ToggleClef(ToggleClef(prev, clef), clef).enabledClefs <==> c in prev.enabledClefs
  {
    if exists c :: c in prev.enabledClefs && c != clef {
      var once := ToggleClef(prev, clef);
      assert clef !in once.enabledClefs;
    }
  }

  /** `updateRange`: the clef's range is set to the given labels; the other
      clef's range and every other setting stay as they were. */
  function UpdateRange(prev: TrainingConfig, clef: Clef, startNote: string, endNote: string): (r: TrainingConfig)
    ensures r.ranges.Get(clef) == Some(NoteRange(clef, startNote, endNote))
    ensures forall other :: other != clef ==> r.ranges.Get(other) == prev.ranges.Get(other)
    ensures r.enabledClefs == prev.enabledClefs && r.infiniteMode == prev.infiniteMode && r.fourNoteMode == prev.fourNoteMode
  {
    var range := Some(NoteRange(clef, startNote, endNote));
    prev.(ranges := if clef == Treble then prev.ranges.(treble := range) else prev.ranges.(bass := range))
  }

  /** After an update, a rebuilt deck draws that clef's cards from the new
      labels and the other clef's cards as before. */
  lemma UpdateRangeDeck(prev: TrainingConfig, clef: Clef, startNote: string, endNote: string, other: Clef)
    requires other != clef
    ensures ClefNotes(UpdateRange(prev, clef, startNote, endNote), clef) == GetNotesInRange(clef, startNote, endNote)
    ensures ClefNotes(UpdateRange(prev, clef, startNote, endNote), other) == ClefNotes(prev, other)
  {
  }

  /** `handleInitialize`: the deck is replaced by a fresh deck built from
      the configuration, discarding every review; the fresh ids are taken
      from the store's counter. */
  method HandleInitialize(store: AppStore, now: Timestamp)
    requires store.Valid()
    modifies store
    ensures store.Valid()
    ensures store.cards == FreshCards(ConfigNotes(store.config, store.config.enabledClefs), old(store.nextId), now)
    ensures store.nextId == old(store.nextId) + |store.cards|
    ensures store.config == old(store.config) && store.stats == old(store.stats)
    ensures store.selectedClef == old(store.selectedClef)
  {
    var newCards := InitializeCardsFromConfig(store.config, store.nextId, now);
    FreshDeckOk(ConfigNotes(store.config, store.config.enabledClefs), store.nextId, now);
    store.cards, store.nextId := newCards, store.nextId + |newCards|;
  }

  /** `handleReset`: once the user confirms, the deck is emptied. */
  method HandleReset(store: AppStore, confirmed: bool)
    requires store.Valid()
    modifies store
    ensures store.Valid()
    ensures confirmed ==> store.cards == []
    ensures !confirmed ==> store.cards == old(store.cards)
    ensures store.config == old(store.config) && store.stats == old(store.stats)
    ensures store.selectedClef == old(store.selectedClef) && store.nextId == old(store.nextId)
  {
    if confirmed {
      store.cards := [];
    }
  }

  /** Toggling a clef on the store keeps at least one clef enabled. */
  method ToggleClefSetting(store: AppStore, clef: Clef)
    requires store.Valid()
    modifies store
    ensures store.Valid()
    ensures store.config == ToggleClef(old(store.config), clef)
    ensures store.cards == old(store.cards) && store.stats == old(store.stats)
    ensures store.selectedClef == old(store.selectedClef) && store.nextId == old(store.nextId)
  {
    store.config := ToggleClef(store.config, clef);
  }

  /** Changing a range from one of the two selects. */
  method UpdateRangeSetting(store: AppStore, clef: Clef, startNote: string, endNote: string)
    requires store.Valid()
    modifies store
    ensures store.Valid()
    ensures store.config == UpdateRange(old(store.config), clef, startNote, endNote)
    ensures store.cards == old(store.cards) && store.stats == old(store.stats)
    ensures store.selectedClef == old(store.selectedClef) && store.nextId == old(store.nextId)
  {
    store.config := UpdateRange(store.config, clef, startNote, endNote);
  }
}
