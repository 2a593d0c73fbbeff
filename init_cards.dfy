/** Deck construction, src/lib/init-cards.ts: one fresh card per note of a
    clef's catalogue or configured range, clefs in the configured order.
    The random id the source draws for each card is modelled by a counter:
    the cards of one call get the ids firstId, firstId + 1, ... in order,
    which is all the model relies on (ids are fresh and distinct). */
module InitCards {
  import opened Common
  import opened Types
  import opened Notes
  import opened Srs

  /** A card as the source creates it: ease 2.5, no interval, never
      passed, due at its creation time. */
  function NewCard(id: CardId, note: Note, now: Timestamp): Card {
    Card(id, note, InitialEase, 0, 0, now, None)
  }

  /** One fresh card per note, in the same order. */
  function FreshCards(notes: seq<Note>, firstId: CardId, now: Timestamp): (r: seq<Card>)
    ensures |r| == |notes|
    ensures forall i :: 0 <= i < |r| ==> r[i].note == notes[i] && r[i].id == firstId + i
    ensures forall i :: 0 <= i < |r| ==> IsNew(r[i]) && IsDue(r[i], now) && CardOk(r[i])
    ensures forall i :: 0 <= i < |r| ==> r[i].easeFactor == InitialEase && r[i].interval == 0
  {
    seq(|notes|, i requires 0 <= i < |notes| => NewCard(firstId + i, notes[i], now))
  }

  lemma FreshCardsConcat(a: seq<Note>, b: seq<Note>, firstId: CardId, now: Timestamp)
    ensures FreshCards(a + b, firstId, now) == FreshCards(a, firstId, now) + FreshCards(b, firstId + |a|, now)
  {
  }

  /** `createInitialCards`: one card per catalogue note of the clef. */
  function CreateInitialCards(clef: Clef := Treble, firstId: CardId, now: Timestamp): (r: seq<Card>)
    ensures |r| == 17
    ensures forall i :: 0 <= i < |r| ==> r[i].note == GetAllNotes(clef)[i] && r[i].note.clef == clef
  {
    FreshCards(GetAllNotes(clef), firstId, now)
  }

  /** `createCardsFromRange`: one card per note of the range, in catalogue order. */
  function CreateCardsFromRange(clef: Clef, startNote: string, endNote: string, firstId: CardId, now: Timestamp): (r: seq<Card>)
    ensures |r| == |GetNotesInRange(clef, startNote, endNote)|
    ensures forall i :: 0 <= i < |r| ==> r[i].note == GetNotesInRange(clef, startNote, endNote)[i]
    ensures forall i :: 0 <= i < |r| ==> r[i].note.clef == clef && IsNoteInRange(r[i].note, startNote, endNote)
  {
    var notes := GetNotesInRange(clef, startNote, endNote);
    assert forall i :: 0 <= i < |notes| ==> notes[i] in notes;
    FreshCards(notes, firstId, now)
  }

  /** The notes `initializeCards(trebleEnabled, bassEnabled)` makes cards for. */
  function EnabledNotes(trebleEnabled: bool, bassEnabled: bool): seq<Note> {
    (if trebleEnabled then GetAllNotes(Treble) else []) + (if bassEnabled then GetAllNotes(Bass) else [])
  }

  /** `initializeCards`: the treble cards (if enabled) and then the bass cards. */
  method InitializeCards(trebleEnabled: bool := true, bassEnabled: bool := true, firstId: CardId, now: Timestamp)
    returns (cards: seq<Card>)
    ensures cards == FreshCards(EnabledNotes(trebleEnabled, bassEnabled), firstId, now)
  {
    cards := [];
    if trebleEnabled {
      cards := cards + CreateInitialCards(Treble, firstId, now);
    }
    if bassEnabled {
      cards := cards + CreateInitialCards(Bass, firstId + |cards|, now);
    }
    FreshCardsConcat(if trebleEnabled then GetAllNotes(Treble) else [],
                     if bassEnabled then GetAllNotes(Bass) else [], firstId, now);
  }

  /** The bounds a clef's cards are drawn from: its configured range, or the
      default range when it has none. */
  function RangeBounds(config: TrainingConfig, clef: Clef): Bounds {
    match config.ranges.Get(clef)
    case Some(range) => Bounds(range.startNote, range.endNote)
    case None => GetDefaultRange(clef)
  }

  /** The notes a clef contributes to a configured deck: the entries of its
      range, or the whole catalogue when it has none (ClefNotesFollowBounds
      shows that this is what the default bounds select). */
  function ClefNotes(config: TrainingConfig, clef: Clef): seq<Note> {
    match config.ranges.Get(clef)
    case Some(range) => GetNotesInRange(clef, range.startNote, range.endNote)
    case None => GetAllNotes(clef)
  }

  /** The per-clef blocks of the listed clefs, clef after clef. */
  function Gather<T>(clefs: seq<Clef>, treble: seq<T>, bass: seq<T>): seq<T>
    decreases |clefs|
  {
    if clefs == [] then []
    else Gather(clefs[..|clefs| - 1], treble, bass) + Block(clefs[|clefs| - 1], treble, bass)
  }

  /** The block of one clef. */
  function Block<T>(clef: Clef, treble: seq<T>, bass: seq<T>): seq<T> {
    if clef == Treble then treble else bass
  }

  /** The notes of the listed clefs, clef after clef. */
  function ConfigNotes(config: TrainingConfig, clefs: seq<Clef>): seq<Note> {
    Gather(clefs, ClefNotes(config, Treble), ClefNotes(config, Bass))
  }

  /** `initializeCardsFromConfig`: the cards of every enabled clef, in the
      order the clefs are listed. */
  method InitializeCardsFromConfig(config: TrainingConfig, firstId: CardId, now: Timestamp)
    returns (cards: seq<Card>)
    ensures cards == FreshCards(ConfigNotes(config, config.enabledClefs), firstId, now)
  {
    var clefs := config.enabledClefs;
    ghost var treble, bass := ClefNotes(config, Treble), ClefNotes(config, Bass);
    cards := [];
    for i := 0 to |clefs|
      invariant cards == FreshCards(Gather(clefs[..i], treble, bass), firstId, now)
    {
      var clef := clefs[i];
      var range := config.ranges.Get(clef);
      var more;
      if range.Some? {
        more := CreateCardsFromRange(clef, range.value.startNote, range.value.endNote, firstId + |cards|, now);
      } else {
        var defaultRange := GetDefaultRange(clef);
        more := CreateCardsFromRange(clef, defaultRange.start, defaultRange.end, firstId + |cards|, now);
        DefaultRangeIsWholeCatalogue(clef);
      }
      assert more == FreshCards(Block(clef, treble, bass), firstId + |cards|, now);
      ExtendDeck(cards, more, clefs, i, treble, bass, firstId, now);
      cards := cards + more;
    }
    assert clefs[..|clefs|] == clefs;
  }

  // ----- What a configured deck contains -----

  lemma GatherSnoc<T>(clefs: seq<Clef>, i: nat, treble: seq<T>, bass: seq<T>)
    requires i < |clefs|
    ensures Gather(clefs[..i + 1], treble, bass)
      == Gather(clefs[..i], treble, bass) + Block(clefs[i], treble, bass)
  {
    assert clefs[..i + 1][..i] == clefs[..i];
  }

  lemma ExtendDeck(cards: seq<Card>, more: seq<Card>, clefs: seq<Clef>, i: nat, treble: seq<Note>, bass: seq<Note>, firstId: CardId, now: Timestamp)
    requires i < |clefs|
    requires cards == FreshCards(Gather(clefs[..i], treble, bass), firstId, now)
    requires more == FreshCards(Block(clefs[i], treble, bass), firstId + |cards|, now)
    ensures cards + more == FreshCards(Gather(clefs[..i + 1], treble, bass), firstId, now)
  {
    FreshCardsStep(clefs, i, treble, bass, firstId, now);
  }

  lemma FreshCardsStep(clefs: seq<Clef>, i: nat, treble: seq<Note>, bass: seq<Note>, firstId: CardId, now: Timestamp)
    requires i < |clefs|
    ensures FreshCards(Gather(clefs[..i + 1], treble, bass), firstId, now)
      == FreshCards(Gather(clefs[..i], treble, bass), firstId, now)
         + FreshCards(Block(clefs[i], treble, bass), firstId + |Gather(clefs[..i], treble, bass)|, now)
  {
    GatherSnoc(clefs, i, treble, bass);
    FreshCardsConcat(Gather(clefs[..i], treble, bass), Block(clefs[i], treble, bass), firstId, now);
  }

  lemma {:induction false} GatherConcat<T>(a: seq<Clef>, b: seq<Clef>, treble: seq<T>, bass: seq<T>)
    ensures Gather(a + b, treble, bass) == Gather(a, treble, bass) + Gather(b, treble, bass)
    decreases |b|
  {
    if b == [] {
      assert a + b == a;
    } else {
      var b' := b[..|b| - 1];
      assert (a + b)[..|a + b| - 1] == a + b';
      GatherConcat(a, b', treble, bass);
    }
  }

  lemma {:induction false} GatherMembership<T>(clefs: seq<Clef>, treble: seq<T>, bass: seq<T>, x: T)
    ensures x in Gather(clefs, treble, bass) <==> (Treble in clefs && x in treble) || (Bass in clefs && x in bass)
    decreases |clefs|
  {
    if clefs != [] {
      var init, last := clefs[..|clefs| - 1], clefs[|clefs| - 1];
      assert clefs == init + [last];
      GatherMembership(init, treble, bass, x);
    }
  }

  /** A clef's notes all carry that clef. */
  lemma ClefNotesHaveClef(config: TrainingConfig, clef: Clef, n: Note)
    requires n in ClefNotes(config, clef)
    ensures n.clef == clef
  {
  }

  /** A note is in the configured deck exactly when its clef is enabled and
      it lies in that clef's range. */
  lemma ConfigNotesMembership(config: TrainingConfig, clefs: seq<Clef>, n: Note)
    ensures n in ConfigNotes(config, clefs) <==> n.clef in clefs && n in ClefNotes(config, n.clef)
  {
    GatherMembership(clefs, ClefNotes(config, Treble), ClefNotes(config, Bass), n);
    if n in ClefNotes(config, Treble) {
      ClefNotesHaveClef(config, Treble, n);
    }
    if n in ClefNotes(config, Bass) {
      ClefNotesHaveClef(config, Bass, n);
    }
  }

  /** The deck for two clefs is the first clef's range followed by the second's. */
  lemma TwoClefDeck(config: TrainingConfig, first: Clef, second: Clef)
    ensures ConfigNotes(config, [first, second]) == ClefNotes(config, first) + ClefNotes(config, second)
  {
    GatherPair(first, second, ClefNotes(config, Treble), ClefNotes(config, Bass));
  }

  lemma GatherPair<T>(first: Clef, second: Clef, treble: seq<T>, bass: seq<T>)
    ensures Gather([first, second], treble, bass) == Block(first, treble, bass) + Block(second, treble, bass)
  {
    GatherConcat([first], [second], treble, bass);
    assert [first] + [second] == [first, second];
    assert [first][..0] == [] && [second][..0] == [];
  }

  /** A clef's notes are the catalogue entries between its configured
      bounds, or between the default bounds when it has no range. */
  lemma ClefNotesFollowBounds(config: TrainingConfig, clef: Clef)
    ensures ClefNotes(config, clef) == GetNotesInRange(clef, RangeBounds(config, clef).start, RangeBounds(config, clef).end)
  {
    if config.ranges.Get(clef).None? {
      DefaultRangeIsWholeCatalogue(clef);
    }
  }

  /** Cards built in one call have distinct ids. */
  lemma FreshCardIdsDistinct(notes: seq<Note>, firstId: CardId, now: Timestamp)
    ensures forall i, j :: 0 <= i < j < |notes| ==> FreshCards(notes, firstId, now)[i].id != FreshCards(notes, firstId, now)[j].id
  {
  }
}
