/** The training screen of src/features/training/TrainingSession.tsx.

    The pure half: which cards a session holds, which of them are on
    screen, which screen is shown, how answers are judged, how one rating
    rewrites the deck and the counters, and where the index goes next.

    The stateful half: the screen's own state (index, feedback flag,
    verdict, answers so far, the shuffled session) as a class over the
    shared store, with one method per handler. The session list is a
    memo over the deck, so it is composed again, and shuffled again,
    after every rating; `shuffle` is "some permutation". */
module Training {
  import opened Common
  import opened Types
  import opened Notes
  import opened Srs
  import opened Store
  import opened Keyboard

  /** How many new cards a normal-mode session takes at most. */
  const SessionNewLimit: int := 10

  /** The size of a four-note batch. */
  const BatchSize: int := 4

  function OfClef(clef: Clef): Card -> bool {
    (c: Card) => c.note.clef == clef
  }

  function NewOfClef(clef: Clef): Card -> bool {
    (c: Card) => c.repetitions == 0 && c.note.clef == clef
  }

  /** The session before shuffling: in infinite mode every card of the
      selected clef; otherwise the due cards of that clef followed by its
      first ten new cards (a card can be in both). */
  function SessionCandidates(cards: seq<Card>, clef: Clef, infinite: bool, now: Timestamp): seq<Card> {
    if infinite then
      Filter(cards, OfClef(clef))
    else
      var dueCards := Filter(GetDueCards(cards, now), OfClef(clef));
      var newCards := Slice(Filter(cards, NewOfClef(clef)), 0, SessionNewLimit);
      dueCards + newCards
  }

  /** Every candidate is a deck card of the selected clef; infinite mode
      takes all of them; normal mode takes every due one and the first ten
      new ones, nothing else, and has as many entries as due cards plus new
      cards up to ten. */
  lemma SessionCandidatesFacts(cards: seq<Card>, clef: Clef, infinite: bool, now: Timestamp)
    ensures var r := SessionCandidates(cards, clef, infinite, now);
      && (forall c :: c in r ==> c in cards && c.note.clef == clef)
      && (infinite ==> forall c :: c in r <==> c in cards && c.note.clef == clef)
      && (!infinite ==> forall c :: c in cards && c.note.clef == clef && IsDue(c, now) ==> c in r)
      && (!infinite ==> forall c :: c in r ==>
            IsDue(c, now) || c in Slice(Filter(cards, NewOfClef(clef)), 0, SessionNewLimit))
      && (!infinite ==> forall c :: c in Slice(Filter(cards, NewOfClef(clef)), 0, SessionNewLimit) ==> c in r)
      && (!infinite ==>
            |r| == |Filter(GetDueCards(cards, now), OfClef(clef))| + Min(SessionNewLimit, |Filter(cards, NewOfClef(clef))|))
  {
    if !infinite {
      var newCards := Slice(Filter(cards, NewOfClef(clef)), 0, SessionNewLimit);
      assert forall c :: c in newCards ==> c in Filter(cards, NewOfClef(clef));
    }
  }

  /** `shuffle` returns some permutation of its argument. */
  ghost predicate IsSessionOf(session: seq<Card>, cards: seq<Card>, clef: Clef, infinite: bool, now: Timestamp) {
    multiset(session) == multiset(SessionCandidates(cards, clef, infinite, now))
  }

  /** A shuffled session has the candidates' length and members, so every
      session card is a deck card of the selected clef. */
  lemma SessionFacts(session: seq<Card>, cards: seq<Card>, clef: Clef, infinite: bool, now: Timestamp)
    requires IsSessionOf(session, cards, clef, infinite, now)
    ensures |session| == |SessionCandidates(cards, clef, infinite, now)|
    ensures forall c :: c in session <==> c in SessionCandidates(cards, clef, infinite, now)
    ensures forall i :: 0 <= i < |session| ==> session[i] in cards && session[i].note.clef == clef
  {
    var cands := SessionCandidates(cards, clef, infinite, now);
    SessionCandidatesFacts(cards, clef, infinite, now);
    assert |multiset(session)| == |multiset(cands)|;
    forall c ensures c in session <==> c in cands {
      assert c in session <==> c in multiset(session);
      assert c in cands <==> c in multiset(cands);
    }
    forall i | 0 <= i < |session| ensures session[i] in cards && session[i].note.clef == clef {
      assert session[i] in session;
    }
  }

  /** A fresh card is both due and new, so it enters a normal-mode session
      twice. */
  lemma FreshCardEntersTwice(card: Card, now: Timestamp)
    requires IsNew(card) && IsDue(card, now)
    ensures SessionCandidates([card], card.note.clef, false, now) == [card, card]
  {
    var clef := card.note.clef;
    assert [card][1..] == [];
    assert GetDueCards([card], now) == [card];
    assert Filter([card], OfClef(clef)) == [card];
    assert Filter([card], NewOfClef(clef)) == [card];
  }

  /** The cards on screen: the batch of up to four from the index in
      four-note mode, otherwise the card at the index if there is one. */
  function CurrentCards(session: seq<Card>, index: nat, fourNote: bool): (r: seq<Card>)
    ensures fourNote ==> r == Slice(session, index, index + BatchSize)
    ensures fourNote && index < |session| ==> r == session[index..Min(index + BatchSize, |session|)]
    ensures !fourNote ==> r == if index < |session| then [session[index]] else []
    ensures |r| <= BatchSize
    ensures forall c :: c in r ==> c in session
    ensures index >= |session| ==> r == []
  {
    if fourNote then Slice(session, index, index + BatchSize)
    else if index < |session| then [session[index]]
    else []
  }

  /** What the component renders. */
  datatype Screen = NoCards | TooFewCards | Question

  function ScreenOf(session: seq<Card>, index: nat, fourNote: bool): (r: Screen)
    ensures r == NoCards <==> index >= |session|
    ensures r == TooFewCards <==> index < |session| && fourNote && |session| - index < BatchSize
    ensures r == Question ==> |CurrentCards(session, index, fourNote)| == if fourNote then BatchSize else 1
  {
    if index >= |session| then NoCards
    else if fourNote && |CurrentCards(session, index, fourNote)| < BatchSize then TooFewCards
    else Question
  }

  // ----- Judging answers -----

  /** A single answer is compared with the card's note after putting the
      chosen letter in; it is right exactly when the letter is the note's. */
  function SingleCorrect(card: Card, name: NoteName): (r: bool)
    ensures r <==> card.note.name == name
  {
    AreNotesEqual(card.note, card.note.(name := name))
  }

  /** `every`: each answer is right for the card at the same position. */
  function AllCorrect(batch: seq<Card>, answers: seq<NoteName>): (r: bool)
    requires |answers| == |batch|
    ensures r <==> forall i :: 0 <= i < |batch| ==> batch[i].note.name == answers[i]
  {
    if batch == [] then true
    else SingleCorrect(batch[0], answers[0]) && AllCorrect(batch[1..], answers[1..])
  }

  // ----- Rating -----

  /** Every card of the batch reviewed with the same result at the same time. */
  function ReviewAll(batch: seq<Card>, result: ReviewResult, now: Timestamp): seq<Card> {
    seq(|batch|, i requires 0 <= i < |batch| => Reviewed(batch[i], result, now))
  }

  /** `find` by id: the position of the first card with that id. */
  function FindById(us: seq<Card>, id: CardId): (r: Option<nat>)
    ensures r.Some? ==> r.value < |us| && us[r.value].id == id
    ensures r.Some? ==> forall j :: 0 <= j < r.value ==> us[j].id != id
    ensures r.None? <==> forall j :: 0 <= j < |us| ==> us[j].id != id
    decreases |us|
  {
    if us == [] then None
    else if us[0].id == id then Some(0)
    else
      match FindById(us[1..], id)
      case None => None
      case Some(k) => Some(k + 1)
  }

  /** `prev.map(c => updated.find(same id) || c)` (four-note mode). */
  function ReplaceById(deck: seq<Card>, updated: seq<Card>): (r: seq<Card>)
    ensures |r| == |deck|
    ensures forall i :: 0 <= i < |deck| ==> r[i].id == deck[i].id && (r[i] == deck[i] || r[i] in updated)
    ensures forall i :: 0 <= i < |deck| && (forall j :: 0 <= j < |updated| ==> updated[j].id != deck[i].id) ==> r[i] == deck[i]
    ensures forall i :: 0 <= i < |deck| && FindById(updated, deck[i].id).Some? ==>
      r[i] == updated[FindById(updated, deck[i].id).value]
  {
    seq(|deck|, i requires 0 <= i < |deck| =>
      match FindById(updated, deck[i].id)
      case Some(k) => updated[k]
      case None => deck[i])
  }

  /** `prev.map(c => c.id === updated.id ? updated : c)` (single mode). */
  function ReplaceCard(deck: seq<Card>, updated: Card): seq<Card> {
    seq(|deck|, i requires 0 <= i < |deck| => if deck[i].id == updated.id then updated else deck[i])
  }

  /** The single-mode update is the batch update with a batch of one. */
  lemma ReplaceCardIsReplaceById(deck: seq<Card>, updated: Card)
    ensures ReplaceCard(deck, updated) == ReplaceById(deck, [updated])
  {
    forall i | 0 <= i < |deck| ensures ReplaceCard(deck, updated)[i] == ReplaceById(deck, [updated])[i] {
      if deck[i].id != updated.id {
        assert FindById([updated], deck[i].id) == None;
      }
    }
  }

  /** On a deck with distinct ids, rating a batch drawn from the deck
      replaces each batch card by its review and leaves every other card
      as it was, whatever repeats the batch holds. */
  lemma RatingReviewsBatch(deck: seq<Card>, batch: seq<Card>, result: ReviewResult, now: Timestamp)
    requires forall i, j :: 0 <= i < j < |deck| ==> deck[i].id != deck[j].id
    requires forall c :: c in batch ==> c in deck
    ensures forall i :: 0 <= i < |deck| ==>
      ReplaceById(deck, ReviewAll(batch, result, now))[i] ==
        if deck[i] in batch then Reviewed(deck[i], result, now) else deck[i]
  {
    var updated := ReviewAll(batch, result, now);
    var r := ReplaceById(deck, updated);
    forall i | 0 <= i < |deck|
      ensures r[i] == if deck[i] in batch then Reviewed(deck[i], result, now) else deck[i]
    {
      match FindById(updated, deck[i].id)
      case Some(k) =>
        assert r[i] == updated[k];
        assert batch[k] in deck;
        var m :| 0 <= m < |deck| && deck[m] == batch[k];
        assert deck[m].id == deck[i].id;
        assert m == i;
      case None =>
        assert forall k :: 0 <= k < |batch| ==> updated[k].id == batch[k].id;
        assert deck[i] !in batch;
    }
  }

  /** The counter record after grading `n` cards on day `today`. */
  function UpdateCounters(prev: StorageStats, n: nat, correct: bool, today: int): StorageStats {
    prev.(
      reviewsToday := if prev.lastReviewDate == today then prev.reviewsToday + n else n,
      lastReviewDate := today,
      totalReviews := prev.totalReviews + n,
      correctReviews := prev.correctReviews + (if correct then n else 0))
  }

  /** Grading counts every graded card, counts them as correct only on a
      right answer, and keeps correct reviews within all reviews. */
  lemma CountersAfterGrading(prev: StorageStats, n: nat, correct: bool, today: int)
    ensures UpdateCounters(prev, n, correct, today).totalReviews - UpdateCounters(prev, n, correct, today).correctReviews
      == prev.totalReviews - prev.correctReviews + (if correct then 0 else n)
    ensures prev.correctReviews <= prev.totalReviews ==>
      UpdateCounters(prev, n, correct, today).correctReviews <= UpdateCounters(prev, n, correct, today).totalReviews
  {
  }

  /** After grading `n` cards, the "studied today" statistic of the same day
      has risen by `n` (or starts again at `n` on a new day). */
  lemma StudiedTodayAfterGrading(cards: seq<Card>, prev: StorageStats, n: nat, correct: bool, now: Timestamp)
    ensures StudyStatsOf(cards, UpdateCounters(prev, n, correct, DayKey(now)), now).cardsStudiedToday
      == StudyStatsOf(cards, prev, now).cardsStudiedToday + n
  {
  }

  /** Where the index goes after a rating, judged against the session the
      rating was made in: single mode steps by one and wraps after the last
      card; four-note mode steps by four while that stays inside. */
  function NextIndex(index: nat, length: nat, fourNote: bool): (r: nat)
    ensures length > 0 ==> r < length
    ensures r == 0 || r == index + (if fourNote then BatchSize else 1)
    ensures r == 0 <==> (if fourNote then index + BatchSize >= length else index >= length - 1)
  {
    if fourNote then
      var nextIndex := index + BatchSize;
      if nextIndex < length then nextIndex else 0
    else if index < length - 1 then index + 1
    else 0
  }

  /** The index is advanced against the old session, but the screen is
      drawn from the recomposed one: rating the first of two due cards that
      are past their first review leaves a one-card session and the index
      1, so the "no cards" screen shows while a due card remains. */
  lemma StaleIndexAfterRating(a: Card, b: Card, now: Timestamp)
    requires CardOk(a) && CardOk(b) && a.id != b.id
    requires a.note.clef == Treble && b.note.clef == Treble
    requires IsDue(a, now) && IsDue(b, now) && a.repetitions >= 1 && b.repetitions >= 1
    ensures var deck := ReplaceCard([a, b], Reviewed(a, ReviewResult(Good, 0), now));
      var session := SessionCandidates(deck, Treble, false, now);
      && session == [b]
      && IsDue(b, now)
      && ScreenOf(session, NextIndex(0, 2, false), false) == NoCards
  {
    var a' := Reviewed(a, ReviewResult(Good, 0), now);
    ReviewedNotDue(a, ReviewResult(Good, 0), now);
    var deck := ReplaceCard([a, b], a');
    assert deck == [a', b];
    assert deck[1..] == [b] && [b][1..] == [];
    assert Filter([b], DueAt(now)) == [b];
    assert GetDueCards(deck, now) == [b];
    assert Filter([b], OfClef(Treble)) == [b];
    assert Filter([b], NewOfClef(Treble)) == [];
    assert Filter(deck, NewOfClef(Treble)) == [];
  }

  // ----- Keyboard shortcuts -----

  /** What a shortcut asks for. */
  datatype KeyAction = Answer(name: NoteName) | Retry | Proceed

  /** The shortcut list: digits 1-7 answer C-B, R retries, Enter and Space
      go on. */
  function TrainingBindings(): seq<KeyBinding<KeyAction>> {
    [Plain("1", Answer(C)), Plain("2", Answer(D)), Plain("3", Answer(E)), Plain("4", Answer(F)),
     Plain("5", Answer(G)), Plain("6", Answer(A)), Plain("7", Answer(B)),
     Plain("r", Retry), Plain("R", Retry), Plain("Enter", Proceed), Plain(" ", Proceed)]
  }

  /** The binding keys after `toLowerCase`. */
  function LoweredKeys(): seq<string> {
    ["1", "2", "3", "4", "5", "6", "7", "r", "r", "enter", " "]
  }

  lemma TrainingKeysLowered()
    ensures |TrainingBindings()| == |LoweredKeys()|
    ensures forall j :: 0 <= j < |TrainingBindings()| ==>
      ToLower(TrainingBindings()[j].key) == LoweredKeys()[j] && TrainingBindings()[j].shift.None?
      && TrainingBindings()[j].ctrl.None? && TrainingBindings()[j].alt.None? && TrainingBindings()[j].meta.None?
  {
    var bs := TrainingBindings();
    assert ToLower("R") == "r";
    assert ToLower("Enter") == "enter";
    assert ToLower("r") == "r" && ToLower(" ") == " ";
    assert ToLower("1") == "1" && ToLower("2") == "2" && ToLower("3") == "3" && ToLower("4") == "4";
    assert ToLower("5") == "5" && ToLower("6") == "6" && ToLower("7") == "7";
  }

  /** With bindings free of modifier requirements, the first binding whose
      lowered key is the event's lowered key fires. */
  lemma FirstLoweredKey<H>(bs: seq<KeyBinding<H>>, lowered: seq<string>, ev: KeyEvent, key: string, k: nat)
    requires |bs| == |lowered| && k < |bs|
    requires forall j :: 0 <= j < |bs| ==>
      ToLower(bs[j].key) == lowered[j] && bs[j].shift.None? && bs[j].ctrl.None? && bs[j].alt.None? && bs[j].meta.None?
    requires ToLower(ev.key) == key && lowered[k] == key
    requires forall j :: 0 <= j < k ==> lowered[j] != key
    ensures FirstMatch(bs, ev) == Some(k)
  {
    assert Matches(ev, bs[k]);
  }

  /** The binding a key with the given lowered form reaches. */
  lemma TrainingKeyReaches(ev: KeyEvent, key: string, k: nat)
    requires k < |LoweredKeys()| && ToLower(ev.key) == key && LoweredKeys()[k] == key
    requires forall j :: 0 <= j < k ==> LoweredKeys()[j] != key
    ensures FirstMatch(TrainingBindings(), ev) == Some(k)
  {
    TrainingKeysLowered();
    FirstLoweredKey(TrainingBindings(), LoweredKeys(), ev, key, k);
  }

  /** The handler that a key press runs on the training screen, if any. */
  function FiredBy(ev: KeyEvent): (r: Option<KeyAction>)
    ensures r.Some? <==> FirstMatch(TrainingBindings(), ev).Some?
  {
    match FirstMatch(TrainingBindings(), ev)
    case None => None
    case Some(k) => Some(TrainingBindings()[k].handler)
  }

  /** The digits 1 to 7 answer C, D, E, F, G, A and B. */
  lemma DigitKeyAnswers(ev: KeyEvent)
    ensures ev.key == "1" ==> FiredBy(ev) == Some(Answer(C))
    ensures ev.key == "2" ==> FiredBy(ev) == Some(Answer(D))
    ensures ev.key == "3" ==> FiredBy(ev) == Some(Answer(E))
    ensures ev.key == "4" ==> FiredBy(ev) == Some(Answer(F))
    ensures ev.key == "5" ==> FiredBy(ev) == Some(Answer(G))
    ensures ev.key == "6" ==> FiredBy(ev) == Some(Answer(A))
    ensures ev.key == "7" ==> FiredBy(ev) == Some(Answer(B))
  {
    if ev.key == "1" { DigitKeyReaches(ev, "1", 0); }
    else if ev.key == "2" { DigitKeyReaches(ev, "2", 1); }
    else if ev.key == "3" { DigitKeyReaches(ev, "3", 2); }
    else if ev.key == "4" { DigitKeyReaches(ev, "4", 3); }
    else if ev.key == "5" { DigitKeyReaches(ev, "5", 4); }
    else if ev.key == "6" { DigitKeyReaches(ev, "6", 5); }
    else if ev.key == "7" { DigitKeyReaches(ev, "7", 6); }
  }

  lemma DigitKeyReaches(ev: KeyEvent, key: string, k: nat)
    requires k < 7 && ev.key == key && key == LoweredKeys()[k]
    ensures FirstMatch(TrainingBindings(), ev) == Some(k)
  {
    assert ToLower(key) == key;
    TrainingKeyReaches(ev, key, k);
  }

  /** Both cases of R retry, through the lower-case binding. */
  lemma RetryKeys(ev: KeyEvent)
    requires ev.key == "r" || ev.key == "R"
    ensures FirstMatch(TrainingBindings(), ev) == Some(7)
    ensures FiredBy(ev) == Some(Retry)
  {
    assert ToLower(ev.key) == "r";
    TrainingKeyReaches(ev, "r", 7);
  }

  /** Enter and Space go on. */
  lemma ProceedKeys(ev: KeyEvent)
    requires ev.key == "Enter" || ev.key == " "
    ensures FiredBy(ev) == Some(Proceed)
  {
    if ev.key == "Enter" {
      assert ToLower(ev.key) == "enter";
      TrainingKeyReaches(ev, "enter", 9);
    } else {
      assert ToLower(ev.key) == " ";
      TrainingKeyReaches(ev, " ", 10);
    }
  }

  /** An upper-case R is caught by the lower-case binding, so the second R
      binding never fires. */
  lemma SecondRetryBindingNeverFires(ev: KeyEvent)
    ensures FirstMatch(TrainingBindings(), ev) != Some(8)
  {
    assert ToLower("R") == "r" && ToLower("r") == "r";
    ShadowedBindingNeverFires(TrainingBindings(), ev, 7, 8);
  }

  /** Rating a batch drawn from a well-formed deck keeps it well formed. */
  lemma RatedDeckOk(deck: seq<Card>, batch: seq<Card>, result: ReviewResult, now: Timestamp, nextId: nat)
    requires DeckOk(deck, nextId)
    requires forall c :: c in batch ==> c in deck
    ensures DeckOk(ReplaceById(deck, ReviewAll(batch, result, now)), nextId)
  {
    var updated := ReviewAll(batch, result, now);
    var r := ReplaceById(deck, updated);
    forall i | 0 <= i < |r| ensures CardOk(r[i]) {
      if r[i] != deck[i] {
        var k :| 0 <= k < |updated| && updated[k] == r[i];
        assert batch[k] in batch;
        ReviewPreservesCardOk(batch[k], result, now);
      }
    }
  }

  /** Grading a batch drawn from a well-formed deck keeps the deck and the
      counters well formed. */
  lemma GradedStoreOk(deck: seq<Card>, stats: StorageStats, batch: seq<Card>, result: ReviewResult,
                      correct: bool, now: Timestamp, nextId: nat)
    requires DeckOk(deck, nextId) && stats.correctReviews <= stats.totalReviews
    requires forall c :: c in batch ==> c in deck
    ensures DeckOk(ReplaceById(deck, ReviewAll(batch, result, now)), nextId)
    ensures UpdateCounters(stats, |batch|, correct, DayKey(now)).correctReviews
      <= UpdateCounters(stats, |batch|, correct, DayKey(now)).totalReviews
  {
    RatedDeckOk(deck, batch, result, now, nextId);
    CountersAfterGrading(stats, |batch|, correct, DayKey(now));
  }

  /** lodash `shuffle`: some permutation of the list. */
  method Shuffle<T(==)>(xs: seq<T>) returns (ys: seq<T>)
    ensures multiset(ys) == multiset(xs)
  {
    assert multiset(xs) == multiset(xs);
    ys :| multiset(ys) == multiset(xs);
  }

  /** The `sessionCards` memo: the candidates, shuffled. */
  method ComposeSession(cards: seq<Card>, clef: Clef, infinite: bool, now: Timestamp)
    returns (session: seq<Card>, cands: seq<Card>)
    ensures cands == SessionCandidates(cards, clef, infinite, now)
    ensures multiset(session) == multiset(cands)
  {
    cands := SessionCandidates(cards, clef, infinite, now);
    session := Shuffle(cands);
  }

  /** The cards on screen come from the deck. */
  lemma BatchFromDeck(session: seq<Card>, index: nat, fourNote: bool, candidates: seq<Card>,
                      cards: seq<Card>, clef: Clef, infinite: bool, now: Timestamp)
    requires multiset(session) == multiset(candidates)
    requires candidates == SessionCandidates(cards, clef, infinite, now)
    ensures forall c :: c in CurrentCards(session, index, fourNote) ==> c in cards
  {
    SessionFacts(session, cards, clef, infinite, now);
  }

  /** The training screen's state over the shared store. */
  class TrainingSession {
    const store: AppStore
    var currentCardIndex: nat
    var showFeedback: bool
    var isCorrect: bool
    var userAnswers: seq<NoteName>
    var sessionCards: seq<Card>
    /** The unshuffled session the list was last composed from, and when
        (the due filter's "now"). */
    ghost var candidates: seq<Card>
    ghost var composedAt: Timestamp

    /** The session is a shuffle of its candidates. */
    ghost predicate Valid()
      reads this`sessionCards, this`candidates
    {
      multiset(sessionCards) == multiset(candidates)
    }

    /** The candidates are those the deck yields at the composition time. */
    ghost predicate Composed()
      reads this`candidates, this`composedAt, store`cards, store`selectedClef, store`config
    {
      candidates == SessionCandidates(store.cards, store.selectedClef, store.config.infiniteMode, composedAt)
    }

    /** `currentCards`. */
    function Batch(): seq<Card>
      reads this`sessionCards, this`currentCardIndex, store`config
    {
      CurrentCards(sessionCards, currentCardIndex, store.config.fourNoteMode)
    }

    /** Mounting the screen: index 0, no feedback, and a shuffled session. */
    constructor (store: AppStore, now: Timestamp)
      requires store.Valid()
      ensures this.store == store
      ensures currentCardIndex == 0 && !showFeedback && !isCorrect && userAnswers == []
      ensures composedAt == now
      ensures Valid() && Composed()
    {
      this.store := store;
      currentCardIndex := 0;
      showFeedback := false;
      isCorrect := false;
      userAnswers := [];
      var cands := SessionCandidates(store.cards, store.selectedClef, store.config.infiniteMode, now);
      var shuffled := Shuffle(cands);
      sessionCards := shuffled;
      candidates := cands;
      composedAt := now;
    }

    /** `handleAnswer`: ignored while feedback shows or with no current
        card; in single mode judges the letter at once; in four-note mode
        collects it and judges the batch once every card has an answer. */
    method HandleAnswer(name: NoteName)
      requires Valid()
      modifies this`showFeedback, this`isCorrect, this`userAnswers
      ensures Valid()
      ensures sessionCards == old(sessionCards) && currentCardIndex == old(currentCardIndex)
      ensures candidates == old(candidates) && composedAt == old(composedAt)
      ensures old(currentCardIndex >= |sessionCards| || showFeedback) ==>
        showFeedback == old(showFeedback) && isCorrect == old(isCorrect) && userAnswers == old(userAnswers)
      ensures old(currentCardIndex < |sessionCards| && !showFeedback) && store.config.fourNoteMode ==>
        && userAnswers == old(userAnswers) + [name]
        && (|userAnswers| == |Batch()| ==> showFeedback && isCorrect == AllCorrect(Batch(), userAnswers))
        && (|userAnswers| != |Batch()| ==> !showFeedback && isCorrect == old(isCorrect))
      ensures old(currentCardIndex < |sessionCards| && !showFeedback) && !store.config.fourNoteMode ==>
        && showFeedback
        && (isCorrect <==> sessionCards[currentCardIndex].note.name == name)
        && userAnswers == old(userAnswers)
    {
      if currentCardIndex >= |sessionCards| || showFeedback {
        return;
      }
      var currentCard := sessionCards[currentCardIndex];
      if store.config.fourNoteMode {
        var currentCards := Batch();
        var newAnswers := userAnswers + [name];
        userAnswers := newAnswers;
        if |newAnswers| == |currentCards| {
          var allCorrect := AllCorrect(currentCards, newAnswers);
          isCorrect := allCorrect;
          showFeedback := true;
        }
      } else {
        var correct := SingleCorrect(currentCard, name);
        isCorrect := correct;
        showFeedback := true;
      }
    }

    /** `handleRetry`: back to an unanswered question; the deck is untouched. */
    method HandleRetry()
      requires Valid()
      modifies this`showFeedback, this`isCorrect, this`userAnswers
      ensures Valid()
      ensures !showFeedback && !isCorrect && userAnswers == []
      ensures sessionCards == old(sessionCards) && currentCardIndex == old(currentCardIndex)
      ensures candidates == old(candidates) && composedAt == old(composedAt)
    {
      showFeedback := false;
      isCorrect := false;
      userAnswers := [];
    }

    /** The session memo and the effect on the current card: the session
        is composed again from the deck and shuffled; if there is a card at
        the index, the answer state is cleared. */
    method Recompose(now: Timestamp)
      modifies this`sessionCards, this`candidates, this`composedAt, this`showFeedback, this`isCorrect, this`userAnswers
      ensures Valid() && Composed() && composedAt == now
      ensures currentCardIndex < |sessionCards| ==> !showFeedback && !isCorrect && userAnswers == []
      ensures currentCardIndex >= |sessionCards| ==>
        showFeedback == old(showFeedback) && isCorrect == old(isCorrect) && userAnswers == old(userAnswers)
    {
      Compose(now);
      ClearAnswerOnNewCard();
    }

    /** The `sessionCards` memo. */
    method Compose(now: Timestamp)
      modifies this`sessionCards, this`candidates, this`composedAt
      ensures Valid() && Composed() && composedAt == now
    {
      var shuffled, cands := ComposeSession(store.cards, store.selectedClef, store.config.infiniteMode, now);
      sessionCards, candidates, composedAt := shuffled, cands, now;
    }

    /** The effect on the current card: when there is a card at the index,
        the answer state is cleared. */
    method ClearAnswerOnNewCard()
      modifies this`showFeedback, this`isCorrect, this`userAnswers
      ensures currentCardIndex < |sessionCards| ==> !showFeedback && !isCorrect && userAnswers == []
      ensures currentCardIndex >= |sessionCards| ==>
        showFeedback == old(showFeedback) && isCorrect == old(isCorrect) && userAnswers == old(userAnswers)
    {
      if currentCardIndex < |sessionCards| {
        showFeedback := false;
        isCorrect := false;
        userAnswers := [];
      }
    }

    /** `handleRating`: with a current card, reviews the card (or the
        batch) with one rating, writes the reviews into the deck by id,
        counts the graded cards, and advances the index against the
        session as it was; the session is then composed again. */
    method HandleRating(rating: Rating, timeSpent: nat, now: Timestamp)
      requires store.Valid() && Valid() && Composed()
      modifies this`currentCardIndex, this`showFeedback, this`isCorrect, this`userAnswers, this`sessionCards, this`candidates, this`composedAt, store
      ensures store.Valid() && Valid() && Composed()
      ensures old(currentCardIndex >= |sessionCards|) ==> unchanged(this) && unchanged(store)
      ensures old(currentCardIndex < |sessionCards|) ==>
        && store.cards == ReplaceById(old(store.cards), ReviewAll(old(Batch()), ReviewResult(rating, timeSpent), now))
        && store.stats == UpdateCounters(old(store.stats), |old(Batch())|, old(isCorrect), DayKey(now))
        && store.config == old(store.config) && store.selectedClef == old(store.selectedClef)
        && store.nextId == old(store.nextId)
        && currentCardIndex == NextIndex(old(currentCardIndex), old(|sessionCards|), store.config.fourNoteMode)
        && composedAt == now
        && !showFeedback
        && (currentCardIndex < |sessionCards| ==> !isCorrect && userAnswers == [])
        && (currentCardIndex >= |sessionCards| ==> isCorrect == old(isCorrect) && userAnswers == old(userAnswers))
    {
      if currentCardIndex < |sessionCards| {
        BatchFromDeck(sessionCards, currentCardIndex, store.config.fourNoteMode, candidates,
                      store.cards, store.selectedClef, store.config.infiniteMode, composedAt);
        Rate(rating, timeSpent, now);
      }
    }

    /** `handleRating` once there is a current card. */
    method Rate(rating: Rating, timeSpent: nat, now: Timestamp)
      requires store.Valid() && Valid() && currentCardIndex < |sessionCards|
      requires forall c :: c in Batch() ==> c in store.cards
      modifies this`currentCardIndex, this`showFeedback, this`isCorrect, this`userAnswers, this`sessionCards, this`candidates, this`composedAt, store
      ensures store.Valid() && Valid() && Composed()
      ensures store.cards == ReplaceById(old(store.cards), ReviewAll(old(Batch()), ReviewResult(rating, timeSpent), now))
      ensures store.stats == UpdateCounters(old(store.stats), |old(Batch())|, old(isCorrect), DayKey(now))
      ensures store.config == old(store.config) && store.selectedClef == old(store.selectedClef)
      ensures store.nextId == old(store.nextId)
      ensures currentCardIndex == NextIndex(old(currentCardIndex), old(|sessionCards|), store.config.fourNoteMode)
      ensures composedAt == now && !showFeedback
      ensures currentCardIndex < |sessionCards| ==> !isCorrect && userAnswers == []
      ensures currentCardIndex >= |sessionCards| ==> isCorrect == old(isCorrect) && userAnswers == old(userAnswers)
    {
      Grade(rating, timeSpent, now);
      Recompose(now);
    }

    /** The body of `handleRating` up to the re-render: the deck, the
        counters, the index and the feedback flag. */
    method Grade(rating: Rating, timeSpent: nat, now: Timestamp)
      requires store.Valid() && currentCardIndex < |sessionCards|
      requires forall c :: c in Batch() ==> c in store.cards
      modifies this`currentCardIndex, this`showFeedback, store
      ensures store.Valid()
      ensures store.cards == ReplaceById(old(store.cards), ReviewAll(old(Batch()), ReviewResult(rating, timeSpent), now))
      ensures store.stats == UpdateCounters(old(store.stats), |old(Batch())|, old(isCorrect), DayKey(now))
      ensures store.config == old(store.config) && store.selectedClef == old(store.selectedClef)
      ensures store.nextId == old(store.nextId)
      ensures currentCardIndex == NextIndex(old(currentCardIndex), |sessionCards|, store.config.fourNoteMode)
      ensures !showFeedback
    {
      var result := ReviewResult(rating, timeSpent);
      var today := DayKey(now);
      var deck, stats := store.cards, store.stats;
      var currentCards := Batch();
      var newDeck, newStats, nextIndex;
      if store.config.fourNoteMode {
        var updatedCards := ReviewAll(currentCards, result, now);
        newDeck := ReplaceById(deck, updatedCards);
        newStats := UpdateCounters(stats, |currentCards|, isCorrect, today);
        nextIndex := currentCardIndex + BatchSize;
        if nextIndex >= |sessionCards| {
          nextIndex := 0;
        }
      } else {
        var currentCard := sessionCards[currentCardIndex];
        var updatedCard := ReviewCard(currentCard, result, now);
        newDeck := ReplaceCard(deck, updatedCard);
        ReplaceCardIsReplaceById(deck, updatedCard);
        assert [updatedCard] == ReviewAll(currentCards, result, now);
        newStats := UpdateCounters(stats, 1, isCorrect, today);
        if currentCardIndex < |sessionCards| - 1 {
          nextIndex := currentCardIndex + 1;
        } else {
          nextIndex := 0;
        }
      }
      GradedStoreOk(deck, stats, currentCards, result, isCorrect, now, store.nextId);
      store.cards, store.stats := newDeck, newStats;
      currentCardIndex := nextIndex;
      showFeedback := false;
    }

    /** `handleContinue`: going on after a wrong answer rates the card
        "again". */
    method HandleContinue(timeSpent: nat, now: Timestamp)
      requires store.Valid() && Valid() && Composed()
      modifies this`currentCardIndex, this`showFeedback, this`isCorrect, this`userAnswers, this`sessionCards, this`candidates, this`composedAt, store
      ensures store.Valid() && Valid() && Composed()
      ensures old(currentCardIndex >= |sessionCards|) ==> unchanged(this) && unchanged(store)
      ensures old(currentCardIndex < |sessionCards|) ==>
        && store.cards == ReplaceById(old(store.cards), ReviewAll(old(Batch()), ReviewResult(Again, timeSpent), now))
        && store.stats == UpdateCounters(old(store.stats), |old(Batch())|, old(isCorrect), DayKey(now))
        && store.config == old(store.config) && store.selectedClef == old(store.selectedClef)
        && store.nextId == old(store.nextId)
        && currentCardIndex == NextIndex(old(currentCardIndex), old(|sessionCards|), store.config.fourNoteMode)
        && composedAt == now
        && !showFeedback
        && (currentCardIndex < |sessionCards| ==> !isCorrect && userAnswers == [])
        && (currentCardIndex >= |sessionCards| ==> isCorrect == old(isCorrect) && userAnswers == old(userAnswers))
    {
      HandleRating(Again, timeSpent, now);
    }

    /** A key press on the training screen. The hook is enabled by
        `currentCard !== null`, which holds even when the index is past the
        session's end, so the shortcuts are always live. */
    method PressKey(ev: KeyEvent, timeSpent: nat, now: Timestamp)
      requires store.Valid() && Valid() && Composed()
      modifies this`currentCardIndex, this`showFeedback, this`isCorrect, this`userAnswers, this`sessionCards, this`candidates, this`composedAt, store
      ensures store.Valid() && Valid() && Composed()
      ensures FiredBy(ev).None? ==> unchanged(this) && unchanged(store)
      ensures FiredBy(ev).Some? && FiredBy(ev).value.Answer? && old(showFeedback) ==> unchanged(this) && unchanged(store)
      ensures FiredBy(ev).Some? && FiredBy(ev).value.Answer? && !old(showFeedback) ==>
        && unchanged(store)
        && sessionCards == old(sessionCards) && currentCardIndex == old(currentCardIndex)
        && candidates == old(candidates) && composedAt == old(composedAt)
        && (old(currentCardIndex >= |sessionCards|) ==>
              !showFeedback && isCorrect == old(isCorrect) && userAnswers == old(userAnswers))
        && (old(currentCardIndex < |sessionCards|) && !store.config.fourNoteMode ==>
              && showFeedback && userAnswers == old(userAnswers)
              && (isCorrect <==> sessionCards[currentCardIndex].note.name == FiredBy(ev).value.name))
        && (old(currentCardIndex < |sessionCards|) && store.config.fourNoteMode ==>
              && userAnswers == old(userAnswers) + [FiredBy(ev).value.name]
              && (|userAnswers| == |Batch()| ==> showFeedback && isCorrect == AllCorrect(Batch(), userAnswers))
              && (|userAnswers| != |Batch()| ==> !showFeedback && isCorrect == old(isCorrect)))
      ensures FiredBy(ev) == Some(Retry) ==>
        && unchanged(store)
        && sessionCards == old(sessionCards) && currentCardIndex == old(currentCardIndex)
        && candidates == old(candidates) && composedAt == old(composedAt)
        && (old(showFeedback && !isCorrect) ==> !showFeedback && !isCorrect && userAnswers == [])
      ensures FiredBy(ev) == Some(Retry) && !old(showFeedback && !isCorrect) ==> unchanged(this) && unchanged(store)
      ensures FiredBy(ev) == Some(Proceed) && !old(showFeedback) ==> unchanged(this) && unchanged(store)
      ensures FiredBy(ev) == Some(Proceed) && old(currentCardIndex >= |sessionCards|) ==> unchanged(this) && unchanged(store)
      ensures FiredBy(ev) == Some(Proceed) && old(showFeedback && currentCardIndex < |sessionCards|) ==>
        && store.cards == ReplaceById(old(store.cards),
             ReviewAll(old(Batch()), ReviewResult(if old(isCorrect) then Good else Again, timeSpent), now))
        && store.stats == UpdateCounters(old(store.stats), |old(Batch())|, old(isCorrect), DayKey(now))
        && store.config == old(store.config) && store.selectedClef == old(store.selectedClef)
        && store.nextId == old(store.nextId)
        && currentCardIndex == NextIndex(old(currentCardIndex), old(|sessionCards|), store.config.fourNoteMode)
        && composedAt == now
        && !showFeedback
        && (currentCardIndex < |sessionCards| ==> !isCorrect && userAnswers == [])
        && (currentCardIndex >= |sessionCards| ==> isCorrect == old(isCorrect) && userAnswers == old(userAnswers))
    {
      var fired, _ := HandleKeyDown(TrainingBindings(), ev, true);
      match fired
      case None =>
      case Some(action) =>
        match action
        case Answer(name) =>
          if !showFeedback {
            HandleAnswer(name);
          }
        case Retry =>
          if showFeedback && !isCorrect {
            HandleRetry();
          }
        case Proceed =>
          if showFeedback {
            if isCorrect {
              HandleRating(Good, timeSpent, now);
            } else {
              HandleContinue(timeSpent, now);
            }
          }
    }
  }
}
