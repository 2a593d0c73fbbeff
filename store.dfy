/** The application state of src/store/index.ts: the persisted counter
    record, the default training configuration, the derived study
    statistics, and the atoms themselves gathered into one object.
    "Today" is a day key, the whole number of days since the epoch that
    a timestamp falls in; it stands for `Date.toDateString()`. */
module Store {
  import opened Common
  import opened Types
  import opened Notes
  import opened Srs
  import opened InitCards

  /** `StorageStats`: the review counters kept beside the deck. */
  datatype StorageStats = StorageStats(
    reviewsToday: nat,
    lastReviewDate: int,
    totalReviews: nat,
    correctReviews: nat)

  /** The calendar day a timestamp falls in. */
  function DayKey(t: Timestamp): int {
    t / DaySeconds
  }

  /** The counter record of a first launch: nothing reviewed, dated today. */
  function DefaultStats(now: Timestamp): StorageStats {
    StorageStats(0, DayKey(now), 0, 0)
  }

  /** The default `trainingConfigAtom` value: both clefs, each with its
      default range, and both modes off. */
  function DefaultConfig(): TrainingConfig {
    var trebleDefault := GetDefaultRange(Treble);
    var bassDefault := GetDefaultRange(Bass);
    TrainingConfig(
      [Treble, Bass],
      Ranges(Some(NoteRange(Treble, trebleDefault.start, trebleDefault.end)),
             Some(NoteRange(Bass, bassDefault.start, bassDefault.end))),
      false,
      false)
  }

  /** Building a deck from the default configuration gives every treble
      note and then every bass note, the same notes as `initializeCards()`. */
  lemma DefaultConfigDeck()
    ensures ConfigNotes(DefaultConfig(), DefaultConfig().enabledClefs) == GetAllNotes(Treble) + GetAllNotes(Bass)
    ensures ConfigNotes(DefaultConfig(), DefaultConfig().enabledClefs) == EnabledNotes(true, true)
    ensures |ConfigNotes(DefaultConfig(), DefaultConfig().enabledClefs)| == 34
  {
    var config := DefaultConfig();
    TwoClefDeck(config, Treble, Bass);
    ClefNotesFollowBounds(config, Treble);
    ClefNotesFollowBounds(config, Bass);
    DefaultRangeIsWholeCatalogue(Treble);
    DefaultRangeIsWholeCatalogue(Bass);
  }

  // ----- The study statistics -----

  /** `Math.round((correct / total) * 100)` for total > 0, else 0; the
      quotient is taken exactly. */
  function AccuracyRate(correct: nat, total: nat): (r: int)
    ensures total == 0 ==> r == 0
    ensures total > 0 ==> 2 * total * r - total <= 200 * correct < 2 * total * r + total
    ensures correct <= total ==> 0 <= r <= 100
  {
    if total > 0 then
      var r := (200 * correct + total) / (2 * total);
      assert 2 * total * r <= 200 * correct + total < 2 * total * r + 2 * total;
      assert correct <= total ==> r <= 100 by {
        if correct <= total && r > 100 {
          assert 2 * total * r >= 2 * total * 101 by { MulMonotone(2 * total, 101, r); }
        }
      }
      r
    else 0
  }

  lemma MulMonotone(k: nat, a: int, b: int)
    requires a <= b
    ensures k * a <= k * b
  {
    assert k * b - k * a == k * (b - a);
  }

  predicate IsLearning(c: Card) {
    c.repetitions > 0 && c.repetitions < 3
  }

  predicate IsMature(c: Card) {
    c.repetitions >= 3
  }

  /** `studyStatsAtom`: the snapshot of the deck and the counters at `now`. */
  function StudyStatsOf(cards: seq<Card>, stats: StorageStats, now: Timestamp): (r: StudyStats)
    ensures r.totalCards == |cards|
    ensures r.newCards == Min(DefaultNewLimit, |Filter(cards, IsNew)|)
    ensures r.newCards <= r.totalCards && r.learningCards <= r.totalCards && r.reviewCards <= r.totalCards
    ensures r.learningCards == |Filter(cards, IsLearning)|
    ensures r.reviewCards == |GetDueCards(cards, now)|
    ensures r.cardsStudiedToday == if stats.lastReviewDate == DayKey(now) then stats.reviewsToday else 0
    ensures r.accuracyRate == AccuracyRate(stats.correctReviews, stats.totalReviews)
    ensures stats.correctReviews <= stats.totalReviews ==> 0 <= r.accuracyRate <= 100
  {
    var dueCards := GetDueCards(cards, now);
    var newCards := GetNewCards(cards);
    var today := DayKey(now);
    var cardsStudiedToday := if stats.lastReviewDate == today then stats.reviewsToday else 0;
    var accuracyRate := AccuracyRate(stats.correctReviews, stats.totalReviews);
    StudyStats(|cards|, |newCards|, |Filter(cards, IsLearning)|, |dueCards|, cardsStudiedToday, accuracyRate)
  }

  /** On a deck of well-formed cards, new, learning and mature cards
      partition the deck; the "new" statistic is that count capped at 20. */
  lemma StudyStatsPartition(cards: seq<Card>, stats: StorageStats, now: Timestamp)
    requires forall i :: 0 <= i < |cards| ==> cards[i].repetitions >= 0
    ensures |Filter(cards, IsNew)| + StudyStatsOf(cards, stats, now).learningCards + |Filter(cards, IsMature)| == |cards|
  {
    var notNew := (c: Card) => !IsNew(c);
    FilterSplit(cards, IsNew, notNew);
    var rest := Filter(cards, notNew);
    assert forall i :: 0 <= i < |rest| ==> rest[i].repetitions > 0 by {
      forall i | 0 <= i < |rest| ensures rest[i].repetitions > 0 {
        assert rest[i] in rest;
        var k :| 0 <= k < |cards| && cards[k] == rest[i];
      }
    }
    FilterSplit(rest, IsLearning, IsMature);
    FilterFilter(cards, notNew, IsLearning, IsLearning);
    FilterFilter(cards, notNew, IsMature, IsMature);
  }

  /** The application's atoms, as one object: the deck, the counters, the
      configuration, the clef chosen for practice, and the source of
      fresh card ids standing for `nanoid`. */
  class AppStore {
    var cards: seq<Card>
    var stats: StorageStats
    var config: TrainingConfig
    var selectedClef: Clef
    var nextId: nat

    /** Every card keeps the schedule invariant, ids are distinct and all
        below the next fresh id, at least one clef is enabled, and no more
        reviews are counted correct than were made. */
    ghost predicate Valid()
      reads this
    {
      && DeckOk(cards, nextId)
      && config.enabledClefs != []
      && stats.correctReviews <= stats.totalReviews
    }

    /** A first launch: no saved deck, fresh counters, the default
        configuration and the treble clef selected. */
    constructor (now: Timestamp)
      ensures cards == [] && stats == DefaultStats(now) && config == DefaultConfig()
      ensures selectedClef == Treble && nextId == 0
      ensures Valid()
    {
      cards := [];
      stats := DefaultStats(now);
      config := DefaultConfig();
      selectedClef := Treble;
      nextId := 0;
    }
  }

  /** The deck invariant of the store. */
  ghost predicate DeckOk(cards: seq<Card>, nextId: nat) {
    && (forall i :: 0 <= i < |cards| ==> CardOk(cards[i]) && cards[i].id < nextId)
    && (forall i, j :: 0 <= i < j < |cards| ==> cards[i].id != cards[j].id)
  }

  /** A freshly built deck, numbered from the next fresh id, is well formed. */
  lemma {:induction false} FreshDeckOk(notes: seq<Note>, firstId: nat, now: Timestamp)
    ensures DeckOk(FreshCards(notes, firstId, now), firstId + |notes|)
  {
    FreshCardIdsDistinct(notes, firstId, now);
  }
}
