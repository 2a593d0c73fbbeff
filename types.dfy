/** The records of src/types/index.ts, as datatypes.
    Timestamps are whole seconds; an ease factor is kept in hundredths
    (2.5 is 250); a card id is a natural number standing for the random
    string the application draws. */
module Types {
  import opened Common

  datatype Clef = Treble | Bass

  datatype NoteName = C | D | E | F | G | A | B

  /** A pitch on one clef's staff. */
  datatype Note = Note(name: NoteName, octave: int, clef: Clef)

  /** Inclusive bounds, written as labels such as "C4", for one clef. */
  datatype NoteRange = NoteRange(clef: Clef, startNote: string, endNote: string)

  /** The optional per-clef ranges of a configuration. */
  datatype Ranges = Ranges(treble: Option<NoteRange>, bass: Option<NoteRange>) {
    function Get(clef: Clef): Option<NoteRange> {
      if clef == Treble then treble else bass
    }
  }

  datatype TrainingConfig = TrainingConfig(
    enabledClefs: seq<Clef>,
    ranges: Ranges,
    infiniteMode: bool,
    fourNoteMode: bool)

  type CardId = nat

  type Timestamp = int

  /** A flashcard and its SM-2 schedule. */
  datatype Card = Card(
    id: CardId,
    note: Note,
    easeFactor: int,
    interval: int,
    repetitions: int,
    nextReviewDate: Timestamp,
    lastReviewDate: Option<Timestamp>)

  datatype Rating = Again | Hard | Good | Easy

  datatype ReviewResult = ReviewResult(rating: Rating, timeSpent: nat)

  datatype StudyStats = StudyStats(
    totalCards: nat,
    newCards: nat,
    learningCards: nat,
    reviewCards: nat,
    cardsStudiedToday: nat,
    accuracyRate: int)
}
