# staff-reading-trainer, modelled in Dafny

This project models the engine of a flashcard trainer for reading notes on
the treble and bass staves. The trainer has four layers:

- **The pitch catalogue** (`notes.dfy`). Each clef has a fixed, ascending
  table of seventeen pitches. The model covers note labels such as "C4",
  the strict label parser, the numeric pitch value (octave * 12 + semitone
  offset) and the inclusive range filter.
- **The SM-2 scheduler** (`srs.dfy`). One graded review moves a card's
  ease factor, repetition count, interval and dates. On top of that sit the
  "due" and "new" filters over a deck.
- **Deck construction and statistics** (`init_cards.dfy`, `store.dfy`).
  Fresh cards are built per enabled clef. The store holds the default
  configuration, the counter record and the derived study statistics.
- **The training screen** (`training.dfy`). This is the session list, the
  cards on screen, the judging of answers, ratings and the index advance,
  and the keyboard shortcuts. The smaller pieces around it:
  - the settings updaters and deck actions (`setup.dfy`);
  - the range preview (`range_preview.dfy`);
  - the first-match key dispatch (`keyboard.dfy`).

`common.dfy` holds the JavaScript `filter` and `slice` and their lemmas.
`types.dfy` transcribes the application's records.

## Conventions

- **Ease factor.** It is kept in integer hundredths, so 2.5 is 250.
  - The float deltas -0.8, -0.14, 0 and +0.1 of the four ratings become
    -80, -14, 0 and +10.
  - The floor 1.3 becomes 130.
  - `Math.round(interval * ease)` becomes `(interval * ease + 50) div 100`.
    On integers this is exactly JavaScript's round-half-up.
- **Time.** Times are whole seconds and a day is 86400 seconds.
  `toDateString()` ("today") is the day number `t div 86400`.
- **Inputs from outside.** `new Date()`, `Date.now()` and the elapsed
  `timeSpent` are parameters.
- **Card ids.** `nanoid` is modelled by a counter in the store. The cards
  of one call are numbered consecutively, so ids are fresh and distinct.
- **Shuffle.** lodash `shuffle` returns some permutation. It is chosen
  nondeterministically, and the model only relies on multiset equality.
- **React state.** The atoms become one `AppStore` object. The training
  screen's `useState` fields become a `TrainingSession` object over it. A
  handler is a method, and a state setter is a field assignment.

## Behaviour worth noting

The model follows the code in each of these cases:

- The session list is a memo over the deck. It is therefore composed
  again, and shuffled again, after every rating (`TrainingSession.Recompose`).
- The index is advanced against the length of the old session. So a rating
  can land the index past the end of the recomposed session, and the
  "no cards" screen shows while a due card remains
  (`StaleIndexAfterRating`).
- A fresh card is both due and new. A normal-mode session therefore takes
  it twice (`FreshCardEntersTwice`).
- The "new cards" statistic uses `getNewCards` with its default limit, so
  it is capped at 20 (`StudyStatsOf`).
- The upper-case "R" binding is never reached, because matching ignores
  case and the lower-case binding comes first
  (`SecondRetryBindingNeverFires`).
- The shortcut hook is enabled by `currentCard !== null`. This is true even
  when there is no card at the index (the value is `undefined`), so the
  shortcuts are always live (`TrainingSession.PressKey`).
- The effect that clears the answer state runs only when there is a card
  at the index. Section "Left out" says how its dependency on the card
  object is approximated.
- The range preview does not parse labels the way the deck builder does;
  see "Findings".

## Model

| member | source | states |
|---|---|---|
| Common.Filter | src/lib/srs.ts:55-62 | `filter` keeps exactly the elements that pass, as an order-preserving subsequence no longer than the input |
| Common.FilterMultiplicity | src/features/training/TrainingSession.tsx:35-44 | a kept element occurs as often as in the input, so deck duplicates survive `filter` |
| Common.FilterConcat | src/lib/init-cards.ts:49-64 | filtering a concatenation is the concatenation of the filters |
| Common.FilterKeepsAll | src/lib/notes.ts:111-114 | a filter that every element passes returns the whole list |
| Common.FilterKeepsNone | src/lib/notes.ts:111-114 | a filter no element passes returns the empty list |
| Common.FilterKeepsPrefix | src/lib/notes.ts:111-114 | a filter that passes exactly the first k elements returns that prefix |
| Common.FilterLengthsAgree | src/components/NoteRangePreview.tsx:27-34 | two filters that decide alike position by position keep equally many elements |
| Common.FilterSplit | src/store/index.ts:82-83 | a predicate and its negation split a list, so their counts add up to its length |
| Common.FilterFilter | src/store/index.ts:83 | filtering twice is filtering by the conjunction |
| Common.SlicePrefixLength | src/lib/srs.ts:61 | `slice(0, n)` is the first min(n, length) elements |
| Notes.GetAllNotes | src/lib/notes.ts:3-52 | exactly 17 notes, in table order, each tagged with the requested clef |
| Notes.CatalogueStrictlyIncreasing | src/lib/notes.ts:3-47 | each clef's table is strictly increasing in pitch value, for every pair of positions |
| Notes.TrebleSteps | src/lib/notes.ts:3-24 | each treble entry is higher than the one before |
| Notes.BassSteps | src/lib/notes.ts:26-47 | each bass entry is higher than the one before |
| Notes.StepsIncreasing | src/lib/notes.ts:3-47 | a sequence that rises at every step rises between any two positions |
| Notes.NameOf | src/lib/notes.ts:76 | the letter group `[A-G]`: a character names a letter exactly when it is A to G, and the letter prints as that character |
| Notes.NameOfLetter | src/lib/notes.ts:59-61 | reading back the printed letter of a name gives that name |
| Notes.NatToString | src/lib/notes.ts:60 | the printed octave of a non-negative number is a non-empty run of digits |
| Notes.DigitsValueOfNatToString | src/lib/notes.ts:59-61 | `parseInt(_, 10)` of the printed number gives the number back |
| Notes.NoteToVexFlowKey | src/lib/notes.ts:63-65 | the first character is the note's letter shifted to lower case (a-g), then a slash, then the same octave text `noteToString` prints |
| Notes.AreNotesEqual | src/lib/notes.ts:67-73 | true exactly when name, octave and clef all agree |
| Notes.AreNotesEqualIsEquivalence | src/lib/notes.ts:67-73 | note equality is reflexive, symmetric and transitive |
| Notes.ParseNoteString | src/lib/notes.ts:75-82 | succeeds exactly on one letter A-G followed by one or more decimal digits, returning that letter and the digits' value |
| Notes.ParseNoteToString | src/lib/notes.ts:59-82 | for octave >= 0, parsing the printed label gives back the note's name and octave |
| Notes.NoteToString | src/lib/notes.ts:59-61 | no contract of its own: its inverse is the contract of `ParseNoteToString`, and a negative octave is refused by `ParseRejectsNegativeOctave` |
| Notes.ParseRejectsNegativeOctave | src/lib/notes.ts:59-82 | a negative octave prints with a minus sign, which the parser refuses |
| Notes.Offset | src/lib/notes.ts:87-95 | semitone offsets lie within one octave, 0 to 11 |
| Notes.NoteValueOrder | src/lib/notes.ts:84-97 | pitch values order notes by octave first and letter second, and are equal exactly when octave and letter are |
| Notes.GetNoteValue | src/lib/notes.ts:84-97 | no contract of its own: the order and injectivity of the value are the contract of `NoteValueOrder` |
| Notes.InRangeUnparsable | src/lib/notes.ts:99-102 | if either bound fails to parse, every note is in range |
| Notes.InRangeIff | src/lib/notes.ts:99-109 | with both bounds parsed, in range exactly when start value <= note value <= end value |
| Notes.IsNoteInRange | src/lib/notes.ts:99-109 | no contract of its own: an unparsable bound lets every note through (`InRangeUnparsable`), and otherwise the test is `InRangeIff` |
| Notes.InRangeBetweenNotes | src/lib/notes.ts:99-109 | between the labels of two notes, a note is in range exactly when its value lies between theirs, both ends included |
| Notes.GetNotesInRange | src/lib/notes.ts:111-114 | an order-preserving subsequence of the catalogue holding exactly the notes in range |
| Notes.NotesInRangeUnparsable | src/lib/notes.ts:99-114 | an unparsable bound yields the whole catalogue |
| Notes.NotesInRangeReversed | src/lib/notes.ts:104-114 | a start above the end yields no notes |
| Notes.GetDefaultRange | src/lib/notes.ts:116-122 | the default bounds are the labels of the first and last table entries |
| Notes.DefaultRangeIsWholeCatalogue | src/lib/notes.ts:111-122 | the default range selects the whole catalogue |
| Notes.TrebleC4ToG4Decisions | src/lib/notes.ts:99-109 | treble "C4".."G4" admits exactly the first five table entries |
| Notes.TreblePrefix | src/lib/notes.ts:3-24 | the first five treble entries are C4, D4, E4, F4 and G4 |
| Notes.TrebleC4ToG4 | src/lib/notes.ts:111-114 | treble "C4".."G4" is exactly C4, D4, E4, F4, G4 |
| Srs.Quality | src/lib/srs.ts:8-13 | qualities lie in 0..5, and only "again" is a failure (quality < 3) |
| Srs.QualityValues | src/lib/srs.ts:8-13 | again, hard, good and easy map to 0, 3, 4 and 5 |
| Srs.EaseDeltaPerRating | src/lib/srs.ts:20-23 | the unclamped ease change is -0.8, -0.14, 0 and +0.1 for again, hard, good and easy |
| Srs.RoundHundredths | src/lib/srs.ts:37 | the result is the nearest integer to x/100, with halves rounded up (`Math.round`) |
| Srs.ReviewCard | src/lib/srs.ts:15-53 | the step-by-step update yields the reviewed card |
| Srs.Reviewed | src/lib/srs.ts:15-53 | no contract of its own: the SM-2 update is pinned down by `ReviewEaseFloor`, `ReviewAgainRestarts`, `ReviewSuccessLadder`, `ReviewStampsDates`, `ReviewPreservesCardOk` and `ReviewedNotDue` |
| Srs.ReviewEaseFloor | src/lib/srs.ts:20-23 | after a review the ease factor is at least 1.3; it is the old one plus the delta whenever that clears the floor, and exactly 1.3 when the floor clamps it |
| Srs.ReviewAgainRestarts | src/lib/srs.ts:20-29 | "again" sets repetitions to 0 and interval to 1 whatever the prior state, and lowers the ease by 0.8 down to the floor |
| Srs.ReviewSuccessLadder | src/lib/srs.ts:30-39 | any other rating adds one repetition; the interval becomes 1, then 6, then round(old interval * new ease) |
| Srs.ReviewStampsDates | src/lib/srs.ts:41-52 | id and note are kept, the last review is now and the next review is now plus interval days |
| Srs.ReviewPreservesCardOk | src/lib/srs.ts:26-39 | the schedule invariant, including "repetitions >= 2 implies interval >= 6", survives every review, and the new interval is at least 1 |
| Srs.ReviewedNotDue | src/lib/srs.ts:41-58 | a card just reviewed is not due now, and is due once its interval has passed |
| Srs.GetDueCards | src/lib/srs.ts:55-58 | the order-preserving subsequence of cards whose next review is not after now |
| Srs.GetNewCards | src/lib/srs.ts:60-62 | the first min(limit, #new) never-passed cards, in deck order |
| Srs.GoodThreeTimesThenAgain | src/lib/srs.ts:15-53 | a fresh card rated good goes through intervals 1, 6, 15; rated again, it has ease 1.7 |
| InitCards.FreshCards | src/lib/init-cards.ts:5-33 | one card per note in the same order, with distinct consecutive ids, ease 2.5, interval 0, never passed, due now |
| InitCards.FreshCardsConcat | src/lib/init-cards.ts:38-44 | building two note lists in one run numbers the second after the first |
| InitCards.CreateInitialCards | src/lib/init-cards.ts:5-16 | 17 cards, one per catalogue note of the clef, in catalogue order |
| InitCards.CreateCardsFromRange | src/lib/init-cards.ts:18-33 | one card per note of the range, in the same order, every note of that clef and in range |
| InitCards.InitializeCards | src/lib/init-cards.ts:35-47 | the treble cards (if enabled) followed by the bass cards (if enabled) |
| InitCards.InitializeCardsFromConfig | src/lib/init-cards.ts:49-64 | the cards of every enabled clef in list order; a clef with no configured range takes the default range |
| InitCards.GatherSnoc | src/lib/init-cards.ts:52-61 | one more clef in the loop appends that clef's block |
| InitCards.ExtendDeck | src/lib/init-cards.ts:52-61 | the loop invariant survives pushing one clef's cards |
| InitCards.FreshCardsStep | src/lib/init-cards.ts:52-61 | cards for one more clef are numbered on from the cards so far |
| InitCards.GatherConcat | src/lib/init-cards.ts:52-61 | the blocks of two clef lists are concatenated |
| InitCards.GatherMembership | src/lib/init-cards.ts:52-61 | an entry is in the gathered blocks exactly when its clef is listed and it is in that clef's block |
| InitCards.ClefNotesHaveClef | src/lib/init-cards.ts:53-60 | a clef contributes only notes of that clef |
| InitCards.ConfigNotesMembership | src/lib/init-cards.ts:49-64 | a note is in the configured deck exactly when its clef is enabled and it is in that clef's range |
| InitCards.ConfigNotes | src/lib/init-cards.ts:49-64 | no contract of its own: its contents are the contract of `ConfigNotesMembership` |
| InitCards.TwoClefDeck | src/lib/init-cards.ts:49-64 | a two-clef deck is the first clef's range followed by the second's |
| InitCards.GatherPair | src/lib/init-cards.ts:52-61 | two listed clefs give their two blocks in order |
| InitCards.ClefNotesFollowBounds | src/lib/init-cards.ts:53-60 | a clef's notes lie between its configured bounds, or between the default bounds when it has no range |
| InitCards.FreshCardIdsDistinct | src/lib/init-cards.ts:5-33 | the cards built in one call have pairwise distinct ids |
| Store.DefaultConfigDeck | src/store/index.ts:24-46 | the default configuration builds every treble note and then every bass note, 34 in all, the same as `initializeCards()` |
| Store.DefaultConfig | src/store/index.ts:24-46 | no contract of its own: the deck it builds is the contract of `DefaultConfigDeck` |
| Store.AccuracyRate | src/store/index.ts:75-78 | 0 with no reviews, otherwise round(correct/total * 100); within 0..100 when correct <= total |
| Store.StudyStatsOf | src/store/index.ts:65-88 | totalCards is the deck length, newCards is min(20, #new), reviewCards is #due, learningCards is the number of cards with 1 or 2 repetitions, cardsStudiedToday is the day's count only if the last review was today, accuracy is the rounded percentage of correct reviews (0 with no reviews), within 0..100 |
| Store.StudyStatsPartition | src/store/index.ts:81-83 | new, learning (0 < repetitions < 3) and mature cards partition the deck |
| Store.AppStore.constructor | src/store/index.ts:18-52 | a first launch: empty deck, zeroed counters dated today, the default configuration, treble selected |
| Store.FreshDeckOk | src/lib/init-cards.ts:5-33 | a freshly built deck keeps the store invariant: well-formed schedules and distinct ids |
| Setup.ToggleClef | src/features/training/SetupPanel.tsx:39-50 | removes every occurrence of the clef if enabled, keeping the other clefs with their multiplicities, and appends it if not; a removal that would leave no clef returns the previous configuration; nothing else changes |
| Setup.ToggleClefTwiceFromAbsent | src/features/training/SetupPanel.tsx:39-50 | enabling and then disabling a clef restores the configuration |
| Setup.ToggleClefTwiceFromPresent | src/features/training/SetupPanel.tsx:39-50 | disabling and then enabling a clef restores the set of enabled clefs |
| Setup.UpdateRange | src/features/training/SetupPanel.tsx:52-60 | sets the clef's range to the given labels and keeps the other range and every other setting |
| Setup.UpdateRangeDeck | src/features/training/SetupPanel.tsx:52-60 | after the update, a rebuilt deck takes that clef's notes from the new labels and the other clef's as before |
| Setup.HandleInitialize | src/features/training/SetupPanel.tsx:22-25 | the deck becomes the fresh deck of the configuration, discarding all progress, and the store stays well formed |
| Setup.HandleReset | src/features/training/SetupPanel.tsx:27-32 | once confirmed the deck is empty; otherwise nothing changes |
| Setup.ToggleClefSetting | src/features/training/SetupPanel.tsx:39-50 | the stored configuration is toggled, and at least one clef stays enabled |
| Setup.UpdateRangeSetting | src/features/training/SetupPanel.tsx:52-60 | the stored configuration has the clef's range updated |
| RangePreview.TrimStart | src/components/NoteRangePreview.tsx:16-25 | `parseInt` skips a suffix-preserving run of leading white space: every dropped character is white space and the rest starts with a non-space |
| RangePreview.DigitIn | src/components/NoteRangePreview.tsx:16-25 | a digit's value is below the radix; in base 10 exactly the characters 0-9 are digits |
| RangePreview.DigitPrefix | src/components/NoteRangePreview.tsx:16-25 | the longest prefix of digits of the radix |
| RangePreview.UnsignedPart | src/components/NoteRangePreview.tsx:16-25 | NaN exactly when no digit follows (hexadecimal digits after "0x" or "0X") |
| RangePreview.DigitsInDecimal | src/components/NoteRangePreview.tsx:16-25 | on decimal digits, `parseInt`'s digit value equals the strict parser's octave value |
| RangePreview.DigitPrefixOfDigits | src/components/NoteRangePreview.tsx:16-25 | a run of digits is its own longest digit prefix |
| RangePreview.ParseIntOfDigits | src/components/NoteRangePreview.tsx:16-25 | on a non-empty run of decimal digits `parseInt` gives the strict parser's octave |
| RangePreview.ParseIntIgnoresTail | src/components/NoteRangePreview.tsx:16-25 | characters after the digits are ignored unless they form a "0x" prefix |
| RangePreview.ParseIntOfDecimal | src/components/NoteRangePreview.tsx:16-25 | text that starts with a decimal digit and no "0x" is read as its leading run of digits |
| RangePreview.DigitPrefixAppend | src/components/NoteRangePreview.tsx:16-25 | a non-digit after a run of digits ends the digit prefix there |
| RangePreview.PreviewValue | src/components/NoteRangePreview.tsx:16-25 | an empty label, one whose first character is not A-G, or one whose tail `parseInt` reads as NaN, is NaN |
| RangePreview.PreviewValueOfWellFormed | src/components/NoteRangePreview.tsx:16-25 | a label the strict parser accepts has the same value in the preview |
| RangePreview.PreviewValueOfParts | src/components/NoteRangePreview.tsx:16-25 | the preview value is octave * 12 + the letter's offset |
| RangePreview.PreviewValueOfPitch | src/components/NoteRangePreview.tsx:16-25 | on a label the strict parser reads as a pitch, the preview reads the same letter and octave |
| RangePreview.ParseIntJs | src/components/NoteRangePreview.tsx:16-25 | no contract of its own: `parseInt` is pinned down by `ParseIntOfDigits`, `ParseIntIgnoresTail` and `ParseIntOfDecimal` |
| RangePreview.NoteInfo | src/components/NoteRangePreview.tsx:13-35 | nothing without a range; otherwise one entry per catalogue note, labelled name+octave, marked exactly when start value <= value <= end value, with NaN marking nothing |
| RangePreview.InRangeCount | src/components/NoteRangePreview.tsx:62 | the displayed count is the number of positions whose entry is marked in range; hence at most the number of entries and positive when an entry is marked |
| Common.FilterCountsPositions | src/components/NoteRangePreview.tsx:62 | the length of a filter is the number of positions whose element passes |
| RangePreview.PreviewAgreesWithDeck | src/components/NoteRangePreview.tsx:16-34 | with labels the strict parser accepts, the preview marks exactly the notes the deck takes and counts as many |
| RangePreview.PreviewCountOfCatalogueLabels | src/components/NoteRangePreview.tsx:16-34 | for labels printed from catalogue notes, the count equals the size of the range's deck |
| RangePreview.NoteInfoByValue | src/components/NoteRangePreview.tsx:16-29 | the count depends only on the values the labels stand for |
| RangePreview.PreviewOfNaN | src/components/NoteRangePreview.tsx:16-29 | a NaN bound marks nothing |
| RangePreview.TrailingSpaceLabel | src/components/NoteRangePreview.tsx:16-25 | a space after a well-formed label is refused by the strict parser but unnoticed by the preview |
| RangePreview.SameLetterSameOctave | src/components/NoteRangePreview.tsx:16-25 | labels with the same letter and the same `parseInt` octave have the same value |
| RangePreview.TrailingSpaceRefused | src/lib/notes.ts:76 | a label that ends in a space never matches `^([A-G])(\d+)$` |
| RangePreview.TrailingSpaceOctave | src/components/NoteRangePreview.tsx:16-25 | `parseInt` reads the same octave with or without a trailing space |
| RangePreview.PreviewTrailingSpace | src/components/NoteRangePreview.tsx:16-29 | with a space after the end label, the deck takes the whole catalogue while the preview counts the range without the space |
| RangePreview.TrebleTrailingSpaceExample | src/components/NoteRangePreview.tsx:16-29 | treble "C4" to "G4 ": the deck has 17 notes, the preview counts 5 |
| RangePreview.PreviewEmptyLabel | src/components/NoteRangePreview.tsx:16-29 | an empty end label: the deck takes the whole catalogue, the preview marks nothing |
| RangePreview.IntendedNoteInfo | src/components/NoteRangePreview.tsx:13-35 | the corrected preview marks a note exactly when the deck builder's range test admits it |
| RangePreview.IntendedPreviewMatchesDeck | src/components/NoteRangePreview.tsx:16-34 | the corrected count always equals the rebuilt deck's size for the clef, and agrees with the preview as written when both labels parse |
| Keyboard.LowerChar | src/hooks/use-keyboard.ts:20 | `toLowerCase` maps A-Z to a-z and keeps every other character |
| Keyboard.ToLower | src/hooks/use-keyboard.ts:20 | lowering works character by character and keeps the length |
| Keyboard.FirstMatch | src/hooks/use-keyboard.ts:19-31 | the position of the first binding that matches, or none exactly when no binding matches |
| Keyboard.HandleKeyDown | src/hooks/use-keyboard.ts:14-37 | when enabled: the default is prevented exactly when some binding matches, and only the first match's handler fires; when disabled nothing fires |
| Keyboard.MatchIgnoresCase | src/hooks/use-keyboard.ts:20 | keys that differ only in letter case match the same bindings |
| Keyboard.ShadowedBindingNeverFires | src/hooks/use-keyboard.ts:19-30 | a binding that matches only where an earlier one does never fires |
| Training.SessionCandidatesFacts | src/features/training/TrainingSession.tsx:32-46 | every candidate is a deck card of the selected clef; infinite mode takes all of them; normal mode takes every due one and each of the first 10 new cards of the clef, every other candidate is among those 10, and has #due + min(10, #new) entries |
| Training.SessionCandidates | src/features/training/TrainingSession.tsx:32-46 | no contract of its own: what the candidates are is the contract of `SessionCandidatesFacts` |
| Training.SessionFacts | src/features/training/TrainingSession.tsx:32-46 | a shuffled session has the candidates' length and members, all deck cards of the selected clef |
| Training.FreshCardEntersTwice | src/features/training/TrainingSession.tsx:38-44 | a fresh card is due and new, so a normal-mode session holds it twice |
| Training.CurrentCards | src/features/training/TrainingSession.tsx:48-53 | four-note mode shows `slice(index, index+4)`, single mode the card at the index if any; at most four cards, all from the session |
| Training.ScreenOf | src/features/training/TrainingSession.tsx:178-210 | "no cards" exactly when the index is past the end; "too few cards" exactly when a four-note batch is shorter than four; otherwise a full question |
| Training.SingleCorrect | src/features/training/TrainingSession.tsx:80-85 | correct exactly when the chosen letter is the note's name |
| Training.AllCorrect | src/features/training/TrainingSession.tsx:72-74 | correct exactly when every answer is the name of the card at its position |
| Training.FindById | src/features/training/TrainingSession.tsx:106 | `find`: the first position with the id, or none exactly when no card has it |
| Training.ReplaceById | src/features/training/TrainingSession.tsx:104-109 | the deck keeps its length and ids; a card with an update becomes the first updated card with its id (as `find` returns), and cards with no update are unchanged |
| Training.ReplaceCardIsReplaceById | src/features/training/TrainingSession.tsx:132-134 | the single-mode update is the batch update with a batch of one |
| Training.ReplaceCard | src/features/training/TrainingSession.tsx:131-133 | no contract of its own: it is the batch update with a batch of one (`ReplaceCardIsReplaceById`) |
| Training.RatingReviewsBatch | src/features/training/TrainingSession.tsx:102-109 | on a deck with distinct ids, each batch card is replaced by its review with the same rating and every other card is unchanged |
| Training.CountersAfterGrading | src/features/training/TrainingSession.tsx:111-143 | all n graded cards count as reviews, counted correct only on a right answer, so correct never exceeds total |
| Training.UpdateCounters | src/features/training/TrainingSession.tsx:111-142 | no contract of its own: its effect on the counters is the contract of `CountersAfterGrading` and `StudiedTodayAfterGrading` |
| Training.StudiedTodayAfterGrading | src/features/training/TrainingSession.tsx:111-143 | after grading n cards, today's "studied" statistic has risen by n, or starts at n on a new day |
| Training.NextIndex | src/features/training/TrainingSession.tsx:121-150 | the index either wraps to 0 or steps by 1 (single) or 4 (four-note); it wraps exactly at the last card or when the next batch would start outside |
| Training.StaleIndexAfterRating | src/features/training/TrainingSession.tsx:95-154 | rating the first of two due reviewed cards leaves a one-card session with index 1, so "no cards" shows while a card is due |
| Training.TrainingKeysLowered | src/features/training/TrainingSession.tsx:162-174 | the shortcut keys, lowered, are 1-7, r, r, enter and space, none with modifier requirements |
| Training.FirstLoweredKey | src/hooks/use-keyboard.ts:19-31 | with no modifier requirements, the first binding whose lowered key matches fires |
| Training.TrainingKeyReaches | src/features/training/TrainingSession.tsx:162-174 | a key reaches the first shortcut with its lowered form |
| Training.FiredBy | src/features/training/TrainingSession.tsx:161-176 | a key press runs a shortcut exactly when some binding matches |
| Training.DigitKeyAnswers | src/features/training/TrainingSession.tsx:163-169 | the digits 1 to 7 answer C, D, E, F, G, A and B |
| Training.DigitKeyReaches | src/features/training/TrainingSession.tsx:163-169 | each digit key reaches its own binding |
| Training.RetryKeys | src/features/training/TrainingSession.tsx:170-171 | both "r" and "R" retry, through the lower-case binding |
| Training.ProceedKeys | src/features/training/TrainingSession.tsx:172-173 | Enter and Space go on |
| Training.SecondRetryBindingNeverFires | src/features/training/TrainingSession.tsx:170-171 | the upper-case "R" binding never fires |
| Training.RatedDeckOk | src/features/training/TrainingSession.tsx:100-134 | rating a batch drawn from a well-formed deck keeps it well formed |
| Training.GradedStoreOk | src/features/training/TrainingSession.tsx:100-143 | grading keeps the deck well formed and correct reviews within all reviews |
| Training.Shuffle | src/features/training/TrainingSession.tsx:32-46 | the result is a permutation of the input |
| Training.ComposeSession | src/features/training/TrainingSession.tsx:32-46 | the session is a permutation of the candidates: the selected clef's cards (infinite mode) or its due cards then its first ten new cards |
| Training.BatchFromDeck | src/features/training/TrainingSession.tsx:48-53 | the cards on screen come from the deck |
| Training.TrainingSession.constructor | src/features/training/TrainingSession.tsx:23-46 | index 0, no feedback, no answers, and a shuffled session composed from the deck |
| Training.TrainingSession.HandleAnswer | src/features/training/TrainingSession.tsx:62-87 | ignored while feedback shows or with no card; single mode judges the letter at once; four-note mode appends the answer and judges the whole batch once every card has one |
| Training.TrainingSession.HandleRetry | src/features/training/TrainingSession.tsx:89-93 | clears feedback, verdict and answers; deck, session and index are untouched |
| Training.TrainingSession.Recompose | src/features/training/TrainingSession.tsx:32-60 | the session is composed again from the current deck, and the answer state is cleared when there is a card at the index |
| Training.TrainingSession.Compose | src/features/training/TrainingSession.tsx:32-46 | the session is a shuffle of the candidates the deck yields now |
| Training.TrainingSession.ClearAnswerOnNewCard | src/features/training/TrainingSession.tsx:55-60 | with a card at the index the answer state is cleared, otherwise kept |
| Training.TrainingSession.HandleRating | src/features/training/TrainingSession.tsx:95-154 | with no card nothing changes; otherwise the batch is reviewed with one rating and replaced by id in the deck, the counters count the batch, the index advances against the old session, feedback is off, and the session is recomposed; the store stays well formed |
| Training.TrainingSession.Rate | src/features/training/TrainingSession.tsx:98-153 | handleRating with a current card: the same new deck, counters, index and feedback, then the recomposed session |
| Training.TrainingSession.Grade | src/features/training/TrainingSession.tsx:98-153 | the deck, the counters, the index advance and the feedback flag of one rating |
| Training.TrainingSession.HandleContinue | src/features/training/TrainingSession.tsx:156-158 | going on means rating "again": the deck, counters, index, feedback and recomposition are those of that rating, and configuration, selected clef and id counter are kept |
| Training.TrainingSession.PressKey | src/features/training/TrainingSession.tsx:160-176 | an unbound key changes nothing; a digit answers only without feedback, leaves the store and session untouched, and in single mode judges the card while in four-note mode appends the answer and judges a full batch; R retries only after a wrong answer, leaves the store untouched, and otherwise changes nothing; Enter or Space after feedback rates good when correct and again otherwise, with the deck, counters, index and feedback of that rating, and changes nothing once the session is past its end |

## Left out

- `getRandomNote` (src/lib/notes.ts:54-57) draws from `Math.random`, and no core operation uses it.
- Persistence: `atomWithStorage`, `loadCards` and `saveCards`, `loadStats` and `saveStats` (JSON and `localStorage`), and `localStorage.clear()` on reset. A first launch is modelled by `AppStore.constructor` with the default counters of `loadStats`.
- `confirm()`: the answer is the `confirmed` parameter of `HandleReset`.
- The language setting, i18next and the translated strings.
- Rendering: the components, StaffNotation (VexFlow), StatsPanel, NoteSelector, the toggle group, App's view switching and the keyboard hint text. The presets file is static data that no core file imports.
- React scheduling. Setters are modelled as taking effect in order within one handler, and memos and effects as running right after it.
- The effect on `currentCard` depends on the card object. The model clears the answer state after every recomposition that leaves a card at the index. Object identity, and a re-render in which the card stays the same, are not modelled.
- Floating point. Ease factors are exact hundredths, so the drift of IEEE arithmetic is not modelled. `AccuracyRate` rounds the exact quotient.
- Calendar arithmetic. `setDate` with daylight-saving shifts and local-time day boundaries are modelled as fixed 86400-second days, and `toDateString()` as the day number.
- `Date.now()`, `new Date()` and the elapsed seconds are parameters (`now`, `timeSpent`).
- Card ids. `nanoid` is modelled as a counter. Only freshness and distinctness of ids are relied on.
- Training.Shuffle: any permutation is allowed. lodash's uniform distribution is not modelled.
- Keyboard.LowerChar: lowers only the ASCII capitals. Full Unicode case mapping is not modelled, and no shortcut key relies on it.
- Every decimal conversion works on unbounded integers: the preview's `parseInt`, the strict parser's `parseInt(match[2], 10)` (src/lib/notes.ts:79-81) and the printing of the octave in `noteToString`. JavaScript numbers lose precision beyond 2^53, and that loss is not modelled.

## Findings

| source | as written | input that shows it | evidently intended | confidence | as-written member | corrected member |
|---|---|---|---|---|---|---|
| src/components/NoteRangePreview.tsx:16-29 | the preview reads a label's first character and `parseInt`s the rest, while the deck builder uses the strict `^([A-G])(\d+)$` parser that falls back to "every note" | treble range "C4" to "G4 " (trailing space): the preview marks and counts 5 notes; a rebuilt deck has all 17 treble notes | the preview marks the notes the deck builder keeps | low, not executed; the selects only offer catalogue labels, so such a label comes from a stored configuration | RangePreview.TrebleTrailingSpaceExample | RangePreview.IntendedPreviewMatchesDeck |
