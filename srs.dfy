/** The SM-2 scheduler of src/lib/srs.ts: how one graded review moves a
    card's ease factor, repetition count, interval and dates, and the due
    and new filters over a deck. Ease factors are integer hundredths, so
    the float deltas -0.8, -0.14, 0 and +0.1 are -80, -14, 0 and +10 and the
    floor 1.3 is 130; dates are whole seconds. */
module Srs {
  import opened Common
  import opened Types

  const DaySeconds: int := 86400

  /** The lowest ease factor, 1.3. */
  const MinEase: int := 130

  /** The ease factor of a fresh card, 2.5. */
  const InitialEase: int := 250

  /** The default `limit` of `getNewCards`. */
  const DefaultNewLimit: int := 20

  /** `RATING_QUALITY_MAP`. */
  function Quality(rating: Rating): (q: int)
    ensures 0 <= q <= 5
    ensures q < 3 <==> rating == Again
  {
    match rating
    case Again => 0
    case Hard => 3
    case Good => 4
    case Easy => 5
  }

  lemma QualityValues()
    ensures Quality(Again) == 0 && Quality(Hard) == 3 && Quality(Good) == 4 && Quality(Easy) == 5
  {
  }

  /** 100 * (0.1 - (5 - q) * (0.08 + (5 - q) * 0.02)), the SM-2 ease change. */
  function EaseDelta(q: int): int {
    10 - (5 - q) * (8 + (5 - q) * 2)
  }

  lemma EaseDeltaPerRating()
    ensures EaseDelta(Quality(Again)) == -80
    ensures EaseDelta(Quality(Hard)) == -14
    ensures EaseDelta(Quality(Good)) == 0
    ensures EaseDelta(Quality(Easy)) == 10
  {
  }

  /** `Math.round(x / 100)`: the nearest integer, halves rounded up. */
  function RoundHundredths(x: int): (r: int)
    ensures 100 * r - 50 <= x < 100 * r + 50
  {
    (x + 50) / 100
  }

  // ----- The update rules, one per field -----

  function NextEase(easeFactor: int, q: int): int {
    Max(MinEase, easeFactor + EaseDelta(q))
  }

  function NextRepetitions(repetitions: int, q: int): int {
    if q < 3 then 0 else repetitions + 1
  }

  /** The interval ladder: 1 after a failure, then 1, 6 and
      round(previous interval * new ease factor). */
  function NextInterval(interval: int, newRepetitions: int, newEase: int, q: int): int {
    if q < 3 then 1
    else if newRepetitions == 1 then 1
    else if newRepetitions == 2 then 6
    else RoundHundredths(interval * newEase)
  }

  function AddDays(t: Timestamp, days: int): Timestamp {
    t + days * DaySeconds
  }

  /** The card after one review at time `now`. */
  function Reviewed(card: Card, result: ReviewResult, now: Timestamp): Card {
    var q := Quality(result.rating);
    var ease := NextEase(card.easeFactor, q);
    var repetitions := NextRepetitions(card.repetitions, q);
    var interval := NextInterval(card.interval, repetitions, ease, q);
    card.(easeFactor := ease, interval := interval, repetitions := repetitions,
          nextReviewDate := AddDays(now, interval), lastReviewDate := Some(now))
  }

  /** `reviewCard`, step by step as the source updates its locals. */
  method ReviewCard(card: Card, result: ReviewResult, now: Timestamp) returns (r: Card)
    ensures r == Reviewed(card, result, now)
  {
    var quality := Quality(result.rating);
    var easeFactor, interval, repetitions := card.easeFactor, card.interval, card.repetitions;
    easeFactor := Max(MinEase, easeFactor + (10 - (5 - quality) * (8 + (5 - quality) * 2)));
    if quality < 3 {
      repetitions := 0;
      interval := 1;
    } else {
      repetitions := repetitions + 1;
      if repetitions == 1 {
        interval := 1;
      } else if repetitions == 2 {
        interval := 6;
      } else {
        interval := RoundHundredths(interval * easeFactor);
      }
    }
    var nextReviewDate := now;
    nextReviewDate := nextReviewDate + interval * DaySeconds;
    r := card.(easeFactor := easeFactor, interval := interval, repetitions := repetitions,
               nextReviewDate := nextReviewDate, lastReviewDate := Some(now));
  }

  // ----- What a review promises -----

  lemma ReviewEaseFloor(card: Card, result: ReviewResult, now: Timestamp)
    ensures Reviewed(card, result, now).easeFactor >= MinEase
    ensures card.easeFactor + EaseDelta(Quality(result.rating)) >= MinEase ==>
      Reviewed(card, result, now).easeFactor == card.easeFactor + EaseDelta(Quality(result.rating))
    ensures card.easeFactor + EaseDelta(Quality(result.rating)) < MinEase ==>
      Reviewed(card, result, now).easeFactor == MinEase
  {
  }

  /** "Again" restarts the schedule whatever the card's history. */
  lemma ReviewAgainRestarts(card: Card, timeSpent: nat, now: Timestamp)
    ensures Reviewed(card, ReviewResult(Again, timeSpent), now).repetitions == 0
    ensures Reviewed(card, ReviewResult(Again, timeSpent), now).interval == 1
    ensures Reviewed(card, ReviewResult(Again, timeSpent), now).easeFactor == Max(MinEase, card.easeFactor - 80)
  {
  }

  /** Any other rating climbs the ladder 1, 6, round(interval * ease). */
  lemma ReviewSuccessLadder(card: Card, result: ReviewResult, now: Timestamp)
    requires result.rating != Again
    ensures var r := Reviewed(card, result, now);
      && r.repetitions == card.repetitions + 1
      && (r.repetitions == 1 ==> r.interval == 1)
      && (r.repetitions == 2 ==> r.interval == 6)
      && (r.repetitions != 1 && r.repetitions != 2 ==>
            100 * r.interval - 50 <= card.interval * r.easeFactor < 100 * r.interval + 50)
  {
  }

  /** A review keeps the card's identity and stamps both dates. */
  lemma ReviewStampsDates(card: Card, result: ReviewResult, now: Timestamp)
    ensures var r := Reviewed(card, result, now);
      && r.id == card.id && r.note == card.note
      && r.lastReviewDate == Some(now)
      && r.nextReviewDate == now + r.interval * DaySeconds
  {
  }

  /** The schedule invariant every card of a deck keeps. */
  ghost predicate CardOk(c: Card) {
    && c.easeFactor >= MinEase
    && c.interval >= 0
    && c.repetitions >= 0
    && (c.repetitions >= 1 ==> c.interval >= 1)
    && (c.repetitions >= 2 ==> c.interval >= 6)
    && (c.lastReviewDate.Some? ==>
          c.interval >= 1 && c.nextReviewDate == AddDays(c.lastReviewDate.value, c.interval))
  }

  /** Reviews preserve the invariant, so in particular the interval of a
      reviewed card is at least one day. */
  lemma ReviewPreservesCardOk(card: Card, result: ReviewResult, now: Timestamp)
    requires CardOk(card)
    ensures CardOk(Reviewed(card, result, now))
    ensures Reviewed(card, result, now).interval >= 1
  {
    var r := Reviewed(card, result, now);
    if result.rating != Again && r.repetitions >= 3 {
      assert card.repetitions >= 2;
      assert card.interval >= 6 && r.easeFactor >= 130;
      assert card.interval * r.easeFactor >= 6 * 130 by {
        assert card.interval * r.easeFactor - 6 * 130
          == (card.interval - 6) * r.easeFactor + 6 * (r.easeFactor - 130);
        assert (card.interval - 6) * r.easeFactor >= 0;
      }
    }
  }

  // ----- Due and new cards -----

  predicate IsDue(card: Card, now: Timestamp) {
    card.nextReviewDate <= now
  }

  function DueAt(now: Timestamp): Card -> bool {
    (c: Card) => IsDue(c, now)
  }

  predicate IsNew(card: Card) {
    card.repetitions == 0
  }

  /** A card just reviewed is not due until its interval has passed. */
  lemma ReviewedNotDue(card: Card, result: ReviewResult, now: Timestamp)
    requires CardOk(card)
    ensures !IsDue(Reviewed(card, result, now), now)
    ensures IsDue(Reviewed(card, result, now), now + Reviewed(card, result, now).interval * DaySeconds)
  {
    ReviewPreservesCardOk(card, result, now);
  }

  /** `getDueCards`: the due cards, in deck order. */
  function GetDueCards(cards: seq<Card>, now: Timestamp): (r: seq<Card>)
    ensures IsSubsequence(r, cards)
    ensures forall c {:trigger c in r} :: c in r <==> c in cards && c.nextReviewDate <= now
  {
    Filter(cards, DueAt(now))
  }

  /** `getNewCards`: the first `limit` cards that have never been passed. */
  function GetNewCards(cards: seq<Card>, limit: int := DefaultNewLimit): (r: seq<Card>)
    ensures limit >= 0 ==> |r| == Min(limit, |Filter(cards, IsNew)|)
    ensures limit >= 0 ==> r == Filter(cards, IsNew)[..|r|]
    ensures forall c :: c in r ==> c in cards && c.repetitions == 0
  {
    var r := Slice(Filter(cards, IsNew), 0, limit);
    assert forall c :: c in r ==> c in Filter(cards, IsNew);
    r
  }

  // ----- The worked example: a fresh card rated good three times, then again -----

  lemma GoodThreeTimesThenAgain(id: CardId, note: Note, t0: Timestamp, t1: Timestamp, t2: Timestamp, t3: Timestamp)
    ensures var c0 := Card(id, note, InitialEase, 0, 0, t0, None);
      var c1 := Reviewed(c0, ReviewResult(Good, 0), t1);
      var c2 := Reviewed(c1, ReviewResult(Good, 0), t2);
      var c3 := Reviewed(c2, ReviewResult(Good, 0), t3);
      var c4 := Reviewed(c0, ReviewResult(Again, 0), t1);
      && c1.easeFactor == 250 && c1.repetitions == 1 && c1.interval == 1
      && c2.easeFactor == 250 && c2.repetitions == 2 && c2.interval == 6
      && c3.repetitions == 3 && c3.interval == 15
      && c4.easeFactor == 170 && c4.repetitions == 0 && c4.interval == 1
  {
  }
}
