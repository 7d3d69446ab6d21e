/**
 * The spaced-repetition flashcard deck (components/student/flashcard-deck.tsx).
 * A card carries a mastery level from 1 to 5; rating a card moves the level
 * one step, schedules the next review a level-dependent number of days
 * ahead, awards XP on success and moves to the next card. The deck itself
 * is never reordered or shrunk.
 */
module Flashcards {
  import opened Wrappers
  import opened Text

  datatype Card = Card(id: string, question: string, answer: string, explanation: string,
                       level: int, subject: string)

  /** The deck as the component holds it: the cards, the position and the flip side. */
  datatype Deck = Deck(cards: seq<Card>, index: int, flipped: bool)

  /** A request the component sends while rating a card. */
  datatype Request =
    | UpdateCard(cardId: string, level: int, reviewInDays: nat)
    | AwardXp(amount: int, activity: string, description: string)

  datatype Rated = Rated(deck: Deck, requests: seq<Request>)

  const MinLevel: int := 1
  const MaxLevel: int := 5

  /** Days until the next review, indexed by the new level. */
  const ReviewIntervals: seq<nat> := [0, 1, 3, 7, 14, 30]

  /** XP awarded for recalling a card. */
  const MasteryXp: int := 10

  /** The level after a rating: one up on success (at most 5), one down on failure (at least 1). */
  function NextLevel(level: int, success: bool): (r: int)
    ensures success ==> r <= MaxLevel && (level < MaxLevel ==> r == level + 1)
    ensures !success ==> r >= MinLevel && (level > MinLevel ==> r == level - 1)
  {
    if success then (if level + 1 < MaxLevel then level + 1 else MaxLevel)
    else (if level - 1 > MinLevel then level - 1 else MinLevel)
  }

  /** Ratings keep a level inside 1..5 and move it by at most one step. */
  lemma NextLevelInRange(level: int, success: bool)
    requires MinLevel <= level <= MaxLevel
    ensures MinLevel <= NextLevel(level, success) <= MaxLevel
    ensures success ==> level <= NextLevel(level, success) <= level + 1
    ensures !success ==> level - 1 <= NextLevel(level, success) <= level
  {
  }

  /** A failure undoes a success that did not hit the ceiling, and vice versa. */
  lemma NextLevelInverse(level: int)
    requires MinLevel <= level < MaxLevel
    ensures NextLevel(NextLevel(level, true), false) == level
    ensures NextLevel(NextLevel(level + 1, false), true) == level + 1
  {
  }

  /**
   * Days until the next review for a new level; an out-of-range level reads
   * `undefined` from the table, which makes the date invalid (`None`).
   */
  function ReviewDelayDays(newLevel: int): (r: Option<nat>)
    ensures r.Some? <==> 0 <= newLevel < |ReviewIntervals|
    ensures r.Some? ==> r.value == ReviewIntervals[newLevel]
  {
    if 0 <= newLevel < |ReviewIntervals| then Some(ReviewIntervals[newLevel]) else None
  }

  /** Higher levels wait strictly longer before the next review. */
  lemma ReviewDelayIncreasing(a: int, b: int)
    requires MinLevel <= a < b <= MaxLevel
    ensures ReviewDelayDays(a).Some? && ReviewDelayDays(b).Some?
    ensures ReviewDelayDays(a).value < ReviewDelayDays(b).value
  {
  }

  /** A deck position is valid: on a card, or 0 for an empty deck. */
  predicate ValidDeck(d: Deck) {
    if |d.cards| == 0 then d.index == 0 else 0 <= d.index < |d.cards|
  }

  /** The deck the component starts with. */
  function InitialDeck(cards: seq<Card>): (d: Deck)
    ensures ValidDeck(d) && d.cards == cards && !d.flipped
  {
    Deck(cards, 0, false)
  }

  /** After a successful rating: show the front and step forward unless on the last card. */
  function Advance(d: Deck): (r: Deck)
    ensures r.cards == d.cards && !r.flipped
    ensures 0 <= d.index < |d.cards| ==> 0 <= r.index < |r.cards|
    ensures 0 <= d.index ==> r == Next(d).(flipped := false)
  {
    d.(flipped := false, index := if d.index < |d.cards| - 1 then d.index + 1 else d.index)
  }

  /**
   * `handleLevelUp(success)`. `patchDelivered` and `xpDelivered` say whether
   * each `fetch` resolved (a rejected fetch is caught, and the deck then
   * stays where it is); the HTTP status is not inspected by the component.
   * Without a current card nothing happens. A new level outside the table
   * makes the review date invalid, and `toISOString` then throws before the
   * PATCH is sent: nothing is sent and the deck stays.
   */
  function Rate(d: Deck, success: bool, patchDelivered: bool, xpDelivered: bool): (r: Rated)
    ensures r.deck.cards == d.cards
    ensures r.deck == d || r.deck == Advance(d)
    ensures (exists k :: 0 <= k < |r.requests| && r.requests[k].AwardXp?) ==> success
    ensures !(0 <= d.index < |d.cards|) ==> r == Rated(d, [])
    ensures 0 <= d.index < |d.cards| && ReviewDelayDays(NextLevel(d.cards[d.index].level, success)).None?
            ==> r == Rated(d, [])
    ensures !patchDelivered || (success && !xpDelivered) ==> r.deck == d
    ensures (0 <= d.index < |d.cards| && ReviewDelayDays(NextLevel(d.cards[d.index].level, success)).Some?
             && patchDelivered && (!success || xpDelivered)) ==> r.deck == Advance(d)
  {
    if !(0 <= d.index < |d.cards|) then Rated(d, [])
    else
      var card := d.cards[d.index];
      var level := NextLevel(card.level, success);
      match ReviewDelayDays(level)
      case None => Rated(d, [])
      case Some(days) =>
        var patch := [UpdateCard(card.id, level, days)];
        if !patchDelivered then Rated(d, patch)
        else if success then
          var xp := AwardXp(MasteryXp, "flashcard_mastery",
                            "Mastered card: " + Take(card.question, 20) + "...");
          if xpDelivered then Rated(Advance(d), patch + [xp]) else Rated(d, patch + [xp])
        else Rated(Advance(d), patch)
  }

  /** Rating a card of valid level sends its update and awards XP exactly on success. */
  lemma RateRequests(d: Deck, success: bool, xpDelivered: bool)
    requires ValidDeck(d) && |d.cards| > 0
    requires MinLevel <= d.cards[d.index].level <= MaxLevel
    ensures var r := Rate(d, success, true, xpDelivered);
            var card := d.cards[d.index];
            var level := NextLevel(card.level, success);
            |r.requests| >= 1
            && r.requests[0] == UpdateCard(card.id, level, ReviewIntervals[level])
            && (|r.requests| == 2 <==> success)
            && (success ==> r.requests[1].AwardXp? && r.requests[1].amount == MasteryXp)
  {
    NextLevelInRange(d.cards[d.index].level, success);
  }

  /** When every request goes through, the deck moves to the next card, front side up. */
  lemma RateAdvances(d: Deck, success: bool)
    requires ValidDeck(d) && |d.cards| > 0
    requires MinLevel <= d.cards[d.index].level <= MaxLevel
    ensures var r := Rate(d, success, true, true);
            !r.deck.flipped
            && r.deck.index == (if d.index < |d.cards| - 1 then d.index + 1 else d.index)
  {
    NextLevelInRange(d.cards[d.index].level, success);
  }

  /** Clicking the card turns it over. */
  function Flip(d: Deck): (r: Deck)
    ensures r.cards == d.cards && r.index == d.index && r.flipped == !d.flipped
  {
    d.(flipped := !d.flipped)
  }

  /** The previous-card button; it is disabled on the first card and absent on an empty deck. */
  function Previous(d: Deck): (r: Deck)
    ensures r.cards == d.cards
    ensures 0 < d.index < |d.cards| ==> r.index == d.index - 1 && !r.flipped
    ensures !(0 < d.index < |d.cards|) ==> r == d
  {
    if 0 < d.index < |d.cards| then d.(index := d.index - 1, flipped := false) else d
  }

  /** The next-card button; it is disabled on the last card and absent on an empty deck. */
  function Next(d: Deck): (r: Deck)
    ensures r.cards == d.cards
    ensures 0 <= d.index < |d.cards| - 1 ==> r.index == d.index + 1 && !r.flipped
    ensures !(0 <= d.index < |d.cards| - 1) ==> r == d
  {
    if 0 <= d.index < |d.cards| - 1 then d.(index := d.index + 1, flipped := false) else d
  }

  /** Every action keeps the position on a card. */
  lemma ActionsKeepDeckValid(d: Deck, success: bool, patchDelivered: bool, xpDelivered: bool)
    requires ValidDeck(d)
    ensures ValidDeck(Rate(d, success, patchDelivered, xpDelivered).deck)
    ensures ValidDeck(Flip(d)) && ValidDeck(Previous(d)) && ValidDeck(Next(d))
  {
  }

  /** Rating cards one after another walks through the deck and stops on the last card. */
  lemma {:induction false} RatingWalksDeck(d: Deck, n: nat)
    requires ValidDeck(d) && |d.cards| > 0
    requires forall k :: 0 <= k < |d.cards| ==> MinLevel <= d.cards[k].level <= MaxLevel
    ensures RateTimes(d, n).index == if d.index + n < |d.cards| then d.index + n else |d.cards| - 1
    ensures RateTimes(d, n).cards == d.cards
    decreases n
  {
    if n > 0 {
      NextLevelInRange(d.cards[d.index].level, true);
      RatingWalksDeck(Rate(d, true, true, true).deck, n - 1);
    }
  }

  /** `n` successful ratings in a row, every request delivered. */
  function RateTimes(d: Deck, n: nat): Deck
    decreases n
  {
    if n == 0 then d else RateTimes(Rate(d, true, true, true).deck, n - 1)
  }
}
