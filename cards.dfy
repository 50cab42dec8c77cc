/**
 * The flashcard record shared by both components. Timestamps are integer
 * milliseconds since the epoch instead of ISO-8601 strings.
 */
module Cards {

  /** Milliseconds in one day: the unit of a card's interval. */
  const MsPerDay: int := 86400000

  /**
   * A flashcard. `interval` and `repetitions` are unbounded integers: cards
   * that come in through an import are only type-checked, never range-checked.
   */
  datatype Card = Card(
    id: string,
    front: string,
    back: string,
    nextReview: int,
    interval: int,
    repetitions: int)

  /** The scheduling invariant that every card created or graded by the application keeps. */
  predicate WellFormed(c: Card) {
    c.interval >= 1 && c.repetitions >= 0
  }

  /** The sequence of ids of a collection, in order. */
  function Ids(cards: seq<Card>): (ids: seq<string>)
    ensures |ids| == |cards|
    ensures forall i :: 0 <= i < |cards| ==> ids[i] == cards[i].id
  {
    if cards == [] then [] else [cards[0].id] + Ids(cards[1..])
  }

  /** No two cards of the collection share an id. */
  predicate UniqueIds(cards: seq<Card>) {
    forall i, j :: 0 <= i < j < |cards| ==> cards[i].id != cards[j].id
  }
}
