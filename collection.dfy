/**
 * The card-collection operations of the application: each builds a new
 * sequence of cards from the current one.
 */
module Collection {
  import opened Cards

  /** A card just created from the input fields: immediately due, one-day interval, no repetitions. */
  function NewCard(id: string, front: string, back: string, now: int): (c: Card)
    ensures c.id == id && c.front == front && c.back == back
    ensures c.nextReview == now && c.interval == 1 && c.repetitions == 0
    ensures WellFormed(c)
  {
    Card(id, front, back, now, 1, 0)
  }

  /** Every card whose id is that of `updated` becomes `updated`; every other card stays. */
  function ReplaceById(cards: seq<Card>, updated: Card): (r: seq<Card>)
    ensures |r| == |cards|
    ensures forall i :: 0 <= i < |cards| && cards[i].id == updated.id ==> r[i] == updated
    ensures forall i :: 0 <= i < |cards| && cards[i].id != updated.id ==> r[i] == cards[i]
  {
    if cards == [] then []
    else [if cards[0].id == updated.id then updated else cards[0]] + ReplaceById(cards[1..], updated)
  }

  lemma ReplaceByIdAppend(a: seq<Card>, b: seq<Card>, updated: Card)
    ensures ReplaceById(a + b, updated) == ReplaceById(a, updated) + ReplaceById(b, updated)
  {
  }

  /** Replacing by id never changes the sequence of ids. */
  lemma ReplaceByIdKeepsIds(cards: seq<Card>, updated: Card)
    ensures Ids(ReplaceById(cards, updated)) == Ids(cards)
  {
  }

  /** An update whose id is absent from the collection changes nothing. */
  lemma ReplaceByIdAbsent(cards: seq<Card>, updated: Card)
    requires updated.id !in Ids(cards)
    ensures ReplaceById(cards, updated) == cards
  {
  }

  /** Writing the same update twice is writing it once. */
  lemma ReplaceByIdIdempotent(cards: seq<Card>, updated: Card)
    ensures ReplaceById(ReplaceById(cards, updated), updated) == ReplaceById(cards, updated)
  {
  }

  /** A card with its learning progress wiped: due at `now`, one-day interval, no repetitions. */
  function ResetCard(c: Card, now: int): (r: Card)
    ensures r.id == c.id && r.front == c.front && r.back == c.back
    ensures r.nextReview == now && r.interval == 1 && r.repetitions == 0
    ensures WellFormed(r)
  {
    c.(nextReview := now, interval := 1, repetitions := 0)
  }

  /** Every card reset, the order and the texts kept. */
  function ResetAll(cards: seq<Card>, now: int): (r: seq<Card>)
    ensures |r| == |cards|
    ensures forall i :: 0 <= i < |cards| ==> r[i] == ResetCard(cards[i], now)
  {
    if cards == [] then [] else [ResetCard(cards[0], now)] + ResetAll(cards[1..], now)
  }

  /**
   * After a reset the ids are those of before, and every card is due at
   * `now` with a one-day interval and no repetitions.
   */
  lemma ResetAllProperties(cards: seq<Card>, now: int)
    ensures Ids(ResetAll(cards, now)) == Ids(cards)
    ensures forall c :: c in ResetAll(cards, now) ==>
      c.nextReview == now && c.interval == 1 && c.repetitions == 0 && WellFormed(c)
  {
  }

  /** Adding a card under an id not yet in use keeps the ids unique. */
  lemma AddKeepsIdsUnique(cards: seq<Card>, c: Card)
    requires UniqueIds(cards)
    requires c.id !in Ids(cards)
    ensures UniqueIds(cards + [c])
  {
  }

  /**
   * One element of an imported file, after JSON parsing: either a record
   * whose six fields all have the card's types, or anything else.
   */
  datatype ParsedRecord = WellTyped(card: Card) | IllTyped

  /** What reading an import file yields. */
  datatype ImportFile =
    | Unreadable                            // the text is not JSON
    | NotAnArray                            // JSON, but not an array
    | Records(records: seq<ParsedRecord>)   // a JSON array

  /** The outcome an import reports. */
  datatype ImportOutcome = Imported(count: nat) | Declined | InvalidFormat

  /** The field-type check every imported element must pass. */
  predicate IsValidCard(r: ParsedRecord) {
    r.WellTyped?
  }

  /** The cards of an array of valid records, in order. */
  function CardsOf(records: seq<ParsedRecord>): (cards: seq<Card>)
    requires forall i :: 0 <= i < |records| ==> IsValidCard(records[i])
    ensures |cards| == |records|
    ensures forall i :: 0 <= i < |records| ==> records[i] == WellTyped(cards[i])
  {
    if records == [] then []
    else assert IsValidCard(records[0]); [records[0].card] + CardsOf(records[1..])
  }

  /** The file is a JSON array all of whose elements are valid cards. */
  predicate IsValidImport(file: ImportFile): (valid: bool)
    ensures valid ==> file.Records?
    ensures file == Records([]) ==> valid
  {
    file.Records? && forall i :: 0 <= i < |file.records| ==> IsValidCard(file.records[i])
  }

  /**
   * The collection after an import: the imported cards when the file is
   * valid and the user confirms, otherwise the current collection.
   */
  function ImportResult(current: seq<Card>, file: ImportFile, confirmed: bool): (r: (seq<Card>, ImportOutcome))
    ensures r.1.Imported? <==> IsValidImport(file) && confirmed
    ensures r.1.Imported? ==> r.0 == CardsOf(file.records) && r.1.count == |file.records|
    ensures !r.1.Imported? ==> r.0 == current
    ensures r.1 == InvalidFormat <==> !IsValidImport(file)
  {
    if !IsValidImport(file) then (current, InvalidFormat)
    else if !confirmed then (current, Declined)
    else (CardsOf(file.records), Imported(|file.records|))
  }

  /** Every valid file can be imported, and importing it keeps every record's card, in order. */
  lemma ImportKeepsRecords(current: seq<Card>, cards: seq<Card>)
    ensures var file := Records(seq(|cards|, i requires 0 <= i < |cards| => WellTyped(cards[i])));
      IsValidImport(file) && ImportResult(current, file, true).0 == cards
  {
  }
}
