/**
 * The application component: it owns the authoritative collection and the
 * two input fields of the card creator, and renders the study deck on that
 * collection. Every operation that builds a new collection hands it to the
 * deck, whose reset effect then restarts the session.
 */
module App {
  import opened Wrappers
  import opened Cards
  import opened Scheduler
  import opened Collection
  import opened Session

  class FlashCardApp {
    var cards: seq<Card>
    var frontText: string
    var backText: string
    const deck: StudySession

    /** The deck always studies the application's current collection. */
    ghost predicate Valid()
      reads this, deck
    {
      deck.cards == cards
    }

    /** The application starts on a previously saved collection, with empty input fields. */
    constructor (saved: seq<Card>)
      ensures Valid() && fresh(deck)
      ensures cards == saved && frontText == [] && backText == [] && deck.index == 0
    {
      cards := saved;
      frontText := [];
      backText := [];
      deck := new StudySession(saved);
    }

    /** Installs a new collection; the deck sees a new collection and resets its cursor. */
    method SetCards(newCards: seq<Card>)
      modifies this, deck
      ensures Valid() && cards == newCards && deck.index == 0
      ensures frontText == old(frontText) && backText == old(backText)
    {
      cards := newCards;
      deck.CollectionChanged(newCards);
    }

    /** Typing into the front field of the card creator. */
    method EditFront(text: string)
      modifies this`frontText
      ensures frontText == text
    {
      frontText := text;
    }

    /** Typing into the back field of the card creator. */
    method EditBack(text: string)
      modifies this`backText
      ensures backText == text
    {
      backText := text;
    }

    /**
     * Adds a card from the two input fields under `freshId`, due at `now`,
     * and clears the fields. With either field empty it does nothing.
     */
    method AddCard(freshId: string, now: int)
      requires Valid()
      modifies this, deck
      ensures Valid()
      ensures old(frontText) == [] || old(backText) == [] ==>
        cards == old(cards) && frontText == old(frontText) && backText == old(backText) && deck.index == old(deck.index)
      ensures old(frontText) != [] && old(backText) != [] ==>
        && cards == old(cards) + [NewCard(freshId, old(frontText), old(backText), now)]
        && frontText == [] && backText == [] && deck.index == 0
        && DueCards(cards, now) == DueCards(old(cards), now) + [NewCard(freshId, old(frontText), old(backText), now)]
      ensures UniqueIds(old(cards)) && freshId !in Ids(old(cards)) ==> UniqueIds(cards)
    {
      if frontText == [] || backText == [] {
        return;
      }
      var card := NewCard(freshId, frontText, backText, now);
      AddedCardIsDue(cards, freshId, frontText, backText, now);
      if UniqueIds(cards) && freshId !in Ids(cards) {
        AddKeepsIdsUnique(cards, card);
      }
      SetCards(cards + [card]);
      frontText := [];
      backText := [];
    }

    /** Writes a graded card back: every card with its id is replaced, in a new collection. */
    method UpdateCard(updated: Card)
      requires Valid()
      modifies this, deck
      ensures Valid()
      ensures cards == ReplaceById(old(cards), updated) && Ids(cards) == Ids(old(cards))
      ensures deck.index == 0
      ensures frontText == old(frontText) && backText == old(backText)
    {
      ReplaceByIdKeepsIds(cards, updated);
      SetCards(ReplaceById(cards, updated));
    }

    /** Once confirmed, wipes the learning progress of every card, making all of them due at `now`. */
    method ResetProgress(confirmed: bool, now: int)
      requires Valid()
      modifies this, deck
      ensures Valid()
      ensures !confirmed ==> cards == old(cards) && deck.index == old(deck.index)
      ensures confirmed ==>
        && cards == ResetAll(old(cards), now) && deck.index == 0
        && DueCards(cards, now) == cards
      ensures frontText == old(frontText) && backText == old(backText)
    {
      if !confirmed {
        return;
      }
      ResetMakesAllDue(cards, now);
      SetCards(ResetAll(cards, now));
    }

    /** Once confirmed, empties the collection. */
    method RemoveAllCards(confirmed: bool)
      requires Valid()
      modifies this, deck
      ensures Valid()
      ensures !confirmed ==> cards == old(cards) && deck.index == old(deck.index)
      ensures confirmed ==> cards == [] && deck.index == 0
      ensures frontText == old(frontText) && backText == old(backText)
    {
      if !confirmed {
        return;
      }
      SetCards([]);
    }

    /**
     * Imports a parsed file: a JSON array of valid cards replaces the whole
     * collection once the user confirms; anything else leaves it as it is.
     */
    method Import(file: ImportFile, confirmed: bool) returns (outcome: ImportOutcome)
      requires Valid()
      modifies this, deck
      ensures Valid()
      ensures (cards, outcome) == ImportResult(old(cards), file, confirmed)
      ensures !outcome.Imported? ==> deck.index == old(deck.index)
      ensures outcome.Imported? ==> deck.index == 0
      ensures frontText == old(frontText) && backText == old(backText)
    {
      if !file.Records? || !(forall i :: 0 <= i < |file.records| ==> IsValidCard(file.records[i])) {
        return InvalidFormat;
      }
      if !confirmed {
        return Declined;
      }
      SetCards(CardsOf(file.records));
      outcome := Imported(|file.records|);
    }

    /** A render at `now`: the deck's safety effect keeps its cursor inside a non-empty due list. */
    method Render(now: int)
      requires Valid()
      modifies deck
      ensures Valid()
      ensures deck.index == ClampedIndex(old(deck.index), |DueCards(cards, now)|)
      ensures DueCards(cards, now) != [] ==> CurrentCard(cards, deck.index, now).Some?
    {
      deck.Clamp(now);
    }

    /**
     * An answer submitted to the deck at `now`. With no current card or a
     * blank answer nothing happens. Otherwise the current card is graded and
     * written back, and because the collection is then a new one, the deck's
     * cursor ends at 0 whatever the advance computed. A card that was well
     * formed is rescheduled past `now`, so it is not presented again in this pass.
     */
    method Submit(answer: string, now: int) returns (graded: Option<bool>)
      requires Valid()
      modifies this, deck
      ensures Valid()
      ensures var current := CurrentCard(old(cards), old(deck.index), now);
        if current.None? || IsBlank(answer) then
          graded.None? && cards == old(cards) && deck.index == old(deck.index)
        else
          && graded == Some(IsCorrect(answer, current.value.back))
          && cards == ReplaceById(old(cards), Rescheduled(current.value, graded.value, now))
          && deck.index == 0
      ensures var current := CurrentCard(old(cards), old(deck.index), now);
        current.Some? && !IsBlank(answer) && current.value.interval >= 1 ==>
          forall i :: 0 <= i < |DueCards(cards, now)| ==> DueCards(cards, now)[i].id != current.value.id
      ensures frontText == old(frontText) && backText == old(backText)
    {
      var updated, correct := deck.Submit(answer, now);
      if updated.None? {
        return None;
      }
      if !IsDue(updated.value, now) {
        GradedCardLeavesDueList(cards, updated.value, now);
      }
      UpdateCard(updated.value);
      graded := Some(correct);
    }
  }
}
