/**
 * The study session: which cards are due, which one is presented, and how
 * the cursor moves when a card is graded, when the due list shrinks and when
 * the collection is replaced.
 */
module Session {
  import opened Wrappers
  import opened Text
  import opened Cards
  import opened Scheduler
  import opened Collection

  /** A card is due once its review instant has come. */
  predicate IsDue(c: Card, now: int) {
    c.nextReview <= now
  }

  /** The due cards, in collection order (a stable filter). */
  function DueCards(cards: seq<Card>, now: int): (due: seq<Card>)
    ensures |due| <= |cards|
    ensures forall i :: 0 <= i < |due| ==> IsDue(due[i], now)
  {
    if cards == [] then []
    else (if IsDue(cards[0], now) then [cards[0]] else []) + DueCards(cards[1..], now)
  }

  /**
   * The due list holds exactly the due cards of the collection; it is empty
   * exactly when no card is due.
   */
  lemma {:induction false} DueCardsMembers(cards: seq<Card>, now: int)
    ensures forall c :: c in DueCards(cards, now) <==> c in cards && IsDue(c, now)
    ensures DueCards(cards, now) == [] <==> forall c :: c in cards ==> !IsDue(c, now)
  {
    if cards != [] {
      DueCardsMembers(cards[1..], now);
      assert cards == [cards[0]] + cards[1..];
    }
  }

  /**
   * The filter commutes with concatenation. With the one-card case this
   * determines DueCards completely: it keeps exactly the due cards, in order.
   */
  lemma {:induction false} DueCardsAppend(a: seq<Card>, b: seq<Card>, now: int)
    ensures DueCards(a + b, now) == DueCards(a, now) + DueCards(b, now)
  {
    if a != [] {
      var head := if IsDue(a[0], now) then [a[0]] else [];
      assert (a + b)[0] == a[0];
      assert (a + b)[1..] == a[1..] + b;
      DueCardsAppend(a[1..], b, now);
      calc {
        DueCards(a + b, now);
        head + DueCards(a[1..] + b, now);
        head + (DueCards(a[1..], now) + DueCards(b, now));
        (head + DueCards(a[1..], now)) + DueCards(b, now);
      }
    } else {
      assert a + b == b;
    }
  }

  /** Filtering the due list again keeps all of it. */
  lemma {:induction false} DueCardsIdempotent(cards: seq<Card>, now: int)
    ensures DueCards(DueCards(cards, now), now) == DueCards(cards, now)
  {
    if cards != [] {
      var head := if IsDue(cards[0], now) then [cards[0]] else [];
      DueCardsIdempotent(cards[1..], now);
      DueCardsAppend(head, DueCards(cards[1..], now), now);
    }
  }

  /** A card added at `now` is due at once, behind the cards that were already due. */
  lemma AddedCardIsDue(cards: seq<Card>, id: string, front: string, back: string, now: int)
    ensures DueCards(cards + [NewCard(id, front, back, now)], now) == DueCards(cards, now) + [NewCard(id, front, back, now)]
  {
    DueCardsAppend(cards, [NewCard(id, front, back, now)], now);
  }

  /** After a reset of all progress at `now`, every card is due. */
  lemma {:induction false} ResetMakesAllDue(cards: seq<Card>, now: int)
    ensures DueCards(ResetAll(cards, now), now) == ResetAll(cards, now)
  {
    if cards != [] {
      ResetMakesAllDue(cards[1..], now);
      assert ResetAll(cards, now)[1..] == ResetAll(cards[1..], now);
    }
  }

  /** The card the session presents: the due card at the cursor, if the cursor is in range. */
  function CurrentCard(cards: seq<Card>, index: nat, now: int): (current: Option<Card>)
    ensures current.Some? <==> index < |DueCards(cards, now)|
    ensures current.Some? ==> current.value == DueCards(cards, now)[index]
    ensures current.Some? ==> current.value in cards && IsDue(current.value, now)
  {
    var due := DueCards(cards, now);
    DueCardsMembers(cards, now);
    if index < |due| then Some(due[index]) else None
  }

  /**
   * The due list the submit handler recomputes before moving the cursor: the
   * old collection, each card judged due or not as if the graded card had
   * already been written back.
   */
  function NewDueCards(cards: seq<Card>, updated: Card, now: int): (due: seq<Card>)
    ensures |due| <= |cards|
    ensures forall c :: c in due ==> c in cards
  {
    if cards == [] then []
    else
      var keep := if cards[0].id == updated.id then IsDue(updated, now) else IsDue(cards[0], now);
      (if keep then [cards[0]] else []) + NewDueCards(cards[1..], updated, now)
  }

  /**
   * The handler's recomputed list is, once the graded card is substituted,
   * the due list of the updated collection; in particular it has the same length.
   */
  lemma {:induction false} NewDueCardsMatchUpdatedCollection(cards: seq<Card>, updated: Card, now: int)
    ensures ReplaceById(NewDueCards(cards, updated, now), updated) == DueCards(ReplaceById(cards, updated), now)
    ensures |NewDueCards(cards, updated, now)| == |DueCards(ReplaceById(cards, updated), now)|
  {
    if cards != [] {
      var c := cards[0];
      var keep := if c.id == updated.id then IsDue(updated, now) else IsDue(c, now);
      var head: seq<Card> := if keep then [c] else [];
      NewDueCardsMatchUpdatedCollection(cards[1..], updated, now);
      ReplaceByIdAppend(head, NewDueCards(cards[1..], updated, now), updated);
      assert ReplaceById(cards, updated)[1..] == ReplaceById(cards[1..], updated);
    }
  }

  /** The cards of a sequence whose id differs from `id`, in order. */
  function WithoutId(cards: seq<Card>, id: string): (r: seq<Card>)
    ensures |r| <= |cards|
    ensures forall i :: 0 <= i < |r| ==> r[i].id != id
  {
    if cards == [] then []
    else (if cards[0].id == id then [] else [cards[0]]) + WithoutId(cards[1..], id)
  }

  /**
   * Once the graded card is written back with a review instant after `now`,
   * it leaves the due list, and the other due cards keep their order.
   */
  lemma {:induction false} GradedCardLeavesDueList(cards: seq<Card>, updated: Card, now: int)
    requires !IsDue(updated, now)
    ensures DueCards(ReplaceById(cards, updated), now) == WithoutId(DueCards(cards, now), updated.id)
  {
    if cards != [] {
      GradedCardLeavesDueList(cards[1..], updated, now);
      var c := cards[0];
      var rest := DueCards(cards[1..], now);
      assert ReplaceById(cards, updated)[1..] == ReplaceById(cards[1..], updated);
      var r := if c.id == updated.id then updated else c;
      assert ReplaceById(cards, updated) == [r] + ReplaceById(cards[1..], updated);
      if IsDue(c, now) {
        assert DueCards(cards, now) == [c] + rest;
        assert ([c] + rest)[1..] == rest;
        assert WithoutId([c] + rest, updated.id) == (if c.id == updated.id then [] else [c]) + WithoutId(rest, updated.id);
      } else {
        assert DueCards(cards, now) == rest;
      }
    }
  }

  /** The due list of a collection with unique ids has unique ids. */
  lemma {:induction false} DueCardsKeepIdsUnique(cards: seq<Card>, now: int)
    requires UniqueIds(cards)
    ensures UniqueIds(DueCards(cards, now))
  {
    if cards != [] {
      DueCardsKeepIdsUnique(cards[1..], now);
      var rest := DueCards(cards[1..], now);
      if IsDue(cards[0], now) {
        forall j | 0 <= j < |rest| ensures cards[0].id != rest[j].id {
          DueCardsMembers(cards[1..], now);
          assert rest[j] in cards[1..];
        }
        assert DueCards(cards, now) == [cards[0]] + rest;
      }
    }
  }

  /** In a sequence with unique ids, removing the id of position i removes exactly that position. */
  lemma {:induction false} WithoutIdRemovesOne(cards: seq<Card>, i: nat)
    requires UniqueIds(cards) && i < |cards|
    ensures WithoutId(cards, cards[i].id) == cards[..i] + cards[i + 1..]
  {
    if i == 0 {
      assert WithoutId(cards[1..], cards[0].id) == cards[1..] by {
        WithoutIdAbsent(cards[1..], cards[0].id);
      }
    } else {
      WithoutIdRemovesOne(cards[1..], i - 1);
      assert cards[1..][..i - 1] == cards[1..i];
      assert cards[..i] == [cards[0]] + cards[1..i];
    }
  }

  lemma {:induction false} WithoutIdAbsent(cards: seq<Card>, id: string)
    requires forall j :: 0 <= j < |cards| ==> cards[j].id != id
    ensures WithoutId(cards, id) == cards
  {
    if cards != [] {
      WithoutIdAbsent(cards[1..], id);
    }
  }

  /** The cursor after a grade: one further, or back to the start past the end of the recomputed due list. */
  function AdvancedIndex(index: nat, dueCount: nat): (next: nat)
    ensures dueCount > 0 ==> next < dueCount
    ensures next == index + 1 || next == 0
    ensures next == 0 <==> index + 1 >= dueCount
  {
    if index + 1 >= dueCount then 0 else index + 1
  }

  /** The safety rule: with a non-empty due list, a cursor past its end goes back to 0. */
  function ClampedIndex(index: nat, dueCount: nat): (r: nat)
    ensures dueCount > 0 ==> r < dueCount
    ensures dueCount > 0 && index >= dueCount ==> r == 0
    ensures dueCount == 0 || index < dueCount ==> r == index
  {
    if dueCount == 0 then index
    else if index >= dueCount then 0
    else index
  }

  /**
   * The wrap-around example: with three due cards, grading at 2 moves the
   * cursor to 0, not 3, whether the graded card stays due (3 recomputed) or
   * leaves (2 recomputed).
   */
  lemma WrapExample()
    ensures AdvancedIndex(2, 3) == 0
    ensures AdvancedIndex(2, 2) == 0
    ensures AdvancedIndex(0, 3) == 1
  {
  }

  /**
   * What the cursor advance alone would do: the graded card drops out of the
   * due list, its successor slides into its position, and the advanced
   * cursor points one card further on, so the successor would be skipped.
   * The application never shows this, because the collection change that
   * follows every grade resets the cursor to 0 (see App.FlashCardApp.Submit).
   */
  lemma AdvanceAloneSkipsSuccessor(cards: seq<Card>, i: nat, updated: Card, now: int)
    requires UniqueIds(cards)
    requires i + 2 < |DueCards(cards, now)|
    requires updated.id == DueCards(cards, now)[i].id
    requires !IsDue(updated, now)
    ensures AdvancedIndex(i, |NewDueCards(cards, updated, now)|) == i + 1
    ensures CurrentCard(ReplaceById(cards, updated), i, now) == Some(DueCards(cards, now)[i + 1])
    ensures CurrentCard(ReplaceById(cards, updated), i + 1, now) == Some(DueCards(cards, now)[i + 2])
  {
    var due := DueCards(cards, now);
    NewDueCardsMatchUpdatedCollection(cards, updated, now);
    GradedCardLeavesDueList(cards, updated, now);
    DueCardsKeepIdsUnique(cards, now);
    WithoutIdRemovesOne(due, i);
    var after := DueCards(ReplaceById(cards, updated), now);
    assert after == due[..i] + due[i + 1..];
    assert after[i] == due[i + 1];
    assert after[i + 1] == due[i + 2];
  }

  /**
   * The study deck's state: the collection it was given and the cursor into
   * that collection's due list.
   */
  class StudySession {
    var cards: seq<Card>
    var index: nat

    /** The deck mounts on a collection with the cursor at 0. */
    constructor (cards: seq<Card>)
      ensures this.cards == cards && index == 0
    {
      this.cards := cards;
      index := 0;
    }

    /** The reset effect: a new collection restarts the session at 0. */
    method CollectionChanged(newCards: seq<Card>)
      modifies this
      ensures cards == newCards && index == 0
    {
      cards := newCards;
      index := 0;
    }

    /** The safety effect: with cards due, a cursor past the end of the due list goes back to 0. */
    method Clamp(now: int)
      modifies this`index
      ensures index == ClampedIndex(old(index), |DueCards(cards, now)|)
      ensures DueCards(cards, now) != [] ==> CurrentCard(cards, index, now).Some?
    {
      var due := DueCards(cards, now);
      if |due| == 0 {
        return;
      }
      if index >= |due| {
        index := 0;
      }
    }

    /**
     * The submit handler. Without a current card or with a blank answer it
     * does nothing. Otherwise it grades the current card, hands the updated
     * card back (for the collection to write it), and advances the cursor
     * against the due list recomputed with the updated card.
     */
    method Submit(answer: string, now: int) returns (updated: Option<Card>, correct: bool)
      modifies this`index
      ensures var current := CurrentCard(cards, old(index), now);
        if current.None? || IsBlank(answer) then
          updated.None? && index == old(index)
        else
          && correct == IsCorrect(answer, current.value.back)
          && updated == Some(Rescheduled(current.value, correct, now))
          && index == AdvancedIndex(old(index), |NewDueCards(cards, updated.value, now)|)
    {
      var due := DueCards(cards, now);
      if index >= |due| || IsBlank(answer) {
        updated, correct := None, false;
        return;
      }
      var card := due[index];
      var graded;
      graded, correct := GradeCard(card, answer, now);
      updated := Some(graded);
      var newDue := NewDueCards(cards, graded, now);
      index := AdvancedIndex(index, |newDue|);
    }
  }
}
