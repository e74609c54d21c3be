/** The graveyard (bot/lib/graveyard.py): the cards put there, oldest first. */
module Graveyards {
  import opened Common
  import opened Util

  class Graveyard {
    var cards: seq<string>

    constructor ()
      ensures cards == []
    {
      cards := [];
    }

    /** `insert`: the card goes on the end. */
    method Insert(card: string)
      modifies this
      ensures cards == old(cards) + [card]
    {
      cards := cards + [card];
    }

    /** `flashback` as intended: take out the first card equal to the name ignoring case (quotes
        are compared as they are) and return the graveyard's spelling. No capability is checked:
        any card that is present can be taken. */
    method Flashback(card: string) returns (r: Result<string>)
      modifies this
      ensures r.Err? <==> forall k :: 0 <= k < |old(cards)| ==> !SameIgnoringCase(old(cards)[k], card)
      ensures r.Err? ==> r.error == NotInGraveyard(card) && cards == old(cards)
      ensures r.Ok? ==> var i := FindCardIndex(card, old(cards));
        0 <= i && r.value == old(cards)[i] && cards == RemoveAt(old(cards), i)
      ensures r.Ok? ==> SameIgnoringCase(r.value, card)
      ensures r.Ok? ==> multiset(cards) + multiset{r.value} == multiset(old(cards))
    {
      var i := FindCardIndex(card, cards);
      if i == -1 {
        return Err(NotInGraveyard(card));
      }
      r := Ok(cards[i]);
      cards := RemoveAt(cards, i);
    }
  }

  /** A card just put in the graveyard can be flashed back; when no older card matches it,
      the graveyard is as before and the card itself comes back. */
  method InsertThenFlashback(g: Graveyard, card: string) returns (r: Result<string>)
    modifies g
    ensures r.Ok? && SameIgnoringCase(r.value, card)
    ensures FindCardIndex(card, old(g.cards)) == -1 ==> r == Ok(card) && g.cards == old(g.cards)
  {
    g.Insert(card);
    ghost var full := g.cards;
    assert full == old(g.cards) + [card];
    assert SameIgnoringCase(full[|full| - 1], card);
    r := g.Flashback(card);
    if FindCardIndex(card, old(g.cards)) == -1 {
      assert forall k :: 0 <= k < |full| - 1 ==> full[k] == old(g.cards)[k];
      assert FindCardIndex(card, full) == |full| - 1;
      assert RemoveAt(full, |full| - 1) == old(g.cards);
    }
  }

  /** `flashback` as written: line 17 passes the whole list of matching positions to `pop`,
      which raises a TypeError, so no flashback ever succeeds. */
  function FlashbackAsWritten(cards: seq<string>, card: string): (r: Result<string>)
    ensures r == Err(NotInGraveyard(card)) || r == Err(TypeMismatch)
    ensures r == Err(NotInGraveyard(card)) <==> forall k :: 0 <= k < |cards| ==> !SameIgnoringCase(cards[k], card)
  {
    if FindCardIndex(card, cards) == -1 then Err(NotInGraveyard(card)) else Err(TypeMismatch)
  }

  /** As written, a card that is present is refused with a TypeError. */
  lemma FlashbackAsWrittenFails(cards: seq<string>, card: string)
    requires card in cards
    ensures FlashbackAsWritten(cards, card) == Err(TypeMismatch)
  {
    var k :| 0 <= k < |cards| && cards[k] == card;
    assert SameIgnoringCase(cards[k], card);
  }
}
