/** First-match lookups over a group of cards (bot/lib/card_group.py). Both read the
    group and change nothing. */
module CardGroups {
  import opened Common
  import opened Util

  /** `CardGroup.find`: the stored spelling of a card that sanitize-matches the name. */
  function Find(cards: seq<string>, name: string): (r: Option<string>)
    ensures r.None? <==> forall k :: 0 <= k < |cards| ==> !SameCard(cards[k], name)
    ensures r.Some? ==> r.value in cards && SameCard(r.value, name)
  {
    if cards == [] then None
    else if SameCard(cards[0], name) then Some(cards[0])
    else Find(cards[1..], name)
  }

  /** `CardGroup.index`: the smallest position whose card sanitize-matches the name. */
  function Index(cards: seq<string>, name: string): (r: Option<nat>)
    ensures r.None? <==> forall k :: 0 <= k < |cards| ==> !SameCard(cards[k], name)
    ensures r.Some? ==> r.value < |cards| && SameCard(cards[r.value], name)
    ensures r.Some? ==> forall k :: 0 <= k < r.value ==> !SameCard(cards[k], name)
  {
    if cards == [] then None
    else if SameCard(cards[0], name) then Some(0)
    else
      match Index(cards[1..], name)
      case None => None
      case Some(i) => Some(i + 1)
  }

  /** The two lookups agree: `find` returns exactly the card at the position `index` reports,
      so `find` yields the first match in list order. */
  lemma {:induction false} FindAtIndex(cards: seq<string>, name: string)
    ensures Index(cards, name).None? <==> Find(cards, name).None?
    ensures Index(cards, name).Some? ==> Find(cards, name) == Some(cards[Index(cards, name).value])
  {
    if cards != [] && !SameCard(cards[0], name) {
      FindAtIndex(cards[1..], name);
    }
  }

  /** Both lookups depend on the name only through its sanitized form: two names that differ in
      case or quotes find the same card at the same position. */
  lemma {:induction false} LookupsIgnoreCaseAndQuotes(cards: seq<string>, a: string, b: string)
    requires SameCard(a, b)
    ensures Index(cards, a) == Index(cards, b)
    ensures Find(cards, a) == Find(cards, b)
  {
    if cards != [] && !SameCard(cards[0], a) {
      LookupsIgnoreCaseAndQuotes(cards[1..], a, b);
    }
  }
}
