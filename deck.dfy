/** The library engine (bot/lib/deck.py): the draw pile `cards` (index 0 is the top), each
    member's hand, and the stack of "One with Death" cards waiting to be resolved. Cards are
    name strings that only move between these sequences. */
module Decks {
  import opened Common
  import opened Util
  import CardGroups
  import Numerals

  const OneWithDeath: string := "One with Death"

  /** Hands are keyed by `str(member_id)`; the model takes that string as the member id. */
  type MemberId = string

  function Min(a: int, b: int): int { if a <= b then a else b }

  // ---------------------------------------------------------------- draw

  /** The drawn cards that go to the hand: every card except "One with Death", in order. */
  function NonOwd(s: seq<string>): (r: seq<string>)
    ensures OneWithDeath !in r
    ensures multiset(r) == multiset(s)[OneWithDeath := 0]
    ensures |s| == 1 ==> r == if s[0] == OneWithDeath then [] else s
  {
    if s == [] then []
    else
      assert s == [s[0]] + s[1..];
      (if s[0] == OneWithDeath then [] else [s[0]]) + NonOwd(s[1..])
  }

  /** The filter keeps the draw order: filtering a concatenation filters each part in turn. */
  lemma {:induction false} NonOwdAppend(a: seq<string>, b: seq<string>)
    ensures NonOwd(a + b) == NonOwd(a) + NonOwd(b)
  {
    if a != [] {
      assert (a + b)[1..] == a[1..] + b;
      NonOwdAppend(a[1..], b);
    } else {
      assert a + b == b;
    }
  }

  /** The drawn cards that wait to be resolved: one "One with Death" per copy drawn. */
  function OwdOnly(s: seq<string>): (r: seq<string>)
    ensures forall c :: c in r ==> c == OneWithDeath
    ensures multiset(r) == multiset{}[OneWithDeath := multiset(s)[OneWithDeath]]
  {
    if s == [] then []
    else
      assert s == [s[0]] + s[1..];
      var head, tail := (if s[0] == OneWithDeath then [s[0]] else []), OwdOnly(s[1..]);
      assert multiset(s)[OneWithDeath] == |head| + multiset(s[1..])[OneWithDeath];
      OwdCount(head, tail, multiset(s[1..])[OneWithDeath]);
      head + tail
  }

  lemma OwdCount(head: seq<string>, tail: seq<string>, n: nat)
    requires head == [] || head == [OneWithDeath]
    requires multiset(tail) == multiset{}[OneWithDeath := n]
    ensures multiset(head + tail) == multiset{}[OneWithDeath := |head| + n]
  {
    var m := multiset(head + tail);
    forall c ensures m[c] == multiset{}[OneWithDeath := |head| + n][c] {
      assert m[c] == multiset(head)[c] + multiset(tail)[c];
    }
  }

  /** Splitting the drawn cards between hand and resolve stack loses and creates nothing. */
  lemma DrawSplitConserves(s: seq<string>)
    ensures multiset(NonOwd(s)) + multiset(OwdOnly(s)) == multiset(s)
  {
    var both := multiset(NonOwd(s)) + multiset(OwdOnly(s));
    forall c ensures both[c] == multiset(s)[c] {
    }
  }

  /** Drawing k cards moves them from the pile to the hand and the resolve stack: the three
      together hold the same cards before and after. */
  lemma DrawConserves(cards: seq<string>, k: nat, hand: seq<string>, waiting: seq<string>)
    requires k <= |cards|
    ensures multiset(cards[k..]) + multiset(hand + NonOwd(cards[..k])) + multiset(waiting + OwdOnly(cards[..k]))
         == multiset(cards) + multiset(hand) + multiset(waiting)
  {
    assert cards == cards[..k] + cards[k..];
    DrawSplitConserves(cards[..k]);
  }

  // ---------------------------------------------------------------- shuffle

  /** The random choices `randint(i, len(cards) - 1)` of one shuffle of n cards, supplied by
      the caller: one choice in [i, n-1] for every i the loop visits (i < n - 2). */
  predicate ValidChoices(n: nat, js: seq<int>) {
    |js| >= n - 2 && forall i :: 0 <= i < n - 2 ==> i <= js[i] < n
  }

  function Swap(s: seq<string>, i: nat, j: nat): (r: seq<string>)
    requires i < |s| && j < |s|
    ensures |r| == |s| && multiset(r) == multiset(s)
  {
    s[i := s[j]][j := s[i]]
  }

  /** The deck after the shuffle loop has run from index i on with the choices js. The loop
      stops before index |s| - 2, as `range(len(self.cards) - 2)` does. */
  function Shuffled(s: seq<string>, js: seq<int>, i: nat): (r: seq<string>)
    requires ValidChoices(|s|, js)
    ensures |r| == |s| && multiset(r) == multiset(s)
    decreases |s| - i
  {
    if i + 2 >= |s| then s else Shuffled(Swap(s, i, js[i]), js, i + 1)
  }

  /** Because of that bound, a deck of at most two cards is never reordered. */
  lemma ShortDeckUnshuffled(s: seq<string>, js: seq<int>)
    requires |s| <= 2 && ValidChoices(|s|, js)
    ensures Shuffled(s, js, 0) == s
  {
  }

  /** And a three-card deck reaches only three of its six orderings: the last swap of
      Fisher-Yates is never made, so "A", "C", "B" cannot come out of "A", "B", "C". */
  lemma ThreeCardShuffleMissesOrders(js: seq<int>)
    requires ValidChoices(3, js)
    ensures Shuffled(["A", "B", "C"], js, 0) != ["A", "C", "B"]
  {
    var s := ["A", "B", "C"];
    assert Shuffled(s, js, 0) == Swap(s, 0, js[0]);
    assert Swap(s, 0, js[0])[1] != "C";
  }

  // ---------------------------------------------------------------- reorder

  function SanitizeAll(s: seq<string>): (r: seq<string>)
    ensures |r| == |s|
    ensures forall i :: 0 <= i < |s| ==> r[i] == Sanitize(s[i])
  {
    seq(|s|, i requires 0 <= i < |s| => Sanitize(s[i]))
  }

  /** The check reorder documents: the new top cards are, by sanitized name, the same
      multiset as the current top cards. */
  predicate SameNames(top: seq<string>, newTop: seq<string>) {
    multiset(SanitizeAll(top)) == multiset(SanitizeAll(newTop))
  }

  predicate AllFound(top: seq<string>, newTop: seq<string>) {
    forall i :: 0 <= i < |newTop| ==> CardGroups.Find(top, newTop[i]).Some?
  }

  /** The player's names written in the deck's spelling: each one replaced by the first top
      card that sanitize-matches it. */
  function Respell(top: seq<string>, newTop: seq<string>): (r: seq<string>)
    requires AllFound(top, newTop)
    ensures |r| == |newTop|
    ensures forall i :: 0 <= i < |r| ==> r[i] in top && SameCard(r[i], newTop[i])
  {
    if newTop == [] then []
    else
      AllFoundTail(top, newTop);
      var head, tail := CardGroups.Find(top, newTop[0]).value, Respell(top, newTop[1..]);
      RespellCons(top, newTop, head, tail);
      [head] + tail
  }

  /** Respelled card `i` is what `find` returns for request `i`. */
  lemma {:induction false} RespellAt(top: seq<string>, newTop: seq<string>, i: nat)
    requires AllFound(top, newTop) && i < |newTop|
    ensures Respell(top, newTop)[i] == CardGroups.Find(top, newTop[i]).value
  {
    if i > 0 {
      AllFoundTail(top, newTop);
      RespellAt(top, newTop[1..], i - 1);
      assert newTop[1..][i - 1] == newTop[i];
    }
  }

  /** Each respelled card is the FIRST top card that sanitize-matches its request, as the `[0]`
      taken from the comprehension picks it. */
  lemma RespellTakesFirst(top: seq<string>, newTop: seq<string>)
    requires AllFound(top, newTop)
    ensures forall i :: 0 <= i < |newTop| ==>
      CardGroups.Index(top, newTop[i]).Some? && Respell(top, newTop)[i] == top[CardGroups.Index(top, newTop[i]).value]
  {
    forall i | 0 <= i < |newTop|
      ensures CardGroups.Index(top, newTop[i]).Some?
        && Respell(top, newTop)[i] == top[CardGroups.Index(top, newTop[i]).value]
    {
      RespellAt(top, newTop, i);
      CardGroups.FindAtIndex(top, newTop[i]);
    }
  }

  lemma RespellCons(top: seq<string>, newTop: seq<string>, head: string, tail: seq<string>)
    requires newTop != [] && head in top && SameCard(head, newTop[0]) && |tail| == |newTop| - 1
    requires forall i :: 0 <= i < |tail| ==> tail[i] in top && SameCard(tail[i], newTop[1..][i])
    ensures forall i :: 0 <= i < |newTop| ==> ([head] + tail)[i] in top && SameCard(([head] + tail)[i], newTop[i])
  {
    forall i | 0 <= i < |newTop|
      ensures ([head] + tail)[i] in top && SameCard(([head] + tail)[i], newTop[i])
    {
      if i > 0 {
        assert ([head] + tail)[i] == tail[i - 1];
        assert newTop[i] == newTop[1..][i - 1];
      }
    }
  }

  /** When the names agree, every name the player gave is found among the top cards. */
  lemma SameNamesAllFound(top: seq<string>, newTop: seq<string>)
    requires SameNames(top, newTop)
    ensures AllFound(top, newTop)
  {
    forall i | 0 <= i < |newTop| ensures CardGroups.Find(top, newTop[i]).Some? {
      var x := Sanitize(newTop[i]);
      assert SanitizeAll(newTop)[i] == x;
      assert x in multiset(SanitizeAll(top));
      var k :| 0 <= k < |top| && SanitizeAll(top)[k] == x;
      assert SameCard(top[k], newTop[i]);
    }
  }

  /** Respelling keeps every card's sanitized name, so the rewritten top holds the same card
      names as the old one. */
  lemma RespellKeepsNames(top: seq<string>, newTop: seq<string>)
    requires SameNames(top, newTop)
    ensures AllFound(top, newTop)
    ensures SanitizeAll(Respell(top, newTop)) == SanitizeAll(newTop)
    ensures SameNames(Respell(top, newTop), top)
  {
    SameNamesAllFound(top, newTop);
  }

  /** Agreeing names means as many new top cards as old ones. */
  lemma SameNamesLength(top: seq<string>, newTop: seq<string>)
    requires SameNames(top, newTop)
    ensures |top| == |newTop|
  {
    assert |multiset(SanitizeAll(top))| == |multiset(SanitizeAll(newTop))|;
  }

  /** A successful reorder keeps the names of the whole deck. */
  lemma ReorderKeepsDeckNames(top: seq<string>, rest: seq<string>, newTop: seq<string>)
    requires SameNames(top, newTop)
    ensures AllFound(top, newTop)
    ensures SameNames(Respell(top, newTop) + rest, top + rest)
  {
    RespellKeepsNames(top, newTop);
    var respelled := Respell(top, newTop);
    SanitizeAllAppend(respelled, rest);
    SanitizeAllAppend(top, rest);
    assert multiset(SanitizeAll(respelled) + SanitizeAll(rest))
        == multiset(SanitizeAll(respelled)) + multiset(SanitizeAll(rest));
    assert multiset(SanitizeAll(top) + SanitizeAll(rest))
        == multiset(SanitizeAll(top)) + multiset(SanitizeAll(rest));
  }

  lemma SanitizeAllAppend(a: seq<string>, b: seq<string>)
    ensures SanitizeAll(a + b) == SanitizeAll(a) + SanitizeAll(b)
  {
  }

  /** No two top cards spell the same card differently. */
  predicate ConsistentSpelling(top: seq<string>) {
    forall a, b :: a in top && b in top && SameCard(a, b) ==> a == b
  }

  lemma SanitizeAllRemoveAt(s: seq<string>, k: nat)
    requires k < |s|
    ensures SanitizeAll(RemoveAt(s, k)) == RemoveAt(SanitizeAll(s), k)
  {
  }

  lemma NameInPool(pool: seq<string>, newTop: seq<string>) returns (k: nat)
    requires newTop != [] && SameNames(pool, newTop)
    ensures k < |pool| && SameCard(pool[k], newTop[0])
  {
    assert SanitizeAll(newTop)[0] == Sanitize(newTop[0]);
    assert Sanitize(newTop[0]) in multiset(SanitizeAll(pool));
    k :| 0 <= k < |pool| && SanitizeAll(pool)[k] == Sanitize(newTop[0]);
  }

  lemma SameNamesRemove(pool: seq<string>, k: nat, newTop: seq<string>)
    requires k < |pool| && newTop != [] && SameNames(pool, newTop) && SameCard(pool[k], newTop[0])
    ensures SameNames(RemoveAt(pool, k), newTop[1..])
  {
    var names := SanitizeAll(pool);
    var x := Sanitize(newTop[0]);
    SanitizeAllRemoveAt(pool, k);
    assert multiset(RemoveAt(names, k)) + multiset{x} == multiset(names);
    var tail := SanitizeAll(newTop[1..]);
    assert SanitizeAll(newTop) == [x] + tail;
    assert multiset(SanitizeAll(newTop)) == multiset{x} + multiset(tail);
    var left := multiset(RemoveAt(names, k));
    assert left + multiset{x} == multiset(tail) + multiset{x};
    assert left == multiset(tail) by {
      forall c ensures left[c] == multiset(tail)[c] {
        assert (left + multiset{x})[c] == (multiset(tail) + multiset{x})[c];
      }
    }
  }

  lemma AllFoundTail(top: seq<string>, newTop: seq<string>)
    requires newTop != [] && AllFound(top, newTop)
    ensures AllFound(top, newTop[1..])
  {
    forall t | 0 <= t < |newTop[1..]| ensures CardGroups.Find(top, newTop[1..][t]).Some? {
      assert newTop[1..][t] == newTop[t + 1];
    }
  }

  /** In a consistently spelled top, a card of the pool matching a top card is that card. */
  lemma SameSpelling(top: seq<string>, a: string, b: string)
    requires ConsistentSpelling(top) && a in top && b in top && Sanitize(a) == Sanitize(b)
    ensures a == b
  {
    assert SameCard(a, b);
  }

  lemma RemoveAtWithin(pool: seq<string>, k: nat, top: seq<string>)
    requires k < |pool| && forall x :: x in pool ==> x in top
    ensures forall x :: x in RemoveAt(pool, k) ==> x in top
  {
    forall x | x in RemoveAt(pool, k) ensures x in top {
      assert x in multiset(RemoveAt(pool, k));
    }
  }

  lemma {:induction false} RespellFromPool(top: seq<string>, pool: seq<string>, newTop: seq<string>)
    requires ConsistentSpelling(top)
    requires forall x :: x in pool ==> x in top
    requires SameNames(pool, newTop)
    requires AllFound(top, newTop)
    ensures multiset(Respell(top, newTop)) == multiset(pool)
    decreases |newTop|
  {
    if newTop == [] {
      assert |multiset(SanitizeAll(pool))| == 0;
    } else {
      var c := CardGroups.Find(top, newTop[0]).value;
      var k := NameInPool(pool, newTop);
      SameSpelling(top, c, pool[k]);
      var rest := RemoveAt(pool, k);
      assert multiset(rest) + multiset{c} == multiset(pool);
      RemoveAtWithin(pool, k, top);
      SameNamesRemove(pool, k, newTop);
      AllFoundTail(top, newTop);
      RespellFromPool(top, rest, newTop[1..]);
      assert Respell(top, newTop) == [c] + Respell(top, newTop[1..]);
    }
  }

  /** With consistent spelling in the deck, the rewritten top is a permutation of the old top:
      no card is created or lost by a reorder. */
  lemma RespellPermutes(top: seq<string>, newTop: seq<string>)
    requires ConsistentSpelling(top)
    requires SameNames(top, newTop)
    ensures AllFound(top, newTop)
    ensures multiset(Respell(top, newTop)) == multiset(top)
  {
    SameNamesAllFound(top, newTop);
    RespellFromPool(top, top, newTop);
  }

  /** The whole deck after a successful reorder is then a permutation of the deck before. */
  lemma ReorderPermutesDeck(top: seq<string>, rest: seq<string>, newTop: seq<string>)
    requires ConsistentSpelling(top)
    requires SameNames(top, newTop)
    ensures AllFound(top, newTop)
    ensures multiset(Respell(top, newTop) + rest) == multiset(top + rest)
  {
    RespellPermutes(top, newTop);
  }

  // ---------------------------------------------------------------- the deck

  class Deck {
    var cards: seq<string>
    var hands: map<MemberId, seq<string>>
    var waiting: seq<string>

    /** `Deck(cards=cards)`: no hands, nothing waiting to resolve. */
    constructor (cards: seq<string>)
      ensures this.cards == cards && hands == map[] && waiting == []
    {
      this.cards := cards;
      hands := map[];
      waiting := [];
    }

    /** `get_hand`: a member who has never drawn has an empty hand. */
    function GetHand(m: MemberId): (hand: seq<string>)
      reads this
      ensures m in hands ==> hand == hands[m]
      ensures m !in hands ==> hand == []
    {
      if m in hands then hands[m] else []
    }

    /** `peek`: the top min(n, |cards|) cards, in order; nothing changes. */
    function Peek(n: nat): (top: seq<string>)
      reads this
      ensures |top| == Min(n, |cards|)
      ensures top == cards[..|top|]
    {
      if |cards| < n then cards else cards[..n]
    }

    /** `draw`: take the top min(n, |cards|) cards; "One with Death" goes to the resolve stack,
        everything else to the member's hand. Never fails for lack of cards. */
    method Draw(m: MemberId, n: nat) returns (drawn: seq<string>)
      modifies this
      ensures drawn == old(Peek(n))
      ensures old(cards) == drawn + cards
      ensures hands == old(hands)[m := old(GetHand(m)) + NonOwd(drawn)]
      ensures waiting == old(waiting) + OwdOnly(drawn)
      ensures multiset(cards) + multiset(GetHand(m)) + multiset(waiting)
           == old(multiset(cards) + multiset(GetHand(m)) + multiset(waiting))
    {
      var k := Min(n, |cards|);
      ghost var hand := GetHand(m);
      drawn := cards[..k];
      cards := cards[k..];
      assert old(cards) == drawn + cards;
      var normal := NonOwd(drawn);
      if m in hands {
        hands := hands[m := hands[m] + normal];
      } else {
        assert hand + normal == normal;
        hands := hands[m := normal];
      }
      waiting := waiting + OwdOnly(drawn);
      assert GetHand(m) == hand + normal;
      DrawConserves(old(cards), k, hand, old(waiting));
    }

    /** `shuffle`: swap position i with position js[i] for i = 0 .. |cards| - 3. */
    method Shuffle(js: seq<int>)
      requires ValidChoices(|cards|, js)
      modifies this
      ensures cards == Shuffled(old(cards), js, 0)
      ensures |cards| == |old(cards)| && multiset(cards) == multiset(old(cards))
      ensures hands == old(hands) && waiting == old(waiting)
    {
      var i := 0;
      while i < |cards| - 2
        invariant |cards| == |old(cards)| && ValidChoices(|cards|, js)
        invariant i <= |cards|
        invariant Shuffled(cards, js, i) == Shuffled(old(cards), js, 0)
        invariant hands == old(hands) && waiting == old(waiting)
      {
        var j := js[i];
        cards := cards[i := cards[j]][j := cards[i]];
        i := i + 1;
      }
    }

    /** `reorder` as documented: replace the top |newTop| cards by newTop, spelled as in the
        deck, when they are the same cards by sanitized name; otherwise fail and change nothing. */
    method Reorder(newTop: seq<string>) returns (r: Result<()>)
      modifies this
      ensures r.Ok? <==> SameNames(old(Peek(|newTop|)), newTop)
      ensures r.Err? ==> r.error == CardsDoNotMatch && cards == old(cards)
      ensures r.Ok? ==> |newTop| <= |old(cards)| && AllFound(old(Peek(|newTop|)), newTop)
      ensures r.Ok? ==> cards == Respell(old(Peek(|newTop|)), newTop) + old(cards)[|newTop|..]
      ensures r.Ok? ==> SameNames(cards, old(cards))
      ensures hands == old(hands) && waiting == old(waiting)
    {
      var top := Peek(|newTop|);
      if SameNames(top, newTop) {
        SameNamesLength(top, newTop);
        var rest := cards[|newTop|..];
        assert cards == top + rest;
        ReorderKeepsDeckNames(top, rest, newTop);
        cards := Respell(top, newTop) + rest;
        r := Ok(());
      } else {
        r := Err(CardsDoNotMatch);
      }
    }

    /** `play`: remove the first card of the member's hand that sanitize-matches and return its
        stored spelling; fail when there is none. */
    method Play(card: string, m: MemberId) returns (r: Result<string>)
      modifies this
      ensures r.Err? <==> forall k :: 0 <= k < |old(GetHand(m))| ==> !SameCard(old(GetHand(m))[k], card)
      ensures r.Err? ==> r.error == NotInHand(card) && hands == old(hands)
      ensures r.Ok? ==> var i := CardGroups.Index(old(GetHand(m)), card).value;
        r.value == old(GetHand(m))[i] && hands == old(hands)[m := RemoveAt(old(GetHand(m)), i)]
      ensures r.Ok? ==> SameCard(r.value, card)
      ensures r.Ok? ==> multiset(GetHand(m)) + multiset{r.value} == old(multiset(GetHand(m)))
      ensures cards == old(cards) && waiting == old(waiting)
    {
      var hand := GetHand(m);
      match CardGroups.Index(hand, card)
      case None =>
        r := Err(NotInHand(card));
      case Some(i) =>
        r := Ok(hand[i]);
        hands := hands[m := RemoveAt(hand, i)];
    }

    /** `resolve`: remove the first waiting card that sanitize-matches; a resolved
        "One with Death" goes to the bottom of the deck, which is then shuffled with js. */
    method Resolve(card: string, js: seq<int>) returns (r: Result<string>)
      requires ValidChoices(|cards| + 1, js)
      modifies this
      ensures r.Err? <==> forall k :: 0 <= k < |old(waiting)| ==> !SameCard(old(waiting)[k], card)
      ensures r.Err? ==> r.error == NotWaitingToResolve(card) && waiting == old(waiting)
      ensures r.Ok? ==> var i := CardGroups.Index(old(waiting), card).value;
        r.value == old(waiting)[i] && waiting == RemoveAt(old(waiting), i)
      ensures r.Ok? && r.value == OneWithDeath ==> cards == Shuffled(old(cards) + [OneWithDeath], js, 0)
      ensures r.Ok? && r.value == OneWithDeath ==> multiset(cards) == multiset(old(cards)) + multiset{OneWithDeath}
      ensures !(r.Ok? && r.value == OneWithDeath) ==> cards == old(cards)
      ensures r.Ok? ==> multiset(waiting) + multiset{r.value} == multiset(old(waiting))
      ensures hands == old(hands)
    {
      r := TakeWaiting(card);
      if r.Ok? && r.value == OneWithDeath {
        ReturnToBottom(js);
      }
    }

    /** Lines 106-111 of `resolve`: take the first waiting card that sanitize-matches. */
    method TakeWaiting(card: string) returns (r: Result<string>)
      modifies this
      ensures r.Err? <==> forall k :: 0 <= k < |old(waiting)| ==> !SameCard(old(waiting)[k], card)
      ensures r.Err? ==> r.error == NotWaitingToResolve(card) && waiting == old(waiting)
      ensures r.Ok? ==> var i := CardGroups.Index(old(waiting), card).value;
        r.value == old(waiting)[i] && waiting == RemoveAt(old(waiting), i)
      ensures r.Ok? ==> multiset(waiting) + multiset{r.value} == multiset(old(waiting))
      ensures cards == old(cards) && hands == old(hands)
    {
      var found := CardGroups.Index(waiting, card);
      if found.Some? {
        r := Ok(waiting[found.value]);
        waiting := RemoveAt(waiting, found.value);
      } else {
        r := Err(NotWaitingToResolve(card));
      }
    }

    /** Lines 113-114 of `resolve`: a resolved "One with Death" goes to the bottom of the pile,
        then the pile is shuffled. */
    method ReturnToBottom(js: seq<int>)
      requires ValidChoices(|cards| + 1, js)
      modifies this
      ensures cards == Shuffled(old(cards) + [OneWithDeath], js, 0)
      ensures multiset(cards) == multiset(old(cards)) + multiset{OneWithDeath}
      ensures hands == old(hands) && waiting == old(waiting)
    {
      cards := cards + [OneWithDeath];
      Shuffle(js);
    }

    /** `buyback`: the card goes back to the end of the member's hand, unvalidated. */
    method Buyback(card: string, m: MemberId)
      modifies this
      ensures hands == old(hands)[m := old(GetHand(m)) + [card]]
      ensures cards == old(cards) && waiting == old(waiting)
    {
      if m in hands {
        hands := hands[m := hands[m] + [card]];
      } else {
        assert GetHand(m) + [card] == [card];
        hands := hands[m := [card]];
      }
    }
  }

  /** Buying back the card just played puts the same cards back in the hand (the played card
      moves to the end of it). */
  method PlayThenBuyback(deck: Deck, card: string, m: MemberId) returns (r: Result<string>)
    modifies deck
    ensures r.Ok? ==> multiset(deck.GetHand(m)) == old(multiset(deck.GetHand(m)))
    ensures r.Ok? ==> deck.GetHand(m) != [] && deck.GetHand(m)[|deck.GetHand(m)| - 1] == r.value
    ensures r.Err? ==> deck.hands == old(deck.hands)
    ensures deck.cards == old(deck.cards) && deck.waiting == old(deck.waiting)
  {
    r := deck.Play(card, m);
    if r.Ok? {
      deck.Buyback(r.value, m);
    }
  }

  // ---------------------------------------------------------------- defects as written

  /** `play` as written: line 100 indexes `_hands` with the integer `member_id`, but every key
      was stored as `str(member_id)`, and a Python int never equals a str key. */
  function PlayAsWritten(hands: map<MemberId, seq<string>>, card: string, memberId: nat): (r: Result<string>)
    ensures r == Err(NotInHand(card)) || r == Err(KeyMissing)
    ensures var key := Numerals.NatToString(memberId);
      var hand := if key in hands then hands[key] else [];
      r == Err(KeyMissing) <==> exists k :: 0 <= k < |hand| && SameCard(hand[k], card)
  {
    var key := Numerals.NatToString(memberId);
    var hand := if key in hands then hands[key] else [];
    if CardGroups.Index(hand, card).None? then Err(NotInHand(card)) else Err(KeyMissing)
  }

  /** As written, `play` never succeeds: a card that is in the hand raises KeyError. */
  lemma PlayAsWrittenNeverSucceeds(hands: map<MemberId, seq<string>>, card: string, memberId: nat)
    ensures PlayAsWritten(hands, card, memberId).Err?
    ensures var key := Numerals.NatToString(memberId);
      key in hands && card in hands[key] ==> PlayAsWritten(hands, card, memberId) == Err(KeyMissing)
  {
    var key := Numerals.NatToString(memberId);
    if key in hands && card in hands[key] {
      var k :| 0 <= k < |hands[key]| && hands[key][k] == card;
      assert SameCard(hands[key][k], card);
    }
  }

  /** One element of a Python list that line 86 builds: a name, or a whole list nested in it. */
  datatype PyItem = Str(name: string) | Nested(items: seq<string>)

  /** The characters of a name, each as a one-character string (iterating a Python str). */
  function Chars(s: string): (r: seq<string>)
    ensures |r| == |s|
    ensures forall i :: 0 <= i < |s| ==> r[i] == [s[i]]
  {
    seq(|s|, i requires 0 <= i < |s| => [s[i]])
  }

  /** `reorder` as written. Line 70 indexes (`cards[k]`) where it means to slice (`cards[:k]`),
      so `curr_top_cards` is one name and iterating it yields characters; line 71 compares a
      list of strings with a list holding one generator, which is never equal, so the guard
      never raises; line 86 nests the old suffix as one element instead of splicing it. */
  function ReorderAsWritten(cards: seq<string>, newTop: seq<string>): (r: Result<seq<PyItem>>)
    ensures r.Ok? <==> |newTop| < |cards| && forall i :: 0 <= i < |newTop| ==>
      CardGroups.Find(Chars(cards[|newTop|]), newTop[i]).Some?
    ensures |newTop| >= |cards| ==> r == Err(IndexOutOfRange)
    ensures r.Err? ==> r.error == IndexOutOfRange
    ensures r.Ok? ==> |r.value| == |newTop| + 1 && r.value[|newTop|] == Nested(cards[|newTop|..])
    ensures r.Ok? ==> forall i :: 0 <= i < |newTop| ==>
      r.value[i].Str? && r.value[i].name in Chars(cards[|newTop|]) && SameCard(r.value[i].name, newTop[i])
  {
    var k := |newTop|;
    if k >= |cards| then Err(IndexOutOfRange)
    else
      var curr := Chars(cards[k]);
      if exists i :: 0 <= i < k && CardGroups.Find(curr, newTop[i]).None? then Err(IndexOutOfRange)
      else
        var picked := seq(k, i requires 0 <= i < k => Str(CardGroups.Find(curr, newTop[i]).value));
        Ok(picked + [Nested(cards[k..])])
  }

  /** As written, putting back real card names (two or more characters once sanitized) always
      raises IndexError, even when they are exactly the current top cards. */
  lemma ReorderAsWrittenRejectsNames(cards: seq<string>, newTop: seq<string>)
    requires newTop != [] && |Sanitize(newTop[0])| >= 2
    ensures ReorderAsWritten(cards, newTop) == Err(IndexOutOfRange)
  {
    var k := |newTop|;
    if k < |cards| {
      var curr := Chars(cards[k]);
      forall t | 0 <= t < |curr| ensures !SameCard(curr[t], newTop[0]) {
        assert |Sanitize(curr[t])| <= 1;
      }
      assert CardGroups.Find(curr, newTop[0]).None?;
    }
  }

  /** And the guard lets a wrong top through: for the deck "x", "y" and the new top "y", the
      code builds a list whose head is "y" and whose second element is the nested list ["y"];
      "x" is gone. */
  lemma ReorderAsWrittenAcceptsWrongTop()
    ensures ReorderAsWritten(["x", "y"], ["y"]) == Ok([Str("y"), Nested(["y"])])
  {
    var cards, newTop := ["x", "y"], ["y"];
    assert |newTop| == 1 && cards[1] == "y" && cards[1..] == ["y"];
    var curr := Chars(cards[1]);
    assert curr == ["y"];
    assert CardGroups.Find(curr, "y") == Some("y");
    assert !exists i :: 0 <= i < 1 && CardGroups.Find(curr, newTop[i]).None?;
    var items := seq(1, i requires 0 <= i < 1 => Str(CardGroups.Find(curr, newTop[i]).value));
    assert items == [Str("y")];
    assert ReorderAsWritten(cards, newTop) == Ok(items + [Nested(cards[1..])]);
    assert items + [Nested(cards[1..])] == [Str("y"), Nested(["y"])];
  }

  // ---------------------------------------------------------------- decklist parsing

  /** One decklist line: `count` copies of the card `name`. */
  datatype DeckEntry = DeckEntry(count: nat, name: string)

  /** The characters `str.strip()` removes: those for which Python's `str.isspace()` holds. */
  predicate IsSpace(c: char) {
    ('\t' <= c <= '\r') || ('\U{1C}' <= c <= ' ') || c == '\U{85}' || c == '\U{A0}'
    || c == '\U{1680}' || ('\U{2000}' <= c <= '\U{200A}') || c == '\U{2028}' || c == '\U{2029}'
    || c == '\U{202F}' || c == '\U{205F}' || c == '\U{3000}'
  }

  predicate IsTrimmed(s: string) {
    s == [] || (!IsSpace(s[0]) && !IsSpace(s[|s| - 1]))
  }

  /** `str.lstrip()`: drops the leading whitespace and nothing else. */
  function StripLeft(s: string): (r: string)
    ensures r == [] || !IsSpace(r[0])
    ensures |r| <= |s| && r == s[|s| - |r|..]
    ensures forall i :: 0 <= i < |s| - |r| ==> IsSpace(s[i])
  {
    if s != [] && IsSpace(s[0]) then
      var r := StripLeft(s[1..]);
      assert forall i :: 1 <= i < |s| - |r| ==> s[i] == s[1..][i - 1];
      r
    else s
  }

  /** `str.rstrip()`: drops the trailing whitespace and nothing else. */
  function StripRight(s: string): (r: string)
    ensures r == [] || !IsSpace(r[|r| - 1])
    ensures |r| <= |s| && r == s[..|r|]
    ensures forall i :: |r| <= i < |s| ==> IsSpace(s[i])
  {
    if s != [] && IsSpace(s[|s| - 1]) then
      var r := StripRight(s[..|s| - 1]);
      assert forall i :: |r| <= i < |s| - 1 ==> s[i] == s[..|s| - 1][i];
      r
    else s
  }

  /** r occurs in s at position i, with only whitespace before and after it. */
  predicate Padded(s: string, r: string, i: nat) {
    i + |r| <= |s| && r == s[i..i + |r|]
    && (forall k :: 0 <= k < i ==> IsSpace(s[k])) && (forall k :: i + |r| <= k < |s| ==> IsSpace(s[k]))
  }

  /** `str.strip()`: the text between the leading and the trailing whitespace. */
  function Strip(s: string): (r: string)
    ensures IsTrimmed(r)
    ensures exists i :: Padded(s, r, i)
  {
    var t := StripRight(s);
    var r := StripLeft(t);
    assert r != [] ==> r[|r| - 1] == t[|t| - 1];
    StripPadded(s, t, r);
    r
  }

  lemma StripPadded(s: string, t: string, r: string)
    requires t == StripRight(s) && r == StripLeft(t)
    ensures Padded(s, r, |t| - |r|)
  {
    var i := |t| - |r|;
    assert r == s[i..i + |r|] by {
      assert t == s[..|t|] && r == t[i..];
    }
    assert forall k :: 0 <= k < i ==> IsSpace(s[k]) by {
      forall k | 0 <= k < i ensures IsSpace(s[k]) {
        assert s[k] == t[k];
      }
    }
    assert forall k :: i + |r| <= k < |s| ==> IsSpace(s[k]);
  }

  /** `line.index(" ")`. */
  function FirstIndexOf(s: string, c: char): (r: nat)
    requires c in s
    ensures r < |s| && s[r] == c && c !in s[..r]
  {
    if s[0] == c then 0
    else
      assert c in s[1..] by { assert s == [s[0]] + s[1..]; }
      var r := FirstIndexOf(s[1..], c) + 1;
      assert s[..r] == [s[0]] + s[1..][..r - 1];
      r
  }

  /** One line of the `from_file` loop: the text before the first space is the count, the
      stripped rest is the name. A line without a space, or whose count is not a numeral,
      is an error. */
  function ParseLine(line: string): (r: Result<DeckEntry>)
    ensures ' ' !in line ==> r == Err(NoDelimiter(line))
    ensures r.Err? && ' ' in line ==> r.error.NotANumber?
    ensures r.Ok? ==> IsTrimmed(r.value.name)
  {
    if ' ' !in line then Err(NoDelimiter(line))
    else
      var d := FirstIndexOf(line, ' ');
      match Numerals.ParseNat(line[..d])
      case None => Err(NotANumber(line[..d]))
      case Some(n) => Ok(DeckEntry(n, Strip(line[d + 1..])))
  }

  /** Any line with a space splits at its first space: the count before it must be a numeral
      (leading zeros allowed), and the name is everything after it, stripped. */
  lemma ParseLineSplit(count: string, rest: string)
    requires ' ' !in count
    ensures ParseLine(count + " " + rest)
         == if Numerals.IsNumeral(count) then Ok(DeckEntry(Numerals.DigitsValue(count), Strip(rest)))
            else Err(NotANumber(count))
  {
    var line := count + " " + rest;
    assert line[|count|] == ' ';
    var d := FirstIndexOf(line, ' ');
    assert forall k :: 0 <= k < |count| ==> line[k] == count[k];
    assert d == |count|;
    assert line[..d] == count && line[d + 1..] == rest;
  }

  /** A trimmed name strips to itself. */
  lemma StripTrimmed(s: string)
    requires IsTrimmed(s)
    ensures Strip(s) == s
  {
  }

  /** One more whitespace character at the end does not change the stripped text. */
  lemma StripTrailingSpace(s: string, c: char)
    requires IsSpace(c)
    ensures Strip(s + [c]) == Strip(s)
  {
    assert (s + [c])[..|s|] == s;
  }

  /** A decklist line as `readlines` returns it. */
  function FormatLine(e: DeckEntry): string {
    Numerals.NatToString(e.count) + " " + e.name + "\n"
  }

  /** Parsing a written line gives back its count and (trimmed) name; the name may contain
      spaces, since only the first space delimits. */
  lemma ParseFormatLine(e: DeckEntry)
    requires IsTrimmed(e.name)
    ensures ParseLine(FormatLine(e)) == Ok(e)
  {
    var num := Numerals.NatToString(e.count);
    var line := FormatLine(e);
    assert line[|num|] == ' ';
    var d := FirstIndexOf(line, ' ');
    assert line[..d] == num;
    Numerals.ParseNatToString(e.count);
    assert line[d + 1..] == e.name + "\n";
    assert StripRight(e.name + "\n") == StripRight(e.name) by {
      assert (e.name + "\n")[..|e.name|] == e.name;
    }
  }

  /** `[name] * n`. */
  function Repeat(name: string, n: nat): (r: seq<string>)
    ensures |r| == n
    ensures forall i :: 0 <= i < n ==> r[i] == name
  {
    seq(n, i requires 0 <= i < n => name)
  }

  /** The cards a list of entries expands to, in line order. */
  function Expand(es: seq<DeckEntry>): (r: seq<string>)
    ensures forall c :: c in r ==> exists i :: 0 <= i < |es| && es[i].name == c
  {
    if es == [] then []
    else
      var init, last := es[..|es| - 1], es[|es| - 1];
      var r := Expand(init) + Repeat(last.name, last.count);
      assert forall i :: 0 <= i < |init| ==> init[i] == es[i];
      r
  }

  function TotalCount(es: seq<DeckEntry>): nat {
    if es == [] then 0 else TotalCount(es[..|es| - 1]) + es[|es| - 1].count
  }

  /** The deck holds as many cards as the counts add up to. */
  lemma {:induction false} ExpandLength(es: seq<DeckEntry>)
    ensures |Expand(es)| == TotalCount(es)
  {
    if es != [] {
      ExpandLength(es[..|es| - 1]);
    }
  }

  /** The first error among the results, or all their values, in order. */
  function Collect(rs: seq<Result<DeckEntry>>): Result<seq<DeckEntry>> {
    if rs == [] then Ok([])
    else
      match Collect(rs[..|rs| - 1])
      case Err(e) => Err(e)
      case Ok(es) =>
        match rs[|rs| - 1]
        case Err(e) => Err(e)
        case Ok(entry) => Ok(es + [entry])
  }

  lemma {:induction false} CollectLineByLine(rs: seq<Result<DeckEntry>>)
    ensures Collect(rs).Ok? <==> forall i :: 0 <= i < |rs| ==> rs[i].Ok?
    ensures Collect(rs).Ok? ==> |Collect(rs).value| == |rs|
    ensures Collect(rs).Ok? ==> forall i :: 0 <= i < |rs| ==> rs[i] == Ok(Collect(rs).value[i])
  {
    if rs != [] {
      var init := rs[..|rs| - 1];
      CollectLineByLine(init);
      assert forall i :: 0 <= i < |init| ==> init[i] == rs[i];
    }
  }

  /** The result of each line, position by position. */
  function Results(lines: seq<string>): (r: seq<Result<DeckEntry>>)
    ensures |r| == |lines|
    ensures forall i :: 0 <= i < |lines| ==> r[i] == ParseLine(lines[i])
  {
    seq(|lines|, i requires 0 <= i < |lines| => ParseLine(lines[i]))
  }

  lemma {:induction false} ParseEntriesIsCollect(lines: seq<string>)
    ensures ParseEntries(lines) == Collect(Results(lines))
  {
    if lines != [] {
      var init := lines[..|lines| - 1];
      ParseEntriesIsCollect(init);
      assert Results(lines)[..|lines| - 1] == Results(init);
    }
  }

  /** Entries of all lines, or the error of the first line that fails. */
  function ParseEntries(lines: seq<string>): (r: Result<seq<DeckEntry>>)
    ensures r.Ok? ==> |r.value| == |lines|
  {
    if lines == [] then Ok([])
    else
      match ParseEntries(lines[..|lines| - 1])
      case Err(e) => Err(e)
      case Ok(es) =>
        match ParseLine(lines[|lines| - 1])
        case Err(e) => Err(e)
        case Ok(entry) => Ok(es + [entry])
  }

  /** The card list `from_file` builds from the lines of a decklist. */
  function Decklist(lines: seq<string>): (r: Result<seq<string>>)
    ensures r.Ok? <==> forall i :: 0 <= i < |lines| ==> ParseLine(lines[i]).Ok?
    ensures r.Ok? ==> ParseEntries(lines).Ok? && |r.value| == TotalCount(ParseEntries(lines).value)
  {
    ParseEntriesLineByLine(lines);
    match ParseEntries(lines)
    case Err(e) => Err(e)
    case Ok(es) => ExpandLength(es); Ok(Expand(es))
  }

  /** Parsing succeeds exactly when every line parses, and then entry i is line i's. */
  lemma {:induction false} ParseEntriesLineByLine(lines: seq<string>)
    ensures ParseEntries(lines).Ok? <==> forall i :: 0 <= i < |lines| ==> ParseLine(lines[i]).Ok?
    ensures ParseEntries(lines).Ok? ==> |ParseEntries(lines).value| == |lines|
    ensures ParseEntries(lines).Ok? ==>
      forall i :: 0 <= i < |lines| ==> ParseLine(lines[i]) == Ok(ParseEntries(lines).value[i])
  {
    ParseEntriesIsCollect(lines);
    CollectLineByLine(Results(lines));
  }

  /** A line that fails decides the outcome: later lines cannot repair it. */
  lemma {:induction false} ParseEntriesErrSticks(lines: seq<string>, j: nat)
    requires j <= |lines| && ParseEntries(lines[..j]).Err?
    ensures ParseEntries(lines) == ParseEntries(lines[..j])
    decreases |lines|
  {
    if j < |lines| {
      var init := lines[..|lines| - 1];
      assert init[..j] == lines[..j];
      ParseEntriesErrSticks(init, j);
    } else {
      assert lines[..j] == lines;
    }
  }

  /** A decklist file's lines, one per entry. */
  function FormatLines(es: seq<DeckEntry>): (lines: seq<string>)
    ensures |lines| == |es|
  {
    if es == [] then [] else FormatLines(es[..|es| - 1]) + [FormatLine(es[|es| - 1])]
  }

  /** Writing entries out as lines and parsing them gives the entries back. */
  lemma {:induction false} ParseFormatLines(es: seq<DeckEntry>)
    requires forall i :: 0 <= i < |es| ==> IsTrimmed(es[i].name)
    ensures ParseEntries(FormatLines(es)) == Ok(es)
  {
    if es != [] {
      var init, last := es[..|es| - 1], es[|es| - 1];
      assert init + [last] == es;
      var lines := FormatLines(es);
      assert forall i :: 0 <= i < |init| ==> init[i] == es[i];
      ParseFormatLines(init);
      assert lines[..|lines| - 1] == FormatLines(init);
      assert lines[|lines| - 1] == FormatLine(last);
      ParseFormatLine(last);
    }
  }

  /** So a written decklist parses to the expanded cards: each line contributes `count`
      copies of its name, and the deck has TotalCount(es) cards. */
  lemma DecklistRoundTrip(es: seq<DeckEntry>)
    requires forall i :: 0 <= i < |es| ==> IsTrimmed(es[i].name)
    ensures Decklist(FormatLines(es)) == Ok(Expand(es))
    ensures |Expand(es)| == TotalCount(es)
  {
    ParseFormatLines(es);
    ExpandLength(es);
  }

  /** The parsing loop of `from_file`, over the lines `readlines` returned. */
  method ParseDecklist(lines: seq<string>) returns (r: Result<seq<string>>)
    ensures r == Decklist(lines)
  {
    var cards: seq<string> := [];
    ghost var es: seq<DeckEntry> := [];
    var i := 0;
    while i < |lines|
      invariant 0 <= i <= |lines|
      invariant ParseEntries(lines[..i]) == Ok(es) && cards == Expand(es)
    {
      assert lines[..i + 1][..i] == lines[..i];
      match ParseLine(lines[i])
      case Err(e) =>
        ParseEntriesErrSticks(lines, i + 1);
        return Err(e);
      case Ok(entry) =>
        cards := cards + Repeat(entry.name, entry.count);
        assert (es + [entry])[..|es|] == es;
        es := es + [entry];
      i := i + 1;
    }
    assert lines[..i] == lines;
    r := Ok(cards);
  }

  /** `from_file` without the file access: parse the lines, build the deck, and shuffle it
      with js unless told not to. */
  method FromDecklist(lines: seq<string>, shuffle: bool, js: seq<int>) returns (r: Result<Deck>)
    requires shuffle && Decklist(lines).Ok? ==> ValidChoices(|Decklist(lines).value|, js)
    ensures r.Err? <==> Decklist(lines).Err?
    ensures r.Err? ==> r.error == Decklist(lines).error
    ensures r.Ok? ==> fresh(r.value) && r.value.hands == map[] && r.value.waiting == []
    ensures r.Ok? ==> r.value.cards == (if shuffle then Shuffled(Decklist(lines).value, js, 0) else Decklist(lines).value)
  {
    var parsed := ParseDecklist(lines);
    match parsed
    case Err(e) =>
      r := Err(e);
    case Ok(cards) =>
      var deck := new Deck(cards);
      if shuffle {
        deck.Shuffle(js);
      }
      r := Ok(deck);
  }
}
