/** Card-name comparison (bot/lib/util.py). Cards are plain name strings; two names
    denote the same card when their sanitized forms agree. */
module Util {

  predicate IsUpper(c: char) { 'A' <= c <= 'Z' }

  predicate IsQuote(c: char) { c == '\'' || c == '"' }

  /** `str.lower()` on one character, restricted to ASCII letters. */
  function LowerChar(c: char): (r: char)
    ensures !IsUpper(r)
  {
    if IsUpper(c) then (c as int - 'A' as int + 'a' as int) as char else c
  }

  /** `str.lower()`: every character lower-cased, length unchanged. */
  function Lower(s: string): (r: string)
    ensures |r| == |s|
    ensures forall i :: 0 <= i < |s| ==> r[i] == LowerChar(s[i])
  {
    seq(|s|, i requires 0 <= i < |s| => LowerChar(s[i]))
  }

  /** `str.replace(ch, '')`: every occurrence of ch dropped, the other characters kept in order. */
  function RemoveChar(s: string, ch: char): (r: string)
    ensures ch !in r && |r| <= |s|
    ensures forall c :: c in r ==> c in s
  {
    if s == [] then [] else (if s[0] == ch then [] else [s[0]]) + RemoveChar(s[1..], ch)
  }

  /** `sanitize_card_name`: lower-case, then drop every `'` and every `"`. */
  function Sanitize(name: string): (r: string)
    ensures forall c :: c in r ==> !IsUpper(c) && !IsQuote(c)
    ensures |r| <= |name|
  {
    RemoveChar(RemoveChar(Lower(name), '\''), '"')
  }

  /** The relation the Deck and CardGroup lookups use. */
  predicate SameCard(a: string, b: string) { Sanitize(a) == Sanitize(b) }

  /** The relation `find_card_index` and `Graveyard.flashback` use. */
  predicate SameIgnoringCase(a: string, b: string) { Lower(a) == Lower(b) }

  lemma {:induction false} RemoveCharAbsent(s: string, ch: char)
    requires ch !in s
    ensures RemoveChar(s, ch) == s
  {
    if s != [] {
      assert ch !in s[1..] by { assert forall c :: c in s[1..] ==> c in s; }
      RemoveCharAbsent(s[1..], ch);
    }
  }

  lemma {:induction false} RemoveCharAppend(a: string, b: string, ch: char)
    ensures RemoveChar(a + b, ch) == RemoveChar(a, ch) + RemoveChar(b, ch)
  {
    if a != [] {
      assert (a + b)[1..] == a[1..] + b;
      RemoveCharAppend(a[1..], b, ch);
    } else {
      assert a + b == b;
    }
  }

  /** A name that is already lower-case and quote-free is its own sanitized form. */
  lemma SanitizeFixes(s: string)
    requires forall c :: c in s ==> !IsUpper(c) && !IsQuote(c)
    ensures Sanitize(s) == s
  {
    assert Lower(s) == s;
    RemoveCharAbsent(s, '\'');
    RemoveCharAbsent(s, '"');
  }

  /** Sanitizing twice is sanitizing once. */
  lemma SanitizeIdempotent(name: string)
    ensures Sanitize(Sanitize(name)) == Sanitize(name)
  {
    SanitizeFixes(Sanitize(name));
  }

  /** Sanitizing works character by character, so it distributes over concatenation. */
  lemma SanitizeAppend(a: string, b: string)
    ensures Sanitize(a + b) == Sanitize(a) + Sanitize(b)
  {
    assert Lower(a + b) == Lower(a) + Lower(b);
    RemoveCharAppend(Lower(a), Lower(b), '\'');
    RemoveCharAppend(RemoveChar(Lower(a), '\''), RemoveChar(Lower(b), '\''), '"');
  }

  /** Case does not matter: a name and its lower-case form are the same card. */
  lemma SameCardIgnoresCase(name: string)
    ensures SameCard(Lower(name), name)
  {
    assert Lower(Lower(name)) == Lower(name);
  }

  /** Quotes do not matter: inserting a quote anywhere gives the same card. */
  lemma SameCardIgnoresQuotes(a: string, b: string, q: char)
    requires IsQuote(q)
    ensures SameCard(a + [q] + b, a + b)
  {
    SanitizeAppend(a + [q], b);
    SanitizeAppend(a, [q]);
    SanitizeAppend(a, b);
    SanitizeQuote(q);
    assert Sanitize(a) + Sanitize([q]) == Sanitize(a);
  }

  lemma SanitizeQuote(q: char)
    requires IsQuote(q)
    ensures Sanitize([q]) == []
  {
    assert Lower([q]) == [q];
    if q == '\'' {
      assert RemoveChar([q], '\'') == [];
    } else {
      assert RemoveChar([q], '\'') == [q];
      assert RemoveChar([q], '"') == [];
    }
  }

  /** Equal ignoring case implies the same card; find_card_index therefore matches no more
      than the sanitized lookups do. */
  lemma SameIgnoringCaseIsSameCard(a: string, b: string)
    requires SameIgnoringCase(a, b)
    ensures SameCard(a, b)
  {
  }

  /** The converse fails: `find_card_index` leaves quotes in place although its comment
      says it compares sanitized names, so a quote inside a name defeats it. */
  lemma LowerKeepsQuotes(a: string, b: string, q: char)
    requires IsQuote(q)
    ensures SameCard(a + [q] + b, a + b)
    ensures !SameIgnoringCase(a + [q] + b, a + b)
  {
    SameCardIgnoresQuotes(a, b, q);
    assert |Lower(a + [q] + b)| != |Lower(a + b)|;
  }

  /** `find_card_index`: the first position whose card equals the name ignoring case, or -1. */
  function FindCardIndex(name: string, cards: seq<string>): (r: int)
    ensures -1 <= r < |cards|
    ensures r == -1 <==> forall k :: 0 <= k < |cards| ==> !SameIgnoringCase(cards[k], name)
    ensures r >= 0 ==> SameIgnoringCase(cards[r], name)
    ensures r >= 0 ==> forall k :: 0 <= k < r ==> !SameIgnoringCase(cards[k], name)
  {
    if cards == [] then -1
    else if SameIgnoringCase(cards[0], name) then 0
    else
      var r := FindCardIndex(name, cards[1..]);
      if r == -1 then -1 else r + 1
  }

  /** The lookup depends on the name only through its lower-cased form: "NIX" and "nix" find
      the same position in every list. */
  lemma {:induction false} FindCardIndexIgnoresCase(a: string, b: string, cards: seq<string>)
    requires Lower(a) == Lower(b)
    ensures FindCardIndex(a, cards) == FindCardIndex(b, cards)
  {
    if cards != [] && !SameIgnoringCase(cards[0], a) {
      FindCardIndexIgnoresCase(a, b, cards[1..]);
    }
  }
}
