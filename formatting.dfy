/** Rendering a card list as a Markdown code block (bot/lib/formatting.py). */
module Formatting {
  import opened Common
  import Numerals

  const Fence: string := "```"

  /** `'\n'.join(lines)`. */
  function Join(lines: seq<string>): (r: string)
    ensures (forall i :: 0 <= i < |lines| ==> '\n' !in lines[i]) ==> multiset(r)['\n'] == if lines == [] then 0 else |lines| - 1
  {
    if lines == [] then ""
    else if |lines| == 1 then lines[0]
    else
      assert forall i :: 0 <= i < |lines| - 1 ==> lines[1..][i] == lines[i + 1];
      lines[0] + "\n" + Join(lines[1..])
  }

  /** `s.split('\n')`: the pieces between newlines, always at least one. */
  function SplitLines(s: string): (r: seq<string>)
    ensures |r| >= 1
  {
    if s == [] then [""]
    else
      var rest := SplitLines(s[1..]);
      if s[0] == '\n' then [""] + rest else [[s[0]] + rest[0]] + rest[1..]
  }

  /** Line i of the list; with numbers it carries the intended prefix "(i+1). ". */
  function CardLine(i: nat, card: string, includeNumbers: bool): string
  {
    if includeNumbers then Numerals.NatToString(i + 1) + ". " + card else card
  }

  function CardLines(cards: seq<string>, includeNumbers: bool): (r: seq<string>)
    ensures |r| == |cards|
    ensures forall i :: 0 <= i < |cards| ==> r[i] == CardLine(i, cards[i], includeNumbers)
  {
    seq(|cards|, i requires 0 <= i < |cards| => CardLine(i, cards[i], includeNumbers))
  }

  /** `format_card_list` with the numbering the code intends: the lines joined by newlines,
      inside a code fence. */
  function FormatCardList(cards: seq<string>, includeNumbers: bool): (r: string)
    ensures |r| >= 8
    ensures r[..4] == Fence + "\n" && r[|r| - 4..] == "\n" + Fence
  {
    Fence + "\n" + Join(CardLines(cards, includeNumbers)) + "\n" + Fence
  }

  /** `format_card_list` as written: `(i + 1) + '. '` adds an int to a str, which raises a
      TypeError as soon as a numbered list has a line. */
  function FormatCardListAsWritten(cards: seq<string>, includeNumbers: bool): (r: Result<string>)
    ensures r.Err? <==> includeNumbers && cards != []
    ensures r.Err? ==> r.error == TypeMismatch
    ensures r.Ok? ==> r.value == FormatCardList(cards, false)
  {
    if includeNumbers && cards != [] then Err(TypeMismatch) else Ok(FormatCardList(cards, includeNumbers))
  }

  /** Every numbered rendering of a non-empty list fails as written. */
  lemma NumberedFormatAsWrittenFails(cards: seq<string>)
    requires cards != []
    ensures FormatCardListAsWritten(cards, true) == Err(TypeMismatch)
    ensures FormatCardListAsWritten(cards, false) == Ok(FormatCardList(cards, false))
  {
  }

  /** The text between the fences: what `FormatCardList` joined. */
  function Body(text: string): string
    requires |text| >= 8
  {
    text[4..|text| - 4]
  }

  lemma {:induction false} SplitNoNewline(w: string)
    requires '\n' !in w
    ensures SplitLines(w) == [w]
  {
    if w != [] {
      assert '\n' !in w[1..] by { assert forall k :: 0 <= k < |w[1..]| ==> w[1..][k] == w[k + 1]; }
      SplitNoNewline(w[1..]);
      assert [w[0]] + w[1..] == w;
    }
  }

  lemma {:induction false} SplitAfterLine(w: string, t: string)
    requires '\n' !in w
    ensures SplitLines(w + "\n" + t) == [w] + SplitLines(t)
  {
    if w == [] {
      assert w + "\n" + t == "\n" + t;
      assert ("\n" + t)[1..] == t;
    } else {
      assert '\n' !in w[1..] by { assert forall k :: 0 <= k < |w[1..]| ==> w[1..][k] == w[k + 1]; }
      SplitAfterLine(w[1..], t);
      assert (w + "\n" + t)[1..] == w[1..] + "\n" + t;
      assert [w[0]] + w[1..] == w;
    }
  }

  /** Splitting a joined list of newline-free lines gives the lines back. */
  lemma {:induction false} SplitJoin(lines: seq<string>)
    requires lines != []
    requires forall i :: 0 <= i < |lines| ==> '\n' !in lines[i]
    ensures SplitLines(Join(lines)) == lines
  {
    if |lines| == 1 {
      SplitNoNewline(lines[0]);
    } else {
      SplitJoin(lines[1..]);
      SplitAfterLine(lines[0], Join(lines[1..]));
      assert [lines[0]] + lines[1..] == lines;
    }
  }

  /** Without numbers the body is the card names joined by newlines, in their order. */
  lemma PlainBody(cards: seq<string>)
    ensures Body(FormatCardList(cards, false)) == Join(cards)
  {
    assert CardLines(cards, false) == cards;
  }

  /** A non-empty list of newline-free names is recovered by splitting the plain body. */
  lemma PlainListRoundTrip(cards: seq<string>)
    requires cards != []
    requires forall i :: 0 <= i < |cards| ==> '\n' !in cards[i]
    ensures SplitLines(Body(FormatCardList(cards, false))) == cards
  {
    PlainBody(cards);
    SplitJoin(cards);
  }

  /** An empty list renders as an empty code block, with or without numbers. */
  lemma EmptyList(includeNumbers: bool)
    ensures FormatCardList([], includeNumbers) == "```\n\n```"
  {
  }

  /** With numbers, line i of the body reads "(i+1). " followed by the i-th card. */
  lemma NumberedLines(cards: seq<string>)
    requires cards != []
    requires forall i :: 0 <= i < |cards| ==> '\n' !in cards[i]
    ensures |SplitLines(Body(FormatCardList(cards, true)))| == |cards|
    ensures forall i :: 0 <= i < |cards| ==>
      SplitLines(Body(FormatCardList(cards, true)))[i] == Numerals.NatToString(i + 1) + ". " + cards[i]
  {
    var lines := CardLines(cards, true);
    assert Body(FormatCardList(cards, true)) == Join(lines);
    forall i | 0 <= i < |lines| ensures '\n' !in lines[i] {
      assert lines[i] == Numerals.NatToString(i + 1) + ". " + cards[i];
    }
    SplitJoin(lines);
  }
}
