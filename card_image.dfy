/** The file-name form of a card name (bot/lib/card_image.py). */
module CardImage {
  import opened Util

  /** `str.replace(old, new)` for single characters. */
  function ReplaceChar(s: string, from: char, to: char): (r: string)
    ensures |r| == |s|
    ensures forall i :: 0 <= i < |s| ==> r[i] == (if s[i] == from then to else s[i])
  {
    seq(|s|, i requires 0 <= i < |s| => if s[i] == from then to else s[i])
  }

  /** `card_name_to_snake_case`: the sanitized name with every space turned into `_`. */
  function SnakeCase(name: string): (r: string)
    ensures ' ' !in r
    ensures forall c :: c in r ==> !IsUpper(c) && !IsQuote(c)
    ensures |r| == |Sanitize(name)|
  {
    ReplaceChar(Sanitize(name), ' ', '_')
  }

  /** A snake-cased name is a fixed point: converting it again changes nothing. */
  lemma SnakeCaseIdempotent(name: string)
    ensures SnakeCase(SnakeCase(name)) == SnakeCase(name)
  {
    var s := SnakeCase(name);
    SanitizeFixes(s);
    assert ReplaceChar(s, ' ', '_') == s;
  }

  /** Names that denote the same card share one image file name. */
  lemma SameCardSameFile(a: string, b: string)
    requires SameCard(a, b)
    ensures SnakeCase(a) == SnakeCase(b)
  {
  }
}
