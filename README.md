# One with Death — card engine model

A Dafny model of the in-memory card engine of the "One with Death" Discord bot (Python,
`bot/lib/`). The bot runs a shared "Deck of Death" library for a tabletop game.

- **The deck.** It is a draw pile with index 0 on top. Each member has a hand, keyed by the string form of their member id. A stack holds the "One with Death" cards drawn but not yet resolved. Members draw, peek, shuffle, reorder the top cards, play cards from their hand, resolve drawn "One with Death" cards (which go back into the pile) and buy back played cards.
- **The graveyard.** Cards are appended to it and can be flashed back out.
- **Name matching.** The deck's operations compare sanitized names, ignoring case and quotes. The graveyard and `find_card_index` compare only under `lower()`, so quotes still matter there. They are formatted as Markdown code blocks and turned into image file stems.

Modules, one per source file:

| file | module | source | form |
|---|---|---|---|
| `common.dfy` | `Common` | — | `Option`, `Result`, the error kinds the code raises, and `RemoveAt` (Python's `list.pop(i)`) |
| `numerals.dfy` | `Numerals` | `str(int)` / `int(str)` | functions |
| `util.dfy` | `Util` | `bot/lib/util.py` | functions and lemmas |
| `card_group.dfy` | `CardGroups` | `bot/lib/card_group.py` | functions and lemmas |
| `card_image.dfy` | `CardImage` | `bot/lib/card_image.py` | functions and lemmas |
| `formatting.dfy` | `Formatting` | `bot/lib/formatting.py` | functions and lemmas |
| `deck.dfy` | `Decks` | `bot/lib/deck.py` | class `Deck` with `seq`/`map` fields; spec functions and lemmas |
| `graveyard.dfy` | `Graveyards` | `bot/lib/graveyard.py` | class `Graveyard` with a `seq` field |

How the model represents the environment:

- **Randomness.** `shuffle` calls `randint(i, len(cards) - 1)` once per step. The model takes a caller-supplied choice sequence `js` instead, and `ValidChoices(n, js)` requires each `js[i]` to lie in `[i, n-1]`. `Shuffled(s, js, 0)` is the resulting order. Every property proved of a shuffle therefore holds for every outcome of the random source.
- **Member ids.** `draw`, `buyback` and `get_hand` convert the member id with `str(member_id)` and key the hand by that string. `play` also converts it (line 93) and looks the hand up by the string (line 95), but pops from `_hands[member_id]` with the int id (line 100). `peek`, `shuffle`, `reorder` and `resolve` take no member id. The model's `MemberId` is that string. Only `Decks.PlayAsWritten` takes the int id, as a `nat`, and converts it with `Numerals.NatToString`.
- **Decklist files.** `Decks.FromDecklist` receives the lines that `readlines` would return.

Places where the code and its documentation differ; the model follows the code:

- `shuffle` loops for `i` in `range(len(cards) - 2)`. The last swap is therefore at `n - 3`, and it is not a full Fisher–Yates shuffle. Decks of at most two cards are never changed (`Decks.ShortDeckUnshuffled`). From `A B C` the order `A C B` can never result (`Decks.ThreeCardShuffleMissesOrders`).
- `resolve` returns a resolved "One with Death" at the bottom of the pile (`append`) and then shuffles. It is not placed on top.
- `buyback` validates nothing. Any card can be added to any member's hand.
- `find_card_index` (util.py) is documented as comparing sanitized names. It compares only `lower()`, so quotes still matter. `Graveyard.flashback` matches the same way. `Util.LowerKeepsQuotes` shows the difference.
- `deck.py` has its own copy of `sanitize_card_name` (lines 8-12), identical to util.py's. Both are `Util.Sanitize`.

Four places in the source cannot do what they evidently mean to do. Each is modelled twice, as written and as intended (see "## Findings"). The rest of the model uses the intended versions.

## Model

| member | source | states |
|---|---|---|
| Common.RemoveAt | bot/lib/deck.py:100 | `pop(i)`: one shorter, elements before `i` kept, elements after shifted down, and together with the removed element the multiset is unchanged |
| Numerals.NatToString | bot/lib/deck.py:28 | `str(member_id)` for a non-negative id is a digit string without spaces or newlines |
| Numerals.ParseNat | bot/lib/deck.py:157 | `int(text)` succeeds exactly on non-empty digit strings |
| Numerals.ParseNatToString | bot/lib/deck.py:157 | `int(str(n)) == n`: parsing the written count gives it back |
| Util.LowerChar | bot/lib/util.py:5 | `lower()` of one character is never an upper-case letter |
| Util.Lower | bot/lib/util.py:5 | `lower()` keeps the length and lowers every character in place |
| Util.RemoveChar | bot/lib/util.py:5 | `replace(ch, '')` leaves no `ch`, never grows the name and adds no character |
| Util.Sanitize | bot/lib/util.py:1-5 | A sanitized name has no upper-case letter and no quote, and is no longer than the name |
| Util.RemoveCharAbsent | bot/lib/util.py:5 | Removing a character that does not occur changes nothing |
| Util.RemoveCharAppend | bot/lib/util.py:5 | Removing a character distributes over concatenation |
| Util.SanitizeFixes | bot/lib/util.py:1-5 | A name with no upper-case letter and no quote is its own sanitized form |
| Util.SanitizeIdempotent | bot/lib/util.py:1-5 | Sanitizing twice is sanitizing once |
| Util.SanitizeAppend | bot/lib/util.py:1-5 | Sanitizing distributes over concatenation |
| Util.SameCardIgnoresCase | bot/lib/util.py:2-5 | A name and its lower-cased form are the same card |
| Util.SameCardIgnoresQuotes | bot/lib/util.py:2-5 | Inserting a quote anywhere in a name gives the same card |
| Util.SameIgnoringCaseIsSameCard | bot/lib/util.py:5 | Names equal under `lower()` are also equal when sanitized |
| Util.LowerKeepsQuotes | bot/lib/util.py:8-16 | Inserting a quote gives the same card, yet the `lower()` comparison of `find_card_index` tells the two names apart |
| Util.FindCardIndex | bot/lib/util.py:8-16 | -1 exactly when no card equals the name under `lower()`; otherwise the first such index |
| CardGroups.Find | bot/lib/card_group.py:10-16 | None exactly when no card sanitize-matches; otherwise a card of the group that matches |
| CardGroups.Index | bot/lib/card_group.py:18-24 | None exactly when no card sanitize-matches; otherwise the first matching index |
| CardGroups.FindAtIndex | bot/lib/card_group.py:10-24 | `find` and `index` agree: `find` returns the card at the position `index` reports |
| CardImage.ReplaceChar | bot/lib/card_image.py:9 | `replace(' ', '_')` keeps the length and replaces exactly the spaces |
| CardImage.SnakeCase | bot/lib/card_image.py:8-9 | An image stem has no spaces, upper-case letters or quotes, and is as long as the sanitized name |
| CardImage.SnakeCaseIdempotent | bot/lib/card_image.py:8-9 | Converting a stem again changes nothing |
| CardImage.SameCardSameFile | bot/lib/card_image.py:8-9 | Two names for the same card map to the same image file |
| Formatting.SplitLines | bot/lib/formatting.py:5 | Splitting text at newlines gives at least one line (the inverse of `'\n'.join`) |
| Formatting.CardLines | bot/lib/formatting.py:5-9 | Line `i` is card `i`, prefixed with `i+1. ` when numbering |
| Formatting.FormatCardList | bot/lib/formatting.py:1-12 | The output opens with the fence and a newline and closes with a newline and the fence |
| Formatting.NumberedFormatAsWrittenFails | bot/lib/formatting.py:6 | As written, numbering a non-empty list raises a TypeError; without numbers the output is the intended one |
| Formatting.SplitNoNewline | bot/lib/formatting.py:5 | A name without a newline is one line |
| Formatting.SplitAfterLine | bot/lib/formatting.py:5 | A line followed by a newline splits off as the first line |
| Formatting.SplitJoin | bot/lib/formatting.py:5 | Splitting the joined lines gives back the lines when none contains a newline |
| Formatting.PlainBody | bot/lib/formatting.py:1-12 | The unnumbered block's body is the card names joined by newlines, in order |
| Formatting.PlainListRoundTrip | bot/lib/formatting.py:1-12 | Splitting the unnumbered block's body gives back a non-empty list of newline-free names |
| Formatting.Join | bot/lib/formatting.py:5 | Joining newline-free lines puts exactly one newline between consecutive lines: `n - 1` newlines for `n` lines |
| Formatting.FormatCardListAsWritten | bot/lib/formatting.py:1-12 | As written: TypeError exactly when numbering a non-empty list; otherwise the unnumbered rendering |
| Formatting.EmptyList | bot/lib/formatting.py:1-12 | An empty list gives the fence, an empty line and the fence |
| Formatting.NumberedLines | bot/lib/formatting.py:1-12 | The numbered block has one line per card, and line `i` reads `i+1. ` followed by card `i` |
| Decks.NonOwd | bot/lib/deck.py:33 | The cards kept for the hand contain no "One with Death" and are all other drawn cards, with multiplicity; a single card is kept exactly when it is not "One with Death" |
| Decks.NonOwdAppend | bot/lib/deck.py:33 | The filter keeps the draw order: filtering a concatenation is filtering each part in turn (with `NonOwd`'s one-card case this fixes the result completely) |
| Decks.OwdOnly | bot/lib/deck.py:38 | The cards set aside are exactly the drawn copies of "One with Death" |
| Decks.DrawSplitConserves | bot/lib/deck.py:33-38 | Hand part and resolve part together are the drawn cards |
| Decks.DrawConserves | bot/lib/deck.py:29-38 | Drawing moves cards between pile, hand and resolve stack without losing or creating any |
| Decks.Swap | bot/lib/deck.py:61 | A swap keeps the length and the multiset of cards |
| Decks.Shuffled | bot/lib/deck.py:54-61 | Every shuffle outcome keeps the length and is a permutation of the deck |
| Decks.ShortDeckUnshuffled | bot/lib/deck.py:58-59 | A deck of at most two cards is left in its order |
| Decks.ValidChoices | bot/lib/deck.py:59-60 | The possible outcomes of `randint(i, len(cards) - 1)`: one value in `[i, n-1]` for each step `i < n - 2` |
| Decks.ThreeCardShuffleMissesOrders | bot/lib/deck.py:59 | No choice of random values turns `A B C` into `A C B` |
| Decks.SanitizeAll | bot/lib/deck.py:71 | The sanitized names, position by position |
| Decks.SameNames | bot/lib/deck.py:71 | The intended guard: the two lists hold the same sanitized names with the same multiplicities |
| Decks.Respell | bot/lib/deck.py:76-84 | Each new top card takes the spelling of a matching card from the current top |
| Decks.RespellAt | bot/lib/deck.py:76-84 | Respelled card `i` is the card `find` returns for request `i` |
| Decks.RespellTakesFirst | bot/lib/deck.py:76-84 | Each respelled card is the first top card, by position, that sanitize-matches its request, as the `[0]` of line 81 picks it |
| Decks.SameNamesAllFound | bot/lib/deck.py:71-84 | When the guard holds, every requested card has a match on top |
| Decks.RespellKeepsNames | bot/lib/deck.py:76-84 | The respelled top has the requested names once sanitized |
| Decks.SameNamesLength | bot/lib/deck.py:71 | Cards that pass the guard are as many as the current top |
| Decks.ReorderKeepsDeckNames | bot/lib/deck.py:64-86 | After a reorder the deck holds the same cards by sanitized name |
| Decks.SanitizeAllAppend | bot/lib/deck.py:71 | Sanitizing a list distributes over concatenation |
| Decks.SanitizeAllRemoveAt | bot/lib/deck.py:76-84 | Removing a card and then sanitizing equals sanitizing and then removing |
| Decks.NameInPool | bot/lib/deck.py:76-84 | A requested name that passes the guard occurs in the remaining top cards |
| Decks.SameNamesRemove | bot/lib/deck.py:76-84 | Taking one matched card from both sides keeps the guard true for the rest |
| Decks.AllFoundTail | bot/lib/deck.py:76-84 | If all requested cards are found, so are all but the first |
| Decks.RespellFromPool | bot/lib/deck.py:76-84 | When spellings are consistent, respelling draws a permutation of the current top |
| Decks.RespellPermutes | bot/lib/deck.py:76-84 | With consistent spellings the respelled top is a permutation of the current top |
| Decks.ReorderPermutesDeck | bot/lib/deck.py:64-86 | With consistent spellings a reorder is a permutation of the whole deck |
| Decks.Deck.GetHand | bot/lib/deck.py:132-138 | The member's stored hand, or the empty hand for a member who never drew |
| Decks.Deck.Peek | bot/lib/deck.py:44-51 | The top `min(n, len(cards))` cards, in order |
| Decks.Deck.Draw | bot/lib/deck.py:23-41 | Draws the top `min(n, len)` cards and appends the non-OWD ones to the hand (creating it if needed) and the OWD ones to the resolve stack; the three places together keep their cards |
| Decks.Deck.Shuffle | bot/lib/deck.py:54-61 | The new order is `Shuffled` of the old one, hence a permutation; hands and stack untouched |
| Decks.Deck.Reorder | bot/lib/deck.py:64-86 | Intended behaviour: succeeds exactly when the new top has the names of the current top; then the top is replaced using the deck's spellings and the rest kept; otherwise nothing changes |
| Decks.Deck.Play | bot/lib/deck.py:91-102 | Fails exactly when no card in the hand sanitize-matches; otherwise removes and returns the first match, conserving the hand's cards (intended key) |
| Decks.Deck.Resolve | bot/lib/deck.py:105-116 | Fails exactly when nothing waiting matches; otherwise removes the first match, and a resolved "One with Death" goes to the bottom of the pile, which is then shuffled |
| Decks.Deck.TakeWaiting | bot/lib/deck.py:106-111 | Fails exactly when nothing waiting sanitize-matches; otherwise removes and returns the first match; pile and hands untouched |
| Decks.Deck.ReturnToBottom | bot/lib/deck.py:112-114 | The pile becomes `Shuffled` of the old pile with "One with Death" appended, so it gains exactly that card |
| Decks.Deck.Buyback | bot/lib/deck.py:119-129 | Appends the card to the member's hand, creating it if needed; nothing else changes |
| Decks.PlayThenBuyback | bot/lib/deck.py:91-129 | A play followed by the buyback of the card played keeps the hand's cards, with the card now last |
| Decks.PlayAsWrittenNeverSucceeds | bot/lib/deck.py:100 | As written, `play` never succeeds, and a card that is in the hand raises KeyError |
| Decks.Chars | bot/lib/deck.py:79 | Iterating a name yields its characters as one-character strings |
| Decks.ReorderAsWrittenRejectsNames | bot/lib/deck.py:70-84 | As written, any reorder whose first card has a name of two or more characters once sanitized raises IndexError |
| Decks.ReorderAsWrittenAcceptsWrongTop | bot/lib/deck.py:70-86 | As written, the guard lets a wrong top through and the old suffix ends up nested |
| Decks.ReorderAsWritten | bot/lib/deck.py:64-86 | As written: succeeds exactly when the new top is shorter than the deck and every request sanitize-matches some character of the single card at position `len(new_top)`, and otherwise fails with IndexError; on success the result is one entry per requested card, each a one-character string of the single card at position `len(new_top)` that sanitize-matches the request, followed by the old suffix nested as one element |
| Decks.PlayAsWritten | bot/lib/deck.py:91-102 | As written, `play` always fails: NotInHand when no card of the string-keyed hand matches, and KeyError exactly when one does |
| Decks.StripLeft | bot/lib/deck.py:158 | Leaves a suffix of the text that does not start with whitespace; every character removed is whitespace |
| Decks.StripRight | bot/lib/deck.py:158 | Leaves a prefix of the text that does not end with whitespace; every character removed is whitespace |
| Decks.Strip | bot/lib/deck.py:158 | `strip()` leaves no whitespace at either end, and the result is a contiguous part of the text with only whitespace before and after it |
| Decks.StripPadded | bot/lib/deck.py:158 | Stripping the right then the left end removes only whitespace on both sides |
| Decks.StripTrimmed | bot/lib/deck.py:158 | Text with no whitespace at either end is unchanged by `strip()` |
| Decks.StripTrailingSpace | bot/lib/deck.py:158 | A trailing whitespace character, such as the newline `readlines` keeps, does not change the stripped text |
| Decks.FirstIndexOf | bot/lib/deck.py:155 | `index(" ")` is the position of the first space |
| Decks.ParseLine | bot/lib/deck.py:155-158 | Without a space the line is a NoDelimiter error; a line with a space can only fail with NotANumber; a parsed entry's name is trimmed (the result of every line with a space is fixed by `Decks.ParseLineSplit`) |
| Decks.ParseLineSplit | bot/lib/deck.py:155-158 | A line made of a space-free count, a space and a rest parses exactly when the count is a digit string, to that count and the stripped rest; otherwise it is the count's ValueError |
| Decks.ParseFormatLine | bot/lib/deck.py:155-158 | A line written as count, space, name, newline parses back to the same count and name |
| Decks.Repeat | bot/lib/deck.py:158 | `[name] * n` is `n` copies of the name |
| Decks.Expand | bot/lib/deck.py:154-158 | Every card of the expanded deck is the name of some entry |
| Decks.ParseEntries | bot/lib/deck.py:154-158 | A successful parse has one entry per line |
| Decks.Decklist | bot/lib/deck.py:154-158 | Loading succeeds exactly when every line parses, and then holds as many cards as the counts add up to |
| Decks.ExpandLength | bot/lib/deck.py:154-158 | The deck has as many cards as the counts add up to |
| Decks.CollectLineByLine | bot/lib/deck.py:154-158 | Gathering per-line results succeeds exactly when every result is Ok, and then holds each line's value at its position |
| Decks.Results | bot/lib/deck.py:155-158 | The parse result of each line, position by position |
| Decks.ParseEntriesIsCollect | bot/lib/deck.py:154-158 | Parsing the lines is gathering the per-line parse results |
| Decks.ParseEntriesLineByLine | bot/lib/deck.py:154-158 | Parsing succeeds exactly when every line parses, and then entry `i` comes from line `i` |
| Decks.ParseEntriesErrSticks | bot/lib/deck.py:154-158 | The first failing line decides the error; later lines do not matter |
| Decks.FormatLines | bot/lib/deck.py:152 | One decklist line per entry |
| Decks.ParseFormatLines | bot/lib/deck.py:154-158 | Writing entries as lines and parsing them gives back the entries |
| Decks.DecklistRoundTrip | bot/lib/deck.py:141-160 | A written decklist loads as each name repeated its count, TotalCount cards in all |
| Decks.ParseDecklist | bot/lib/deck.py:150-158 | The parsing loop computes `Decklist(lines)`: the expanded cards, or the first line's error |
| Decks.FromDecklist | bot/lib/deck.py:141-165 | Fails exactly when parsing fails; otherwise a fresh deck with no hands and nothing waiting, holding the parsed cards, shuffled when asked |
| Graveyards.Graveyard.constructor | bot/lib/graveyard.py:6 | A new graveyard is empty |
| Graveyards.Graveyard.Insert | bot/lib/graveyard.py:8-9 | The card is appended |
| Graveyards.Graveyard.Flashback | bot/lib/graveyard.py:11-17 | Intended behaviour: fails exactly when no card equals the name under `lower()`; otherwise removes and returns the first such card, conserving the rest |
| Graveyards.InsertThenFlashback | bot/lib/graveyard.py:8-17 | A card just inserted can always be flashed back, and when no older card matches, the same card comes back and the graveyard is as before |
| Graveyards.FlashbackAsWrittenFails | bot/lib/graveyard.py:17 | As written, flashing back a card that is present raises a TypeError |
| Graveyards.FlashbackAsWritten | bot/lib/graveyard.py:11-17 | As written, `flashback` always fails: "not in the graveyard" exactly when no card equals the name under `lower()`, TypeError otherwise |
| Util.FindCardIndexIgnoresCase | bot/lib/graveyard.py:12 | Any two names equal under `lower()` find the same position in every list, so `flashback` treats them alike |
| CardGroups.LookupsIgnoreCaseAndQuotes | bot/lib/card_group.py:10-24 | Any two names with the same sanitized form get the same `find` and `index` results in every group, so `play` and `resolve` treat them alike |
| Decks.Deck.constructor | bot/lib/deck.py:15-21 | A new deck holds the given cards, no hands and nothing waiting |

## Left out

- **File access in `from_file`.** The existence check and `FileNotFoundError` are not modelled. `Decks.FromDecklist` receives the lines `readlines` would return.
- **Randomness.** `randint` is replaced by the caller-supplied choice sequence described above.
- **`get_image_file_location`** (card_image.py:12-16) only joins a path and checks the file system, so it is not modelled. Only the stem `CardImage.SnakeCase` is.
- **`print` calls and the unused `_drawn_cards` field** do not affect the cards, so they are not modelled.
- **Aliasing.** `peek` (when the deck is short) and `get_hand` return the stored list itself, so a caller could mutate the deck through the result. The model returns values.
- **Unicode.** `lower()` is modelled for ASCII `A`-`Z` only; other Unicode case mappings are not modelled. `strip()` removes exactly the characters Python's `str.isspace()` accepts.
- Numerals.ParseNat: models `int()` on digit strings only. It does not accept signs, surrounding whitespace, `_` separators or non-ASCII decimal digits (such as Arabic-Indic digits, which `int()` accepts). A negative count, which would give `[name] * n == []`, is not representable.
- **Integer types.** Draw and peek counts are `nat`; Python's behaviour for negative `num_cards` (slicing from the end) is not modelled. Member ids are their `str()` form, as described above; the int id appears only in `Decks.PlayAsWritten`, as a `nat`, so negative ids are not modelled.
- Decks.Deck.Reorder: specifies the intended check as "same multiset of sanitized names", the evident meaning of line 71. It does not model the sort order of unsanitized names.
- Decks.ReorderPermutesDeck: proves "a permutation of the deck" only when the top cards spell each name consistently. Otherwise respelling picks the first spelling found.
- **The rest of the bot.** These are not part of this model: the Discord commands (`bot.py`, `bot/bot.py`), game-state persistence and its JSON round-trip (`bot/lib/game_state.py`, `bot/models.py`), and `bot/lib/card_lists.py`, `bot/lib/messages.py`, `bot/lib/discord.py` and `bot/constants.py`.
- **Features with no code.** Mill, tracking of the last played card, a scry that splits cards between top and bottom, and any locking. The source also lacks a "Nix" card seeded into each member's hand by `from_file`, pulling a graveyard card by name or by index, a query for recurrable cards, and eligibility checks on buyback and on flashback. The source has no code for these, so there is nothing to model.
- **Concurrency.** Concurrent access from several Discord handlers is outside the model.

## Findings

| source | as written | input that shows it | evidently intended | confidence | as-written member | corrected member |
|---|---|---|---|---|---|---|
| bot/lib/deck.py:70-71,86 | `cards[k]` indexes a single card where a slice is meant; the guard compares against a list holding a generator, so the comparison is always unequal; the guard is also inverted, since `cards_match` holds the `!=` result and line 72 raises on `not cards_match`, so it never triggers; the old suffix is nested as one element | `reorder(["y"])` on the deck `x, y` yields `["y", ["y"]]`; any real card name (two or more characters once sanitized) raises IndexError | replace the top `k` cards when they are the same cards by name, otherwise refuse | not executed | Decks.ReorderAsWrittenAcceptsWrongTop | Decks.Deck.Reorder |
| bot/lib/deck.py:100 | `_hands[member_id]` uses the int id, but the keys are `str(member_id)` | any member playing a card that is in their hand gets KeyError | `_hands[member_id_str]` | not executed | Decks.PlayAsWrittenNeverSucceeds | Decks.Deck.Play |
| bot/lib/graveyard.py:17 | `pop` receives the whole list of matching indexes | flashback of any card that is in the graveyard raises TypeError | pop the first matching index | not executed | Graveyards.FlashbackAsWrittenFails | Graveyards.Graveyard.Flashback |
| bot/lib/formatting.py:6 | `(i + 1) + '. '` adds an int and a str | `format_card_list(["x"], True)` raises TypeError | `f"{i + 1}. "` | not executed | Formatting.NumberedFormatAsWrittenFails | Formatting.NumberedLines |
