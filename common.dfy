/** Values shared by every component of the card engine: optional values, the
    domain errors the Python code raises, and removal of one list position. */
module Common {

  datatype Option<T> = None | Some(value: T)

  /** The exceptions the engine raises, one constructor per raise site. The last
      three are the Python runtime errors that the code as written runs into. */
  datatype Error =
    | NotInHand(card: string)            // ValueError in Deck.play
    | NotWaitingToResolve(card: string)  // ValueError in Deck.resolve
    | CardsDoNotMatch                    // ValueError in Deck.reorder
    | NotInGraveyard(card: string)       // ValueError in Graveyard.flashback
    | NoDelimiter(line: string)          // str.index finds no space in a decklist line
    | NotANumber(text: string)           // int() rejects a decklist count
    | TypeMismatch                       // TypeError
    | IndexOutOfRange                    // IndexError
    | KeyMissing                         // KeyError

  datatype Result<T> = Ok(value: T) | Err(error: Error)

  /** `list.pop(i)` seen from the list: position i is gone, the rest keeps its order. */
  function RemoveAt<T>(s: seq<T>, i: nat): (r: seq<T>)
    requires i < |s|
    ensures |r| == |s| - 1
    ensures forall k :: 0 <= k < i ==> r[k] == s[k]
    ensures forall k :: i <= k < |r| ==> r[k] == s[k + 1]
    ensures multiset(r) + multiset{s[i]} == multiset(s)
  {
    assert s == s[..i] + [s[i]] + s[i + 1..];
    s[..i] + s[i + 1..]
  }
}
