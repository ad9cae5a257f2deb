/** Wire vocabulary shared by the chat client and the chat server: text frames,
    the reserved end-of-stream marker, and in-order concatenation of frames. */
module Protocol {

  /** A value that may be absent (a missing dict key, an optional field). */
  datatype Option<+T> = None | Some(value: T)

  /** The reserved frame that ends one streamed reply (five characters). */
  const EndMarker: string := "[END]"

  /** The strings of `parts` joined in order with nothing between them. */
  function Concat(parts: seq<string>): string
  {
    if parts == [] then "" else parts[0] + Concat(parts[1..])
  }

  /** True when `frames` holds no end marker, so every frame is content. */
  predicate AllContent(frames: seq<string>)
  {
    forall i :: 0 <= i < |frames| ==> frames[i] != EndMarker
  }

  /** Concatenation distributes over sequence append. */
  lemma {:induction false} ConcatAppend(a: seq<string>, b: seq<string>)
    ensures Concat(a + b) == Concat(a) + Concat(b)
  {
    if a == [] {
      assert a + b == b;
    } else {
      assert (a + b)[1..] == a[1..] + b;
      ConcatAppend(a[1..], b);
    }
  }
}
