/** The server's simulated streaming: a reply is split at every single space
    and sent word by word, every word after the first carrying its space in
    front (server/main.py, the loop after `response_text.split(" ")`). */
module Chunker {
  import opened Protocol

  const Space: char := ' '

  /** No word contains a space. */
  predicate SpaceFree(words: seq<string>)
  {
    forall i :: 0 <= i < |words| ==> Space !in words[i]
  }

  /** Every frame starts with a space. */
  predicate SpacePrefixed(frames: seq<string>)
  {
    forall i :: 0 <= i < |frames| ==> |frames[i]| >= 1 && frames[i][0] == Space
  }

  /** The words of `text` as Python's `str.split(" ")` yields them: cut at
      every single space, keeping empty words, so `""` gives `[""]` and
      two adjacent spaces give an empty word between them. */
  function Split(text: string): (words: seq<string>)
    ensures |words| >= 1
    ensures SpaceFree(words)
    decreases |text|
  {
    if text == [] then [""]
    else
      var rest := Split(text[1..]);
      if text[0] == Space then [""] + rest
      else [[text[0]] + rest[0]] + rest[1..]
  }

  /** The inverse of `Split`: words rejoined with one space between neighbours. */
  function Join(words: seq<string>): string
    requires |words| >= 1
    decreases |words|
  {
    if |words| == 1 then words[0] else words[0] + [Space] + Join(words[1..])
  }

  /** Every word sent after the first one, with its leading space restored. */
  function Spaced(words: seq<string>): seq<string>
  {
    seq(|words|, i requires 0 <= i < |words| => [Space] + words[i])
  }

  /** The frames the server sends for one reply, before the end marker:
      the first word bare, every later word as `" " + word`. */
  function Chunks(text: string): (chunks: seq<string>)
    ensures |chunks| >= 1
    ensures Space !in chunks[0]
    ensures SpacePrefixed(chunks[1..])
    ensures AllContent(chunks[1..])
  {
    var words := Split(text);
    var chunks := [words[0]] + Spaced(words[1..]);
    assert chunks[1..] == Spaced(words[1..]);
    assert EndMarker[0] != Space;
    chunks
  }

  /** Rejoining the words of a text gives the text back. */
  lemma {:induction false} JoinSplit(text: string)
    ensures Join(Split(text)) == text
    decreases |text|
  {
    if text != [] {
      var c, tail := text[0], text[1..];
      JoinSplit(tail);
      assert text == [c] + tail;
      if c == Space {
        JoinEmptyFirst(Split(tail));
      } else {
        JoinGlued(c, Split(tail));
      }
    }
  }

  /** An empty first word contributes only the space after it. */
  lemma JoinEmptyFirst(rest: seq<string>)
    requires |rest| >= 1
    ensures Join([""] + rest) == [Space] + Join(rest)
  {
    assert ([""] + rest)[1..] == rest;
  }

  lemma GlueSpaced(c: char, w: string, tail: string)
    ensures ([c] + w) + [Space] + tail == [c] + (w + [Space] + tail)
  {
  }

  /** A character glued to the first word shows up in front of the join. */
  lemma JoinGlued(c: char, rest: seq<string>)
    requires |rest| >= 1
    ensures Join([[c] + rest[0]] + rest[1..]) == [c] + Join(rest)
  {
    var words := [[c] + rest[0]] + rest[1..];
    if |rest| > 1 {
      assert words[1..] == rest[1..];
      GlueSpaced(c, rest[0], Join(rest[1..]));
    }
  }

  /** A space-free prefix glues onto the first word of what follows it. */
  lemma {:induction false} SplitPrefix(w: string, t: string)
    requires Space !in w
    ensures Split(w + t) == [w + Split(t)[0]] + Split(t)[1..]
    decreases |w|
  {
    if w == [] {
      assert w + t == t;
      assert w + Split(t)[0] == Split(t)[0];
    } else {
      assert (w + t)[0] == w[0];
      assert (w + t)[1..] == w[1..] + t;
      SplitPrefix(w[1..], t);
      assert [w[0]] + (w[1..] + Split(t)[0]) == w + Split(t)[0];
    }
  }

  /** Splitting a join of space-free words gives the words back. */
  lemma {:induction false} SplitJoin(words: seq<string>)
    requires |words| >= 1
    requires SpaceFree(words)
    ensures Split(Join(words)) == words
    decreases |words|
  {
    if |words| == 1 {
      SplitPrefix(words[0], "");
      assert words[0] + "" == words[0];
    } else {
      var tail := Join(words[1..]);
      SplitJoin(words[1..]);
      assert Join(words) == words[0] + ([Space] + tail);
      SplitPrefix(words[0], [Space] + tail);
      assert ([Space] + tail)[1..] == tail;
      assert Split([Space] + tail) == [""] + words[1..];
      assert words[0] + "" == words[0];
      assert words == [words[0]] + words[1..];
    }
  }

  /** The spaced frames of later words concatenate to a space and their join. */
  lemma {:induction false} ConcatSpaced(words: seq<string>)
    ensures Concat(Spaced(words)) == if words == [] then "" else [Space] + Join(words)
    decreases |words|
  {
    if words != [] {
      assert Spaced(words)[1..] == Spaced(words[1..]);
      ConcatSpaced(words[1..]);
    }
  }

  /** Concatenating the chunks of a reply gives the reply back exactly. */
  lemma ChunksConcat(text: string)
    ensures Concat(Chunks(text)) == text
  {
    var words := Split(text);
    assert Chunks(text)[1..] == Spaced(words[1..]);
    ConcatSpaced(words[1..]);
    JoinSplit(text);
  }

  /** A text with `n` spaces is split into `n + 1` words. */
  lemma {:induction false} SplitCount(text: string)
    ensures |Split(text)| == multiset(text)[Space] + 1
    decreases |text|
  {
    if text != [] {
      assert text == [text[0]] + text[1..];
      assert multiset(text) == multiset{text[0]} + multiset(text[1..]);
      SplitCount(text[1..]);
    }
  }

  /** A reply with `n` spaces is sent as `n + 1` chunks, so an empty reply
      is sent as the single chunk `""`. */
  lemma ChunkCount(text: string)
    ensures |Chunks(text)| == multiset(text)[Space] + 1
    ensures text == "" ==> Chunks(text) == [""]
  {
    SplitCount(text);
  }

  /** The first word of a text is its longest space-free prefix. */
  lemma {:induction false} SplitFirst(text: string)
    ensures Split(text)[0] <= text
    ensures |Split(text)[0]| == |text| || text[|Split(text)[0]|] == Space
    decreases |text|
  {
    if text != [] {
      SplitFirst(text[1..]);
      assert text == [text[0]] + text[1..];
    }
  }

  /** The reply's first word is the end marker: the reply is the marker
      itself or starts with the marker and a space. */
  predicate CollidesWithMarker(text: string)
  {
    text == EndMarker || (|text| > |EndMarker| && text[..|EndMarker| + 1] == EndMarker + [Space])
  }

  /** The first chunk equals the end marker exactly when the reply collides
      with it. */
  lemma FirstChunkIsMarker(text: string)
    ensures Chunks(text)[0] == EndMarker <==> CollidesWithMarker(text)
  {
    assert Space !in EndMarker by {
      assert EndMarker == ['[', 'E', 'N', 'D', ']'];
    }
    if text == EndMarker {
      SplitPrefix(EndMarker, "");
      assert EndMarker + "" == EndMarker;
    } else if |text| > |EndMarker| && text[..|EndMarker| + 1] == EndMarker + [Space] {
      var rest := text[|EndMarker| + 1..];
      assert text == EndMarker + ([Space] + rest);
      SplitPrefix(EndMarker, [Space] + rest);
      assert ([Space] + rest)[1..] == rest;
      assert EndMarker + "" == EndMarker;
    } else {
      SplitFirst(text);
    }
  }
}
