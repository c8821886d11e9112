/** The events of the synthesis pipeline (`core/Chunk`). */
module Chunks {
  import opened Bytes

  datatype BoundaryType = WordBoundary | SentenceBoundary

  /** A word or sentence boundary; offsets and durations count 100 ns ticks. */
  datatype Boundary = Boundary(kind: BoundaryType, text: Bytes, offset: int, duration: int) {
    function End(): int {
      offset + duration
    }
  }

  datatype TtsChunk = Audio(data: Bytes) | Mark(boundary: Boundary)

  function MarksOf(events: seq<TtsChunk>): seq<Boundary> {
    if events == [] then []
    else (if events[0].Mark? then [events[0].boundary] else []) + MarksOf(events[1..])
  }

  lemma {:induction false} MarksOfAppend(a: seq<TtsChunk>, b: seq<TtsChunk>)
    ensures MarksOf(a + b) == MarksOf(a) + MarksOf(b)
  {
    if a == [] {
      assert a + b == b;
    } else {
      assert (a + b)[1..] == a[1..] + b && (a + b)[0] == a[0];
      MarksOfAppend(a[1..], b);
      var first := if a[0].Mark? then [a[0].boundary] else [];
      assert MarksOf(a + b) == first + MarksOf(a[1..] + b);
      assert MarksOf(a) == first + MarksOf(a[1..]);
    }
  }

  /** The payloads of the audio chunks joined in order. */
  function AudioOf(events: seq<TtsChunk>): Bytes {
    if events == [] then []
    else (if events[0].Audio? then events[0].data else []) + AudioOf(events[1..])
  }

  lemma {:induction false} AudioOfAppend(a: seq<TtsChunk>, b: seq<TtsChunk>)
    ensures AudioOf(a + b) == AudioOf(a) + AudioOf(b)
  {
    if a == [] {
      assert a + b == b;
    } else {
      assert (a + b)[1..] == a[1..] + b && (a + b)[0] == a[0];
      AudioOfAppend(a[1..], b);
    }
  }
}
