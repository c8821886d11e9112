/** When the words of a text survive chunking. */
module ChunkerWords {
  import opened Bytes
  import opened TextChunker
  import opened ChunkerProperties
  import Xml = XmlEscaper

  // ---- Words are not cut when they need not be --------------------------------------------------

  function RunLen(t: Bytes): (n: nat)
    requires t != [] && !IsStrip(t[0])
    ensures 1 <= n <= |t|
    ensures n < |t| ==> IsStrip(t[n])
    ensures forall k :: 0 <= k < n ==> !IsStrip(t[k])
  {
    if |t| == 1 || IsStrip(t[1]) then 1 else 1 + RunLen(t[1..])
  }

  /** The maximal runs of bytes that are not strip bytes. */
  function Words(t: Bytes): seq<Bytes> {
    if t == [] then []
    else if IsStrip(t[0]) then Words(t[1..])
    else [t[..RunLen(t)]] + Words(t[RunLen(t)..])
  }

  function WordsOfEach(chunks: seq<Bytes>): seq<Bytes> {
    if chunks == [] then [] else Words(chunks[0]) + WordsOfEach(chunks[1..])
  }

  lemma FirstWord(t: Bytes, n: nat)
    requires 1 <= n <= |t| && (n < |t| ==> IsStrip(t[n]))
    requires forall k :: 0 <= k < n ==> !IsStrip(t[k])
    ensures Words(t) == [t[..n]] + Words(t[n..])
  {
    RunLenIs(t, n);
  }

  lemma NoWords()
    ensures Words([]) == []
  {}

  lemma NoWordYet(t: Bytes)
    requires t != [] && IsStrip(t[0])
    ensures Words(t) == Words(t[1..])
  {}

  /** Next to a strip byte, or at an end, a cut separates words. */
  lemma {:induction false} WordsSeam(a: Bytes, b: Bytes)
    requires b == [] || IsStrip(b[0]) || a == [] || IsStrip(a[|a| - 1])
    ensures Words(a + b) == Words(a) + Words(b)
    decreases |a|
  {
    hide Words, IsStrip;
    if a == [] {
      NoWords();
      assert a + b == b;
    } else if IsStrip(a[0]) {
      NoWordYet(a);
      NoWordYet(a + b);
      assert (a + b)[1..] == a[1..] + b;
      WordsSeam(a[1..], b);
    } else {
      var n := RunLen(a);
      RunLenExtends(a, b);
      FirstWord(a, n);
      FirstWord(a + b, n);
      assert (a + b)[..n] == a[..n] && (a + b)[n..] == a[n..] + b;
      WordsSeam(a[n..], b);
      assert [a[..n]] + (Words(a[n..]) + Words(b)) == ([a[..n]] + Words(a[n..])) + Words(b);
    }
  }

  lemma RunLenExtends(a: Bytes, b: Bytes)
    requires a != [] && !IsStrip(a[0])
    requires b == [] || IsStrip(b[0]) || IsStrip(a[|a| - 1])
    ensures RunLen(a + b) == RunLen(a)
  {
    RunLenIs(a + b, RunLen(a));
  }

  lemma RunLenIs(t: Bytes, n: nat)
    requires 1 <= n <= |t| && (n < |t| ==> IsStrip(t[n]))
    requires forall k :: 0 <= k < n ==> !IsStrip(t[k])
    ensures RunLen(t) == n
  {}

  lemma {:induction false} WordsOfStrip(g: Bytes)
    requires AllStrip(g)
    ensures Words(g) == []
  {
    if g != [] {
      WordsOfStrip(g[1..]);
    }
  }

  lemma WordsStripped(t: Bytes)
    ensures WordsOfEach(Emit(t)) == Words(t)
  {
    hide Strip, Words;
    var l, r := StripSplits(t);
    var core := Strip(t);
    assert t == l + (core + r);
    WordsOfStrip(l);
    WordsOfStrip(r);
    WordsSeam(l, core + r);
    WordsSeam(core, r);
    NoWords();
    assert WordsOfEach([core]) == Words(core) + WordsOfEach([]);
  }

  lemma {:induction false} WordsOfEachAppend(a: seq<Bytes>, b: seq<Bytes>)
    ensures WordsOfEach(a + b) == WordsOfEach(a) + WordsOfEach(b)
  {
    if a == [] {
      assert a + b == b;
    } else {
      assert (a + b)[1..] == a[1..] + b;
      WordsOfEachAppend(a[1..], b);
    }
  }

  predicate IsSeparator(c: byte) {
    c == LF || c == SPACE
  }

  ghost predicate Unbroken(t: Bytes, i: nat, j: nat) {
    i <= j <= |t| && forall k :: i <= k < j ==> !IsSeparator(t[k])
  }

  /** Every run without space or newline has at most `limit` bytes. */
  ghost predicate ShortRuns(t: Bytes, limit: nat) {
    forall i: nat, j: nat :: Unbroken(t, i, j) ==> j - i <= limit
  }

  lemma CutAtSeparator(t: Bytes, limit: nat, protect: bool)
    requires 0 < limit < |t| && ShortRuns(t, limit) && (protect ==> Xml.IsEscaped(t))
    ensures IsSeparator(t[Cut(t, limit, true, true, protect)])
  {
    hide AdjustedCut, Xml.IsEscaped;
    var sep := Separator(t, limit, true, true);
    assert !Unbroken(t, 0, limit + 1);
    var k := if sep.Some? then sep.value else limit;
    if sep.None? {
      assert Utf8.PrevBoundary(t, limit) == limit;
    }
    if protect {
      Xml.PlainByteIsBoundary(t, k);
      AdjustedCutIsBoundary(t, k);
    }
  }

  /**
    * With both preferences on, and any positive limit that no run without space or newline
    * exceeds, the words of the chunks are the words of the text.
    */
  lemma {:induction false} WordsKept(t: Bytes, limit: nat, protect: bool)
    requires limit > 0 && ShortRuns(t, limit) && (protect ==> Xml.IsEscaped(t))
    ensures WordsOfEach(Split(t, limit, true, true, protect)) == Words(t)
    decreases |t|
  {
    hide Cut, Emit, ShortRuns;
    if |t| <= limit {
      WordsStripped(t);
    } else {
      var k := Cut(t, limit, true, true, protect);
      CutAtSeparator(t, limit, protect);
      var n := Advance(k);
      var rest := t[n..];
      ShortRunsAfter(t, n, limit);
      if protect {
        EscapedAfter(t, k);
      }
      WordsKept(rest, limit, protect);
      WordsStripped(t[..k]);
      WordsOfEachAppend(Emit(t[..k]), Split(rest, limit, true, true, protect));
      WordsSeam(t[..k], t[k..]);
      assert t == t[..k] + t[k..];
    }
  }

  lemma ShortRunsAfter(t: Bytes, n: nat, limit: nat)
    requires ShortRuns(t, limit) && n <= |t|
    ensures ShortRuns(t[n..], limit)
  {
    forall i: nat, j: nat | Unbroken(t[n..], i, j)
      ensures j - i <= limit
    {
      forall k | n + i <= k < n + j
        ensures !IsSeparator(t[k])
      {
        assert t[n..][k - n] == t[k];
      }
      assert Unbroken(t, n + i, n + j);
    }
  }

  lemma EscapedAfter(t: Bytes, k: nat)
    requires Xml.IsEscaped(t) && k < |t| && IsSeparator(t[k])
    ensures Xml.IsEscaped(t[Advance(k)..])
  {
    Xml.PlainByteIsBoundary(t, k);
    if k == 0 {
      DropStripByte(t);
    }
  }

  /** No chunker can keep a word that is longer than its limit. */
  lemma WordsKeptNeedRoom(t: Bytes, limit: nat, newline: bool, space: bool, protect: bool)
    requires limit > 0 && WordsOfEach(Split(t, limit, newline, space, protect)) == Words(t)
    ensures forall w :: w in Words(t) ==> |w| <= limit
  {
    ChunksFit(t, limit, newline, space, protect);
    WordsOfEachFit(Split(t, limit, newline, space, protect), limit);
  }

  lemma {:induction false} WordsOfEachFit(chunks: seq<Bytes>, limit: nat)
    requires forall c :: c in chunks ==> |c| <= limit
    ensures forall w :: w in WordsOfEach(chunks) ==> |w| <= limit
  {
    if chunks != [] {
      assert chunks[0] in chunks;
      WordsFit(chunks[0]);
      WordsOfEachFit(chunks[1..], limit);
    }
  }

  lemma {:induction false} WordsFit(t: Bytes)
    ensures forall w :: w in Words(t) ==> |w| <= |t|
  {
    if t != [] {
      WordsFit(t[1..]);
      if !IsStrip(t[0]) {
        WordsFit(t[RunLen(t)..]);
      }
    }
  }

  // ---- Exactly when words are kept -----------------------------------------------------------------

  /** A cut at `k` is next to a strip byte or, at the front, skips one. */
  predicate SparesWords(t: Bytes, k: nat)
    requires k < |t|
  {
    if k == 0 then IsStrip(t[0]) else IsStrip(t[k]) || IsStrip(t[k - 1])
  }

  /** No cut falls inside a word. */
  predicate CutsSpareWords(t: Bytes, limit: nat, newline: bool, space: bool, protect: bool)
    requires limit > 0
    decreases |t|
  {
    |t| <= limit ||
    (var k := Cut(t, limit, newline, space, protect);
     SparesWords(t, k) && CutsSpareWords(t[Advance(k)..], limit, newline, space, protect))
  }

  /** The words joined are the text without its strip bytes. */
  lemma {:induction false} WordsJoin(t: Bytes)
    ensures Flatten(Words(t)) == DeleteStrip(t)
    decreases |t|
  {
    if t != [] {
      if IsStrip(t[0]) {
        WordsJoin(t[1..]);
      } else {
        var n := RunLen(t);
        assert t == t[..n] + t[n..];
        WordsJoin(t[n..]);
        DeleteStripAppend(t[..n], t[n..]);
        DeleteNothing(t[..n]);
      }
    }
  }

  lemma {:induction false} DeleteNothing(t: Bytes)
    requires forall k :: 0 <= k < |t| ==> !IsStrip(t[k])
    ensures DeleteStrip(t) == t
  {
    if t != [] {
      DeleteNothing(t[1..]);
    }
  }

  /** A cut inside a word makes two words of it. */
  lemma {:induction false} WordsInside(a: Bytes, b: Bytes)
    requires a != [] && b != [] && !IsStrip(a[|a| - 1]) && !IsStrip(b[0])
    ensures |Words(a + b)| + 1 == |Words(a)| + |Words(b)|
    decreases |a|
  {
    hide Words, IsStrip;
    var n := if IsStrip(a[0]) then 1 else RunLen(a);
    if n < |a| {
      assert (a + b)[..n] == a[..n] && (a + b)[n..] == a[n..] + b;
      WordsInside(a[n..], b);
      if IsStrip(a[0]) {
        NoWordYet(a);
        NoWordYet(a + b);
      } else {
        FirstWord(a, n);
        RunEndsAt(a, b, n);
        FirstWord(a + b, n);
      }
    } else {
      OneWordLonger(a, b);
    }
  }

  lemma RunEndsAt(a: Bytes, b: Bytes, n: nat)
    requires n < |a| && IsStrip(a[n]) && forall k :: 0 <= k < n ==> !IsStrip(a[k])
    ensures IsStrip((a + b)[n]) && forall k :: 0 <= k < n ==> !IsStrip((a + b)[k])
  {}

  lemma OneWordLonger(a: Bytes, b: Bytes)
    requires a != [] && b != [] && !IsStrip(b[0]) && forall k :: 0 <= k < |a| ==> !IsStrip(a[k])
    ensures |Words(a + b)| == |Words(b)| && |Words(a)| == 1
  {
    hide Words, IsStrip;
    var m := RunLen(b);
    FirstWord(a, |a|);
    FirstWord(b, m);
    assert a[|a|..] == [] && (a + b)[|a| + m..] == b[m..];
    NoWords();
    assert forall k :: |a| <= k < |a| + m ==> (a + b)[k] == b[k - |a|];
    FirstWord(a + b, |a| + m);
  }

  /** What the chunks keep of the words: never more bytes, and with all bytes never fewer words. */
  lemma {:induction false} WordsDrift(t: Bytes, limit: nat, newline: bool, space: bool, protect: bool)
    requires limit > 0
    ensures var after := WordsOfEach(Split(t, limit, newline, space, protect));
            && |Flatten(after)| <= |DeleteStrip(t)|
            && (|Flatten(after)| == |DeleteStrip(t)| ==> |after| >= |Words(t)|)
            && (CutsSpareWords(t, limit, newline, space, protect) ==> after == Words(t))
            && (!CutsSpareWords(t, limit, newline, space, protect) ==>
                  |Flatten(after)| < |DeleteStrip(t)| || |after| > |Words(t)|)
    decreases |t|
  {
    hide Cut, Emit, SparesWords, Words, IsStrip;
    WordsJoin(t);
    if |t| <= limit {
      WordsStripped(t);
    } else {
      var k := Cut(t, limit, newline, space, protect);
      var rest := t[Advance(k)..];
      WordsDrift(rest, limit, newline, space, protect);
      var chunk, after := Emit(t[..k]), WordsOfEach(Split(rest, limit, newline, space, protect));
      WordsStripped(t[..k]);
      WordsOfEachAppend(chunk, Split(rest, limit, newline, space, protect));
      FlattenAppend(WordsOfEach(chunk), after);
      WordsJoin(t[..k]);
      WordsAtCut(t, k);
    }
  }

  /** How words and bytes of a text relate to those before and after a cut. */
  lemma WordsAtCut(t: Bytes, k: nat)
    requires k < |t|
    ensures var front, rest := t[..k], t[Advance(k)..];
            && (SparesWords(t, k) ==>
                  Words(t) == Words(front) + Words(rest) && |DeleteStrip(t)| == |DeleteStrip(front)| + |DeleteStrip(rest)|)
            && (!SparesWords(t, k) && k > 0 ==>
                  |Words(t)| + 1 == |Words(front)| + |Words(rest)|
                  && |DeleteStrip(t)| == |DeleteStrip(front)| + |DeleteStrip(rest)|)
            && (!SparesWords(t, k) && k == 0 ==> |DeleteStrip(t)| == |DeleteStrip(front)| + |DeleteStrip(rest)| + 1)
  {
    hide IsStrip;
    if k == 0 {
      assert t[..0] == [];
    } else {
      var a, b := t[..k], t[k..];
      assert t == a + b && a[|a| - 1] == t[k - 1] && b[0] == t[k];
      DeleteStripAppend(a, b);
      if SparesWords(t, k) {
        WordsSeam(a, b);
      } else {
        WordsInside(a, b);
      }
    }
  }

  /** For every text, limit and preferences: the words are kept exactly when no cut falls inside one. */
  lemma WordsKeptIff(t: Bytes, limit: nat, newline: bool, space: bool, protect: bool)
    requires limit > 0
    ensures WordsOfEach(Split(t, limit, newline, space, protect)) == Words(t) <==>
            CutsSpareWords(t, limit, newline, space, protect)
  {
    hide Split, CutsSpareWords;
    WordsDrift(t, limit, newline, space, protect);
    WordsJoin(t);
  }

  /** The only white space is newline and space. */
  predicate PlainSpacing(t: Bytes) {
    forall k :: 0 <= k < |t| && IsStrip(t[k]) ==> IsSeparator(t[k])
  }

  /**
    * In a text whose white space is newline and space, both preferences keep the words exactly when
    * each word fits the limit.
    */
  lemma WordsFitIff(t: Bytes, limit: nat, protect: bool)
    requires limit > 0 && PlainSpacing(t) && (protect ==> Xml.IsEscaped(t))
    ensures WordsOfEach(Split(t, limit, true, true, protect)) == Words(t) <==>
            forall k :: 0 <= k < |Words(t)| ==> |Words(t)[k]| <= limit
  {
    hide Split, Words, WordsOfEach, PlainSpacing, ShortRuns;
    if WordsOfEach(Split(t, limit, true, true, protect)) == Words(t) {
      WordsKeptNeedRoom(t, limit, true, true, protect);
      assert forall k :: 0 <= k < |Words(t)| ==> Words(t)[k] in Words(t);
    }
    if forall k :: 0 <= k < |Words(t)| ==> |Words(t)[k]| <= limit {
      ShortWordsShortRuns(t, limit);
      WordsKept(t, limit, protect);
    }
  }

  lemma ShortWordsShortRuns(t: Bytes, limit: nat)
    requires PlainSpacing(t) && forall k :: 0 <= k < |Words(t)| ==> |Words(t)[k]| <= limit
    ensures ShortRuns(t, limit)
  {
    hide Words;
    forall i: nat, j: nat | Unbroken(t, i, j)
      ensures j - i <= limit
    {
      if i < j {
        var k := WordHolds(t, i, j);
      }
    }
  }

  /** A stretch without strip bytes lies within one word. */
  lemma {:induction false} WordHolds(t: Bytes, i: nat, j: nat) returns (k: nat)
    requires i < j <= |t| && forall m :: i <= m < j ==> !IsStrip(t[m])
    ensures k < |Words(t)| && |Words(t)[k]| >= j - i
    decreases |t|
  {
    if IsStrip(t[0]) {
      assert forall m :: i - 1 <= m < j - 1 ==> t[1..][m] == t[m + 1];
      k := WordHolds(t[1..], i - 1, j - 1);
    } else {
      var n := RunLen(t);
      if j <= n {
        k := 0;
      } else {
        assert n <= i;
        assert forall m :: i - n <= m < j - n ==> t[n..][m] == t[m + n];
        k := WordHolds(t[n..], i - n, j - n);
        k := k + 1;
      }
    }
  }
}
