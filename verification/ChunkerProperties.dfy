/** What the chunks of a text have to do with the text. */
module ChunkerProperties {
  import opened Bytes
  import opened TextChunker
  import Utf8
  import Xml = XmlEscaper
  import Normalizer = TextNormalizer

  // ---- Every chunk is within the limit, for every positive limit --------------------

  lemma {:induction false} ChunksFit(text: Bytes, limit: nat, newline: bool, space: bool, protect: bool)
    requires limit > 0
    ensures forall c :: c in Split(text, limit, newline, space, protect) ==>
                          c != [] && Stripped(c) && |c| <= limit
    decreases |text|
  {
    hide Cut, Strip;
    if |text| <= limit {
      EmitFits(text);
    } else {
      var k := Cut(text, limit, newline, space, protect);
      EmitFits(text[..k]);
      ChunksFit(text[Advance(k)..], limit, newline, space, protect);
    }
  }

  lemma EmitFits(t: Bytes)
    ensures forall c :: c in Emit(t) ==> c != [] && Stripped(c) && |c| <= |t|
  {
    hide Strip;
    var l, r := StripSplits(t);
  }

  // ---- Covering: the chunks are the text up to strip bytes between them ----------------

  /** `text` is the chunks in order, with nothing but strip bytes before, between and after them. */
  ghost predicate Covers(text: Bytes, chunks: seq<Bytes>)
    decreases |chunks|
  {
    if chunks == [] then AllStrip(text)
    else exists gap: nat :: CoversAfter(gap, text, chunks)
  }

  ghost predicate CoversAfter(gap: nat, text: Bytes, chunks: seq<Bytes>)
    requires chunks != []
    decreases |chunks|, 0
  {
    && gap + |chunks[0]| <= |text|
    && AllStrip(text[..gap])
    && text[gap..gap + |chunks[0]|] == chunks[0]
    && Covers(text[gap + |chunks[0]|..], chunks[1..])
  }

  lemma CoversGap(g: Bytes, text: Bytes, chunks: seq<Bytes>)
    requires AllStrip(g) && Covers(text, chunks)
    ensures Covers(g + text, chunks)
  {
    if chunks != [] {
      var gap: nat :| CoversAfter(gap, text, chunks);
      var n := |chunks[0]|;
      assert (g + text)[..|g| + gap] == g + text[..gap];
      assert (g + text)[|g| + gap..|g| + gap + n] == text[gap..gap + n];
      assert (g + text)[|g| + gap + n..] == text[gap + n..];
      assert CoversAfter(|g| + gap, g + text, chunks);
    }
  }

  lemma CoversChunk(c: Bytes, text: Bytes, chunks: seq<Bytes>)
    requires Covers(text, chunks)
    ensures Covers(c + text, [c] + chunks)
  {
    assert (c + text)[..0] == [] && (c + text)[0..0 + |c|] == c && (c + text)[|c|..] == text;
    assert ([c] + chunks)[1..] == chunks;
    assert CoversAfter(0, c + text, [c] + chunks);
  }

  lemma CoversEmit(piece: Bytes, text: Bytes, chunks: seq<Bytes>)
    requires Covers(text, chunks)
    ensures Covers(piece + text, Emit(piece) + chunks)
  {
    hide Strip, Covers, AllStrip;
    var l, r := StripSplits(piece);
    var core := Strip(piece);
    CoversGap(r, text, chunks);
    if core == [] {
      CoversGap(l, r + text, chunks);
      assert piece + text == l + (r + text);
      assert Emit(piece) + chunks == chunks;
    } else {
      CoversChunk(core, r + text, chunks);
      CoversGap(l, core + (r + text), [core] + chunks);
      assert piece + text == l + (core + (r + text));
    }
  }

  function DeleteStrip(t: Bytes): Bytes {
    if t == [] then []
    else (if IsStrip(t[0]) then [] else [t[0]]) + DeleteStrip(t[1..])
  }

  lemma {:induction false} DeleteStripAppend(a: Bytes, b: Bytes)
    ensures DeleteStrip(a + b) == DeleteStrip(a) + DeleteStrip(b)
  {
    if a == [] {
      assert a + b == b;
    } else {
      assert (a + b)[1..] == a[1..] + b;
      DeleteStripAppend(a[1..], b);
    }
  }

  lemma {:induction false} DeleteStripGap(g: Bytes)
    requires AllStrip(g)
    ensures DeleteStrip(g) == []
  {
    if g != [] {
      DeleteStripGap(g[1..]);
    }
  }

  /** Up to strip bytes, covering chunks join to the text. */
  lemma {:induction false} CoversKeepsText(text: Bytes, chunks: seq<Bytes>)
    requires Covers(text, chunks)
    ensures DeleteStrip(Flatten(chunks)) == DeleteStrip(text)
    decreases |chunks|
  {
    if chunks == [] {
      DeleteStripGap(text);
    } else {
      var gap: nat :| CoversAfter(gap, text, chunks);
      var c, rest := chunks[0], text[gap + |chunks[0]|..];
      CoversKeepsText(rest, chunks[1..]);
      assert text == text[..gap] + (c + rest);
      DeleteStripGap(text[..gap]);
      DeleteStripAppend(text[..gap], c + rest);
      DeleteStripAppend(c, rest);
      DeleteStripAppend(c, Flatten(chunks[1..]));
    }
  }

  // ---- Cuts never fall inside a code point or an entity -----------------------------------

  /** Only whole code points and, where entities are protected, only whole entities. */
  predicate Sound(t: Bytes, protect: bool) {
    Utf8.Valid(t) && (protect ==> Xml.IsEscaped(t))
  }

  /** A place where a sound text falls into two sound texts. */
  predicate IsSeam(t: Bytes, p: nat, protect: bool) {
    Utf8.IsBoundary(t, p) && (protect ==> Xml.IsTokenBoundary(t, p))
  }

  /** The length of the first code point, or of the first entity where entities are protected. */
  function UnitLen(t: Bytes, protect: bool): (n: nat)
    requires Sound(t, protect) && t != []
    ensures 1 <= n <= |t| && n <= LargestUnit(protect)
  {
    if protect && t[0] == Xml.AMP then Xml.TokenLen(t) else Utf8.UnitLen(t)
  }

  function LargestUnit(protect: bool): nat {
    if protect then 5 else 4
  }

  /** A code-point start is at most three bytes below any position. */
  lemma {:induction false} PrevBoundaryNear(t: Bytes, p: nat)
    requires Utf8.Valid(t) && p < |t|
    ensures var k := Utf8.PrevBoundary(t, p);
            Utf8.IsBoundary(t, k) && p - 4 < k <= p && (k < p ==> t[k] >= 0x80)
    decreases |t|
  {
    hide Utf8.DecodeFirst, Utf8.UnitLen, Utf8.PrevBoundary;
    Utf8.ValidStartsAtBoundary(t);
    var n := Utf8.UnitLen(t);
    var k := Utf8.PrevBoundary(t, p);
    if p < n {
      assert p > 0 ==> Utf8.IsContinuation(t[p]);
      assert k == 0;
    } else {
      Utf8.ValidStartsAtBoundary(t[n..]);
      PrevBoundaryNear(t[n..], p - n);
      var k' := Utf8.PrevBoundary(t[n..], p - n);
      assert t[n..][k'] == t[k' + n];
      assert forall j :: k' < j <= p - n ==> t[n..][j] == t[j + n];
      forall j | k' + n < j <= p
        ensures Utf8.IsContinuation(t[j])
      {
        assert Utf8.IsContinuation(t[n..][j - n]);
      }
      assert k == k' + n;
    }
  }

  /** Backing out of an entity stops at the last place between tokens. */
  lemma {:induction false} AdjustedCutIsBoundary(t: Bytes, p: nat)
    requires Xml.IsEscaped(t) && p <= |t|
    ensures var r := AdjustedCut(t, p);
            && Xml.IsTokenBoundary(t, r)
            && (Xml.IsTokenBoundary(t, p) ==> r == p)
            && (r < p ==> t[r] == Xml.AMP && p < r + Xml.TokenLen(t[r..]))
  {
    hide Xml.TokenByte, Xml.TokenLen, AdjustedCut;
    if Xml.IsTokenBoundary(t, p) {
      StaysAtBoundary(t, p);
    } else {
      var b := Xml.FindToken(t, p);
      BacksToEntity(t, b, p);
    }
  }

  lemma AmpStartsToken(t: Bytes, k: nat)
    requires Xml.IsEscaped(t) && k < |t| && t[k] == Xml.AMP
    ensures Xml.IsTokenBoundary(t, k)
  {
    hide Xml.TokenByte, Xml.TokenLen;
    var b := Xml.FindToken(t, k);
    if b != k {
      Xml.EntityBody(t[b..], k - b);
    }
  }

  /** Every `&` of an escaped text has its semicolon. */
  lemma EntityClosed(t: Bytes, k: nat) returns (semi: nat)
    requires Xml.IsEscaped(t) && k < |t| && t[k] == Xml.AMP
    ensures k < semi < |t| && t[semi] == Xml.SEMICOLON
  {
    hide Xml.TokenByte, Xml.TokenLen;
    AmpStartsToken(t, k);
    var n := Xml.TokenLen(t[k..]);
    Xml.EntityBody(t[k..], n - 1);
    semi := k + n - 1;
  }

  lemma StaysAtBoundary(t: Bytes, p: nat)
    requires Xml.IsTokenBoundary(t, p)
    ensures AdjustedCut(t, p) == p
  {
    hide Xml.IsEscaped, FindLast, Find;
    var amp := FindLast(t, Xml.AMP, p);
    if amp.Some? {
      var semi := EntityClosed(t[..p], amp.value);
    }
  }

  lemma BacksToEntity(t: Bytes, b: nat, p: nat)
    requires Xml.IsTokenBoundary(t, b) && b < p <= |t| && t[b] == Xml.AMP
    requires p < b + Xml.TokenLen(t[b..])
    ensures AdjustedCut(t, p) == b
  {
    StaysAtBoundary(t, b);
    var e := t[b..];
    var n := Xml.TokenLen(e);
    forall k | b < k < p
      ensures t[k] != Xml.AMP && t[k] != Xml.SEMICOLON
    {
      Xml.EntityBody(e, k - b);
      assert e[k - b] == t[k];
    }
    var amp := FindLast(t, Xml.AMP, p);
    assert amp == Some(b);
  }

  lemma SeamAt(t: Bytes, p: nat, protect: bool)
    requires Sound(t, protect) && p < |t| && t[p] < 59
    ensures IsSeam(t, p, protect)
  {
    if protect {
      Xml.PlainByteIsBoundary(t, p);
    }
  }

  lemma CutAtSeam(t: Bytes, p: nat, protect: bool)
    requires Sound(t, protect) && IsSeam(t, p, protect)
    ensures Sound(t[..p], protect) && Sound(t[p..], protect)
  {
    hide Utf8.IsContinuation;
    Utf8.CutAtBoundary(t, p);
  }

  /** A strip byte at the front can be dropped. */
  lemma DropStripByte(t: Bytes)
    requires t != [] && IsStrip(t[0])
    ensures Utf8.Valid(t) ==> Utf8.Valid(t[1..])
    ensures Xml.IsEscaped(t) ==> Xml.IsEscaped(t[1..])
  {
    Utf8.AsciiUnit(t);
  }

  /**
    * For every positive limit, every cut is a seam; and if it is at the front of the text without a
    * strip byte there, the first code point or entity is larger than the limit.
    */
  lemma CutIsSeam(t: Bytes, limit: nat, newline: bool, space: bool, protect: bool)
    requires Sound(t, protect) && 0 < limit < |t|
    ensures var k := Cut(t, limit, newline, space, protect);
            IsSeam(t, k, protect) && (k == 0 && !IsStrip(t[0]) ==> UnitLen(t, protect) > limit)
  {
    hide Utf8.IsContinuation, AdjustedCut, Utf8.Valid, Xml.IsEscaped, Xml.TokenByte, Utf8.DecodeFirst, Utf8.UnitLen, Xml.TokenLen;
    var sep := Separator(t, limit, newline, space);
    if sep.Some? {
      SeamAt(t, sep.value, protect);
      if protect {
        AdjustedCutIsBoundary(t, sep.value);
      }
    } else {
      PrevBoundaryNear(t, limit);
      if Utf8.PrevBoundary(t, limit) == 0 {
        PrevBoundaryAtFront(t, limit);
      }
      if protect {
        AdjustedIsSeam(t, limit);
      }
    }
  }

  lemma PrevBoundaryAtFront(t: Bytes, p: nat)
    requires Utf8.Valid(t) && 0 < p < |t| && Utf8.PrevBoundary(t, p) == 0
    ensures Utf8.UnitLen(t) > p
  {
    hide Utf8.Valid, Utf8.DecodeFirst, Utf8.UnitLen;
    FirstOfValid(t);
    var n := Utf8.UnitLen(t);
    if n <= p {
      assert Utf8.IsContinuation(t[n]);
      Utf8.ValidStartsAtBoundary(t[n..]);
    }
  }

  lemma FirstOfValid(t: Bytes)
    requires Utf8.Valid(t) && t != []
    ensures Utf8.DecodeFirst(t).Some? && Utf8.Valid(t[Utf8.UnitLen(t)..])
  {}

  /** Backing out of an entity from the last code-point start keeps to code-point starts. */
  lemma AdjustedIsSeam(t: Bytes, limit: nat)
    requires Sound(t, true) && 0 < limit < |t|
    ensures var k := Utf8.PrevBoundary(t, limit);
            var r := AdjustedCut(t, k);
            && IsSeam(t, r, true)
            && (r == 0 && k > 0 ==> t[0] == Xml.AMP && UnitLen(t, true) > limit)
  {
    hide Utf8.IsContinuation, AdjustedCut, Utf8.Valid, Xml.IsEscaped, Xml.TokenByte, Xml.TokenLen;
    var k := Utf8.PrevBoundary(t, limit);
    PrevBoundaryNear(t, limit);
    AdjustedCutIsBoundary(t, k);
    var r := AdjustedCut(t, k);
    if r < k {
      AmpStartsUnit(t, r);
      FirstOfEscaped(t[r..]);
      if k < limit {
        Xml.EntityBody(t[r..], k - r);
      }
    }
  }

  lemma FirstOfEscaped(t: Bytes)
    requires Xml.IsEscaped(t) && t != []
    ensures Xml.TokenByte(t).Some?
  {}

  lemma AmpStartsUnit(t: Bytes, p: nat)
    requires p < |t| && t[p] == Xml.AMP
    ensures Utf8.IsBoundary(t, p)
  {}

  /** Stripping keeps code points and entities whole. */
  lemma StripKeepsValid(t: Bytes)
    requires Utf8.Valid(t)
    ensures Utf8.Valid(Strip(t))
  {
    hide Strip, Utf8.Valid, AllStrip, Stripped;
    var l, r := StripSplits(t);
    assert l + (Strip(t) + r) == t;
    DropStrip(l, Strip(t) + r);
    ChopStripValid(Strip(t), r);
  }

  lemma StripKeepsEscaped(t: Bytes)
    requires Xml.IsEscaped(t)
    ensures Xml.IsEscaped(Strip(t))
  {
    hide Strip, Xml.IsEscaped, AllStrip, Stripped;
    var l, r := StripSplits(t);
    assert l + (Strip(t) + r) == t;
    DropStrip(l, Strip(t) + r);
    ChopStripEscaped(Strip(t), r);
  }

  lemma ChopStripValid(u: Bytes, r: Bytes)
    requires Utf8.Valid(u + r) && AllStrip(r)
    ensures Utf8.Valid(u)
  {
    hide Utf8.Valid;
    assert (u + r)[..|u|] == u;
    assert Utf8.IsBoundary(u + r, |u|);
    Utf8.CutAtBoundary(u + r, |u|);
  }

  lemma ChopStripEscaped(u: Bytes, r: Bytes)
    requires Xml.IsEscaped(u + r) && AllStrip(r)
    ensures Xml.IsEscaped(u)
  {
    hide Xml.IsEscaped;
    assert (u + r)[..|u|] == u;
    if r != [] {
      assert (u + r)[|u|] == r[0];
      Xml.PlainByteIsBoundary(u + r, |u|);
    } else {
      assert u + r == u;
    }
  }

  lemma {:induction false} DropStrip(l: Bytes, t: Bytes)
    requires AllStrip(l)
    ensures Utf8.Valid(l + t) ==> Utf8.Valid(t)
    ensures Xml.IsEscaped(l + t) ==> Xml.IsEscaped(t)
  {
    hide Utf8.Valid, Xml.IsEscaped;
    if l == [] {
      assert l + t == t;
    } else {
      DropStripByte(l + t);
      assert (l + t)[1..] == l[1..] + t;
      DropStrip(l[1..], t);
    }
  }

  // ---- Sound texts split into sound chunks that cover them -----------------------------------------

  /** Every code point, and every entity where entities are protected, has at most `limit` bytes. */
  predicate Fits(t: Bytes, limit: nat, protect: bool)
    requires Sound(t, protect)
    decreases |t|
  {
    t == [] ||
    (UnitLen(t, protect) <= limit &&
     (UnitSplits(t, protect);
      Fits(t[UnitLen(t, protect)..], limit, protect)))
  }

  lemma UnitSplits(t: Bytes, protect: bool)
    requires Sound(t, protect) && t != []
    ensures IsSeam(t, UnitLen(t, protect), protect)
    ensures Sound(t[..UnitLen(t, protect)], protect) && Sound(t[UnitLen(t, protect)..], protect)
  {
    hide Utf8.IsContinuation, Xml.IsEscaped, Xml.TokenByte, Utf8.DecodeFirst;
    var n := UnitLen(t, protect);
    FirstOfValid(t);
    if protect && t[0] == Xml.AMP {
      EntityIsSeam(t);
    } else {
      Utf8.ValidStartsAtBoundary(t[n..]);
      if protect {
        CodePointIsSeam(t);
      }
    }
    CutAtSeam(t, n, protect);
  }

  lemma EntityIsSeam(t: Bytes)
    requires Sound(t, true) && t != [] && t[0] == Xml.AMP
    ensures IsSeam(t, Xml.TokenLen(t), true)
  {
    hide Utf8.IsContinuation, Xml.TokenByte, Utf8.Valid;
    var n := Xml.TokenLen(t);
    Xml.TokenAlone(t);
    forall k | 0 <= k < n
      ensures t[..n][k] < 0x80
    {
      if k > 0 {
        Xml.EntityBody(t, k);
      }
    }
    Xml.AsciiValid(t[..n]);
    Utf8.ValidPrefixEndsAtBoundary(t, n);
  }

  lemma CodePointIsSeam(t: Bytes)
    requires Sound(t, true) && t != [] && t[0] != Xml.AMP
    ensures Xml.IsTokenBoundary(t, Utf8.UnitLen(t))
  {
    hide Utf8.DecodeFirst, Xml.TokenByte, Xml.TokenLen;
    var n := Utf8.UnitLen(t);
    var b := Xml.FindToken(t, n);
  }

  lemma SoundAppend(a: Bytes, b: Bytes, protect: bool)
    requires Sound(a, protect) && Sound(b, protect)
    ensures Sound(a + b, protect)
  {
    hide Utf8.Valid, Xml.IsEscaped;
    Utf8.JoinValid(a, b);
    if protect {
      Xml.EscapedAppend(a, b);
    }
  }

  lemma UnitExtends(a: Bytes, b: Bytes, protect: bool)
    requires Sound(a, protect) && Sound(a + b, protect) && a != []
    ensures UnitLen(a + b, protect) == UnitLen(a, protect)
  {
    Utf8.FirstUnitExtends(a, b);
    if protect {
      Xml.TokenExtends(a, b);
    }
  }

  lemma {:induction false} FitsAppend(a: Bytes, b: Bytes, limit: nat, protect: bool)
    requires Sound(a, protect) && Sound(b, protect)
    ensures Sound(a + b, protect)
    ensures Fits(a + b, limit, protect) <==> Fits(a, limit, protect) && Fits(b, limit, protect)
    decreases |a|
  {
    hide Sound, UnitLen;
    SoundAppend(a, b, protect);
    if a == [] {
      assert a + b == b;
    } else {
      var n := UnitLen(a, protect);
      UnitExtends(a, b, protect);
      UnitSplits(a, protect);
      UnitSplits(a + b, protect);
      assert (a + b)[n..] == a[n..] + b;
      FitsAppend(a[n..], b, limit, protect);
    }
  }

  lemma {:induction false} ShortFits(t: Bytes, limit: nat, protect: bool)
    requires Sound(t, protect) && (|t| <= limit || LargestUnit(protect) <= limit)
    ensures Fits(t, limit, protect)
    decreases |t|
  {
    hide Sound;
    if t != [] {
      UnitSplits(t, protect);
      ShortFits(t[UnitLen(t, protect)..], limit, protect);
    }
  }

  /** One step of the splitter: what it emits and where it goes on are sound, and it skips strip bytes only. */
  lemma StepIsSound(t: Bytes, limit: nat, newline: bool, space: bool, protect: bool)
    requires Sound(t, protect) && 0 < limit < |t|
    requires var k := Cut(t, limit, newline, space, protect); k > 0 || IsStrip(t[0])
    ensures var k := Cut(t, limit, newline, space, protect);
            && Sound(t[..k], protect)
            && Sound(t[..Advance(k)], protect)
            && Sound(t[Advance(k)..], protect)
            && (k == 0 ==> AllStrip(t[..1]))
            && |t[..Advance(k)]| <= limit
  {
    hide Utf8.Valid, Xml.IsEscaped, Cut;
    CutIsSeam(t, limit, newline, space, protect);
    var k := Cut(t, limit, newline, space, protect);
    CutAtSeam(t, k, protect);
    if k == 0 {
      DropStripByte(t);
      UnescapeStrip(t[..1]);
      StripIsAscii(t[..1]);
    }
  }

  lemma StripIsAscii(g: Bytes)
    requires AllStrip(g)
    ensures Utf8.Valid(g)
  {
    Xml.AsciiValid(g);
  }

  /** If every unit fits the limit, the chunks are sound and cover the text up to strip bytes between them. */
  lemma {:induction false} SplitSound(t: Bytes, limit: nat, newline: bool, space: bool, protect: bool)
    requires Sound(t, protect) && limit > 0 && Fits(t, limit, protect)
    ensures var chunks := Split(t, limit, newline, space, protect);
            Covers(t, chunks) && forall c :: c in chunks ==> Sound(c, protect)
    decreases |t|
  {
    hide Cut, Strip, Covers, Sound, IsSeam, Fits, UnitLen;
    if |t| <= limit {
      EmitSound(t, protect);
      CoversNothing();
      CoversEmit(t, [], []);
      assert t + [] == t && Emit(t) + [] == Emit(t);
    } else {
      var k := Cut(t, limit, newline, space, protect);
      FirstUnitFits(t, limit, protect);
      CutIsSeam(t, limit, newline, space, protect);
      StepIsSound(t, limit, newline, space, protect);
      EmitSound(t[..k], protect);
      var n := Advance(k);
      var rest := t[n..];
      assert t == t[..n] + rest;
      FitsAppend(t[..n], rest, limit, protect);
      SplitSound(rest, limit, newline, space, protect);
      var chunks := Split(rest, limit, newline, space, protect);
      if k == 0 {
        assert t[..0] + t == t;
        CoversGap(t[..1], rest, chunks);
        CoversEmit(t[..0], t, chunks);
      } else {
        CoversEmit(t[..k], rest, chunks);
      }
    }
  }

  lemma FirstUnitFits(t: Bytes, limit: nat, protect: bool)
    requires Sound(t, protect) && t != [] && Fits(t, limit, protect)
    ensures UnitLen(t, protect) <= limit
  {}

  lemma CoversNothing()
    ensures Covers([], [])
  {}

  lemma EmitSound(t: Bytes, protect: bool)
    requires Sound(t, protect)
    ensures forall c :: c in Emit(t) ==> Sound(c, protect)
  {
    hide Strip;
    StripKeepsValid(t);
    if protect {
      StripKeepsEscaped(t);
    }
  }

  function UnescapeEach(chunks: seq<Bytes>): (r: seq<Bytes>)
    ensures |r| == |chunks| && forall k :: 0 <= k < |r| ==> r[k] == Xml.Unescape(chunks[k])
  {
    seq(|chunks|, k requires 0 <= k < |chunks| => Xml.Unescape(chunks[k]))
  }

  lemma {:induction false} UnescapeStrip(g: Bytes)
    requires AllStrip(g)
    ensures Xml.IsEscaped(g) && Xml.Unescape(g) == g
  {
    if g != [] {
      UnescapeStrip(g[1..]);
      assert g == Xml.EscapeByte(g[0]) + g[1..];
      Xml.UnescapeToken(g[0], g[1..]);
    }
  }

  /** Unescaping chunks made of whole entities covers the unescaped text. */
  lemma {:induction false} UnescapeCovers(t: Bytes, chunks: seq<Bytes>)
    requires Xml.IsEscaped(t) && Covers(t, chunks)
    requires forall c :: c in chunks ==> Xml.IsEscaped(c)
    ensures Covers(Xml.Unescape(t), UnescapeEach(chunks))
    decreases |chunks|
  {
    hide Xml.IsEscaped, Xml.Unescape;
    if chunks == [] {
      UnescapeStrip(t);
    } else {
      var gap: nat :| CoversAfter(gap, t, chunks);
      var g, c, rest := t[..gap], chunks[0], t[gap + |chunks[0]|..];
      assert t == g + (c + rest) && c in chunks;
      UnescapeStrip(g);
      Xml.EscapedAppend(g, c + rest);
      Xml.EscapedAppend(c, rest);
      Xml.UnescapeAppend(g, c + rest);
      Xml.UnescapeAppend(c, rest);
      UnescapeCovers(rest, chunks[1..]);
      assert UnescapeEach(chunks) == [Xml.Unescape(c)] + UnescapeEach(chunks[1..]);
      CoversChunk(Xml.Unescape(c), Xml.Unescape(rest), UnescapeEach(chunks[1..]));
      CoversGap(g, Xml.Unescape(c) + Xml.Unescape(rest), UnescapeEach(chunks));
    }
  }

  lemma UnescapeEscapeEach(raw: seq<Bytes>)
    ensures UnescapeEach(EscapeEach(raw)) == raw
  {
    forall k | 0 <= k < |raw|
      ensures UnescapeEach(EscapeEach(raw))[k] == raw[k]
    {
      Xml.UnescapeEscape(raw[k]);
    }
  }
}
