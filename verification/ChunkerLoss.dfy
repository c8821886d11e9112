/** Exactly which texts survive chunking. */
module ChunkerLoss {
  import opened Bytes
  import opened TextChunker
  import opened ChunkerProperties
  import Utf8
  import Xml = XmlEscaper
  import Normalizer = TextNormalizer

  // ---- What the reader of the chunks sees ------------------------------------------------------

  /** Unescaping the chunks gives the normalized input, up to strip bytes between the chunks. */
  ghost predicate Lossless(input: Bytes, o: Options)
    requires o.maxChunkSize > 0
  {
    Covers(Normalizer.Clean(input), UnescapeEach(Chunks(input, o)))
  }

  /** The chunks joined keep every byte of the normalized input that is not a strip byte. */
  predicate KeepsText(input: Bytes, o: Options)
    requires o.maxChunkSize > 0
  {
    DeleteStrip(Flatten(UnescapeEach(Chunks(input, o)))) == DeleteStrip(Normalizer.Clean(input))
  }

  /** How a character is written in the text that is cut. */
  function Written(cp: Utf8.Scalar, escaped: bool): Bytes {
    if escaped then Xml.Escape(Utf8.Encode(cp)) else Utf8.Encode(cp)
  }

  /** No character of the input is written with more bytes than the limit. */
  predicate RoomForEach(input: Bytes, o: Options)
    requires Utf8.Valid(input)
  {
    var cps := Utf8.Decode(input);
    forall k :: 0 <= k < |cps| ==> |Written(cps[k], o.sizeAfterXmlEscape)| <= o.maxChunkSize
  }

  // ---- The room a text needs -----------------------------------------------------------------------

  function CutText(norm: Bytes, escaped: bool): Bytes {
    if escaped then Xml.Escape(norm) else norm
  }

  /** A character is written as one unit. */
  lemma OneUnit(cp: Utf8.Scalar, escaped: bool)
    ensures var t := Written(cp, escaped);
            t != [] && Sound(t, escaped) && UnitLen(t, escaped) == |t|
  {
    var e := Utf8.Encode(cp);
    Utf8.EncodeAllOne(cp);
    Utf8.EncodeAllDecodes([cp]);
    Utf8.EncodeDecodes(e, cp);
    if escaped {
      Xml.EscapeValid(e);
      Xml.EscapeIsEscaped(e);
      if cp < 0x80 {
        assert e == [cp] && e[1..] == [];
        var c: byte := cp;
        assert Xml.Escape(e) == Xml.EscapeByte(c) + Xml.Escape([]) == Xml.EscapeByte(c);
        Xml.TokenStart(c, []);
        assert Xml.EscapeByte(c) + [] == Xml.EscapeByte(c);
      } else {
        Xml.EscapeIdentity(e);
      }
    }
  }

  lemma OneUnitFits(cp: Utf8.Scalar, limit: nat, escaped: bool)
    ensures Sound(Written(cp, escaped), escaped)
    ensures Fits(Written(cp, escaped), limit, escaped) <==> |Written(cp, escaped)| <= limit
  {
    hide Written, Sound;
    OneUnit(cp, escaped);
    var t := Written(cp, escaped);
    UnitSplits(t, escaped);
    assert t[UnitLen(t, escaped)..] == [];
  }

  ghost predicate AllWithin(cps: seq<Utf8.Scalar>, limit: nat, escaped: bool) {
    forall k :: 0 <= k < |cps| ==> |Written(cps[k], escaped)| <= limit
  }

  lemma {:induction false} FitsIffWithin(cps: seq<Utf8.Scalar>, limit: nat, escaped: bool)
    ensures var t := CutText(Utf8.EncodeAll(cps), escaped);
            Sound(t, escaped) && (Fits(t, limit, escaped) <==> AllWithin(cps, limit, escaped))
  {
    hide Sound, Utf8.Encode, Xml.Escape, UnitLen;
    if cps == [] {
      NothingToCut(escaped);
    } else {
      var first, rest := Utf8.Encode(cps[0]), Utf8.EncodeAll(cps[1..]);
      FitsIffWithin(cps[1..], limit, escaped);
      OneUnitFits(cps[0], limit, escaped);
      Xml.EscapeAppend(first, rest);
      assert CutText(first + rest, escaped) == Written(cps[0], escaped) + CutText(rest, escaped);
      FitsAppend(Written(cps[0], escaped), CutText(rest, escaped), limit, escaped);
    }
  }

  lemma NothingToCut(escaped: bool)
    ensures CutText(Utf8.EncodeAll([]), escaped) == [] && Sound([], escaped)
  {}

  /** Cleaning a character does not change how many bytes it takes. */
  lemma CleanKeepsWidth(cp: Utf8.Scalar, escaped: bool)
    ensures |Written(Normalizer.CleanScalar(cp), escaped)| == |Written(cp, escaped)|
  {
    var clean := Normalizer.CleanScalar(cp);
    if clean != cp {
      PlainWidth(cp);
      PlainWidth(clean);
    }
  }

  lemma PlainWidth(cp: Utf8.Scalar)
    requires cp < 38
    ensures Utf8.Encode(cp) == [cp] && Xml.Escape([cp as byte]) == [cp]
  {
    assert [cp as byte][1..] == [];
  }

  /** The text that is cut is sound, and has room exactly when each character of the input has. */
  lemma FitsIffRoom(input: Bytes, o: Options)
    requires Utf8.Valid(input)
    ensures var t := CutText(Normalizer.Clean(input), o.sizeAfterXmlEscape);
            && Sound(t, o.sizeAfterXmlEscape)
            && (Fits(t, o.maxChunkSize, o.sizeAfterXmlEscape) <==> RoomForEach(input, o))
  {
    hide Written, Sound, Fits;
    Normalizer.CleanValid(input);
    var cps := Utf8.Decode(input);
    var clean := Normalizer.CleanScalars(cps);
    FitsIffWithin(clean, o.maxChunkSize, o.sizeAfterXmlEscape);
    forall k | 0 <= k < |cps|
      ensures |Written(clean[k], o.sizeAfterXmlEscape)| == |Written(cps[k], o.sizeAfterXmlEscape)|
    {
      CleanKeepsWidth(cps[k], o.sizeAfterXmlEscape);
    }
  }

  // ---- Where there is no room, text is lost ------------------------------------------------------

  /** The text a chunk stands for. */
  function Plain(t: Bytes, escaped: bool): Bytes {
    if escaped then Xml.Unescape(t) else t
  }

  function PlainEach(chunks: seq<Bytes>, escaped: bool): (r: seq<Bytes>)
    ensures |r| == |chunks| && forall k :: 0 <= k < |r| ==> r[k] == Plain(chunks[k], escaped)
  {
    seq(|chunks|, k requires 0 <= k < |chunks| => Plain(chunks[k], escaped))
  }

  /** What is left of the chunks. */
  function Kept(chunks: seq<Bytes>, escaped: bool): Bytes {
    DeleteStrip(Flatten(PlainEach(chunks, escaped)))
  }

  lemma KeptAppend(a: seq<Bytes>, b: seq<Bytes>, escaped: bool)
    ensures Kept(a + b, escaped) == Kept(a, escaped) + Kept(b, escaped)
  {
    assert PlainEach(a + b, escaped) == PlainEach(a, escaped) + PlainEach(b, escaped);
    FlattenAppend(PlainEach(a, escaped), PlainEach(b, escaped));
    DeleteStripAppend(Flatten(PlainEach(a, escaped)), Flatten(PlainEach(b, escaped)));
  }

  lemma PlainAppend(a: Bytes, b: Bytes, escaped: bool)
    requires Sound(a, escaped)
    ensures Plain(a + b, escaped) == Plain(a, escaped) + Plain(b, escaped)
  {
    if escaped {
      Xml.UnescapeAppend(a, b);
    }
  }

  lemma CoveredIsKept(t: Bytes, chunks: seq<Bytes>, escaped: bool)
    requires Sound(t, escaped) && Covers(t, chunks) && forall c :: c in chunks ==> Sound(c, escaped)
    ensures Kept(chunks, escaped) == DeleteStrip(Plain(t, escaped))
  {
    hide Covers, Xml.Unescape, DeleteStrip;
    if escaped {
      UnescapeCovers(t, chunks);
      assert PlainEach(chunks, escaped) == UnescapeEach(chunks);
    } else {
      assert PlainEach(chunks, escaped) == chunks;
    }
    CoversKeepsText(Plain(t, escaped), PlainEach(chunks, escaped));
  }

  lemma EmittedIsKept(t: Bytes, escaped: bool)
    requires Sound(t, escaped)
    ensures Kept(Emit(t), escaped) == DeleteStrip(Plain(t, escaped))
  {
    hide Sound, Emit, Covers, Kept, Plain;
    CoversNothing();
    CoversEmit(t, [], []);
    assert t + [] == t && Emit(t) + [] == Emit(t);
    EmitSound(t, escaped);
    CoveredIsKept(t, Emit(t), escaped);
  }

  /** A byte at the front that is neither a strip byte nor `&` is at the front of what is left. */
  lemma EmitsFront(u: Bytes, rest: seq<Bytes>, escaped: bool)
    requires u != [] && !IsStrip(u[0]) && u[0] != Xml.AMP
    ensures var d := Kept(Emit(u) + rest, escaped);
            d != [] && d[0] == u[0]
  {
    hide Strip, Xml.Unescape;
    var l, r := StripSplits(u);
    var core := Strip(u);
    assert u == l + (core + r);
    assert core != [] by {
      assert core == [] ==> u == r;
    }
    assert core[0] == u[0] by {
      assert u == core + r;
    }
    PlainFront(core, escaped);
    var chunks := [core] + rest;
    assert Emit(u) + rest == chunks;
    assert PlainEach(chunks, escaped)[0] == Plain(core, escaped);
    assert Flatten(PlainEach(chunks, escaped)) == Plain(core, escaped) + Flatten(PlainEach(chunks, escaped)[1..]);
  }

  lemma PlainFront(t: Bytes, escaped: bool)
    requires t != [] && t[0] != Xml.AMP
    ensures Plain(t, escaped) != [] && Plain(t, escaped)[0] == t[0]
  {
    if escaped {
      Xml.UnescapeUnfold(t);
      assert t[..1] == [t[0]];
      Xml.ByteText(t[0]);
    }
  }

  /** Nothing is cut at the front of a text that starts with neither a separator nor `&`, unless continuations follow. */
  lemma CutPastFront(u: Bytes, limit: nat, newline: bool, space: bool, protect: bool)
    requires 0 < limit < |u| && !IsStrip(u[0]) && u[0] != Xml.AMP
    ensures Cut(u, limit, newline, space, protect) == 0 ==> Utf8.IsContinuation(u[1])
  {
    hide AdjustedCut, Utf8.IsContinuation;
    var sep := Separator(u, limit, newline, space);
    var k := if sep.Some? then sep.value else Utf8.PrevBoundary(u, limit);
    if k > 0 {
      AdjustedPastFront(u, k);
    }
  }

  lemma {:induction false} AdjustedPastFront(u: Bytes, k: nat)
    requires u != [] && u[0] != Xml.AMP && k > 0
    ensures AdjustedCut(u, k) > 0
  {
    var amp := FindLast(u, Xml.AMP, k);
    if amp.Some? {
      AdjustedPastFront(u, amp.value);
    }
  }

  /** A text that starts with a continuation byte still starts with one when it is chunked. */
  lemma {:induction false} ContinuationSurvives(u: Bytes, limit: nat, newline: bool, space: bool, protect: bool)
    requires limit > 0 && u != [] && Utf8.IsContinuation(u[0])
    ensures var d := Kept(Split(u, limit, newline, space, protect), protect);
            d != [] && Utf8.IsContinuation(d[0])
    decreases |u|
  {
    hide Cut, Emit, Kept;
    if |u| <= limit {
      EmitsFront(u, [], protect);
      assert Emit(u) + [] == Emit(u);
    } else {
      var k := Cut(u, limit, newline, space, protect);
      if k == 0 {
        CutPastFront(u, limit, newline, space, protect);
        SkipsFirstByte(u, limit, newline, space, protect);
        assert u[1..][0] == u[1];
        ContinuationSurvives(u[1..], limit, newline, space, protect);
      } else {
        EmitsFront(u[..k], Split(u[k..], limit, newline, space, protect), protect);
      }
    }
  }

  lemma LetterSurvives(u: Bytes, limit: nat, newline: bool, space: bool, protect: bool)
    requires limit > 0 && |u| >= 2 && !IsStrip(u[0]) && u[0] != Xml.AMP && !Utf8.IsContinuation(u[1])
    ensures var d := Kept(Split(u, limit, newline, space, protect), protect);
            d != [] && d[0] == u[0]
  {
    hide Cut, Emit, Kept;
    if |u| <= limit {
      EmitsFront(u, [], protect);
      assert Emit(u) + [] == Emit(u);
    } else {
      var k := Cut(u, limit, newline, space, protect);
      CutPastFront(u, limit, newline, space, protect);
      EmitsFront(u[..k], Split(u[k..], limit, newline, space, protect), protect);
    }
  }

  /** An entity stands for one of `&`, `<`, `>`; its second byte is a letter. */
  lemma EntityFront(t: Bytes)
    requires Sound(t, true) && t != [] && t[0] == Xml.AMP
    ensures |t| >= 4 && t[1] in {97, 103, 108} && t[2] < 0x80
    ensures Xml.Unescape(t) != [] && Xml.Unescape(t)[0] in {Xml.AMP, Xml.LESS, Xml.GREATER}
  {
    hide Utf8.Valid, Xml.Unescape;
    FirstOfEscaped(t);
    var c := Xml.TokenByte(t).value;
    var e := Xml.EscapeByte(c);
    assert e <= t && t[..|e|] == e;
    assert t[1] == e[1] && t[2] == e[2];
    assert t == e + t[|e|..];
    Xml.UnescapeToken(c, t[|e|..]);
  }

  /** Cutting at the front without a strip byte there loses the first character. */
  lemma FrontIsLost(t: Bytes, limit: nat, newline: bool, space: bool, protect: bool)
    requires Sound(t, protect) && 0 < limit < |t|
    requires Cut(t, limit, newline, space, protect) == 0 && !IsStrip(t[0])
    ensures Kept(Split(t, limit, newline, space, protect), protect) != DeleteStrip(Plain(t, protect))
  {
    hide Cut, Kept, Utf8.Valid, Xml.IsEscaped, Split, Utf8.DecodeFirst, Xml.Unescape;
    CutIsSeam(t, limit, newline, space, protect);
    SkipsFirstByte(t, limit, newline, space, protect);
    FirstOfValid(t);
    if protect && t[0] == Xml.AMP {
      EntityFront(t);
      LetterSurvives(t[1..], limit, newline, space, protect);
    } else {
      ContinuationSurvives(t[1..], limit, newline, space, protect);
      PlainFront(t, protect);
    }
  }

  /** With nothing to cut at, the whole first byte is skipped. */
  lemma SkipsFirstByte(t: Bytes, limit: nat, newline: bool, space: bool, protect: bool)
    requires 0 < limit < |t| && Cut(t, limit, newline, space, protect) == 0
    ensures Split(t, limit, newline, space, protect) == Split(t[1..], limit, newline, space, protect)
  {}

  /** If some unit is larger than the limit, what is left of the chunks is not the text. */
  lemma {:induction false} SplitLoses(t: Bytes, limit: nat, newline: bool, space: bool, protect: bool)
    requires Sound(t, protect) && limit > 0 && !Fits(t, limit, protect)
    ensures Kept(Split(t, limit, newline, space, protect), protect) != DeleteStrip(Plain(t, protect))
    decreases |t|
  {
    hide Cut, Emit, Kept, Sound, Fits, UnitLen, Plain, DeleteStrip;
    if |t| <= limit {
      ShortFits(t, limit, protect);
    } else {
      var k := Cut(t, limit, newline, space, protect);
      if k == 0 && !IsStrip(t[0]) {
        FrontIsLost(t, limit, newline, space, protect);
      } else {
        StepIsSound(t, limit, newline, space, protect);
        var n := Advance(k);
        var rest := t[n..];
        assert t == t[..n] + rest;
        FitsAppend(t[..n], rest, limit, protect);
        ShortFits(t[..n], limit, protect);
        SplitLoses(rest, limit, newline, space, protect);
        EmittedIsKept(t[..n], protect);
        PlainAppend(t[..n], rest, protect);
        DeleteStripAppend(Plain(t[..n], protect), Plain(rest, protect));
        KeptAppend(Emit(t[..k]), Split(rest, limit, newline, space, protect), protect);
        if k == 0 {
          EmitStrip(t[..k]);
          EmitStrip(t[..1]);
        }
        var kept := Kept(Emit(t[..n]), protect);
        assert Kept(Emit(t[..k]), protect) == kept;
        PrefixCancels(kept, Kept(Split(rest, limit, newline, space, protect), protect), DeleteStrip(Plain(rest, protect)));
      }
    }
  }

  lemma PrefixCancels(p: Bytes, x: Bytes, y: Bytes)
    ensures p + x == p + y ==> x == y
  {
    assert (p + x)[|p|..] == x && (p + y)[|p|..] == y;
  }

  lemma EmitStrip(g: Bytes)
    requires AllStrip(g)
    ensures Emit(g) == []
  {
    assert [] + [] + g == g;
    StripIs([], [], g);
  }

  // ---- Main results ----------------------------------------------------------------------------------

  /** The chunks of an input stand for what is left of the cut text. */
  lemma ChunksStandFor(input: Bytes, o: Options)
    requires o.maxChunkSize > 0
    ensures var norm := Normalizer.Clean(input);
            var escaped := o.sizeAfterXmlEscape;
            var cut := Split(CutText(norm, escaped), o.maxChunkSize, o.preferNewline, o.preferSpace, escaped);
            && UnescapeEach(Chunks(input, o)) == PlainEach(cut, escaped)
            && Plain(CutText(norm, escaped), escaped) == norm
  {
    hide Split;
    var norm := Normalizer.Clean(input);
    Xml.UnescapeEscape(norm);
    if !o.sizeAfterXmlEscape {
      UnescapeEscapeEach(Split(norm, o.maxChunkSize, o.preferNewline, o.preferSpace, false));
    }
  }

  /**
    * Chunking loses nothing of an input exactly when no character of it is written with more bytes
    * than the limit; otherwise some character that is not white space is missing.
    */
  lemma LosslessIff(input: Bytes, o: Options)
    requires Utf8.Valid(input) && o.maxChunkSize > 0
    ensures Lossless(input, o) <==> RoomForEach(input, o)
    ensures KeepsText(input, o) <==> RoomForEach(input, o)
  {
    hide Covers, Sound, Fits, Split, RoomForEach, DeleteStrip, Chunks, UnescapeEach;
    var escaped := o.sizeAfterXmlEscape;
    var norm := Normalizer.Clean(input);
    var t := CutText(norm, escaped);
    FitsIffRoom(input, o);
    ChunksStandFor(input, o);
    var cut := Split(t, o.maxChunkSize, o.preferNewline, o.preferSpace, escaped);
    if RoomForEach(input, o) {
      SplitSound(t, o.maxChunkSize, o.preferNewline, o.preferSpace, escaped);
      CoveredPlain(t, cut, escaped);
      CoveredIsKept(t, cut, escaped);
    } else {
      SplitLoses(t, o.maxChunkSize, o.preferNewline, o.preferSpace, escaped);
      if Lossless(input, o) {
        CoversKeepsText(norm, UnescapeEach(Chunks(input, o)));
      }
    }
  }

  lemma CoveredPlain(t: Bytes, chunks: seq<Bytes>, escaped: bool)
    requires Sound(t, escaped) && Covers(t, chunks) && forall c :: c in chunks ==> Sound(c, escaped)
    ensures Covers(Plain(t, escaped), PlainEach(chunks, escaped))
  {
    hide Covers, Xml.Unescape;
    if escaped {
      UnescapeCovers(t, chunks);
      assert PlainEach(chunks, escaped) == UnescapeEach(chunks);
    } else {
      assert PlainEach(chunks, escaped) == chunks;
    }
  }

  /** From the size of the largest unit on, there is room for every input. */
  lemma EnoughRoom(input: Bytes, o: Options)
    requires Utf8.Valid(input) && o.maxChunkSize >= LargestUnit(o.sizeAfterXmlEscape)
    ensures RoomForEach(input, o)
  {
    hide Fits, RoomForEach;
    FitsIffRoom(input, o);
    ShortFits(CutText(Normalizer.Clean(input), o.sizeAfterXmlEscape), o.maxChunkSize, o.sizeAfterXmlEscape);
  }

  lemma ChunkLossless(input: Bytes, o: Options)
    requires Utf8.Valid(input) && o.maxChunkSize >= LargestUnit(o.sizeAfterXmlEscape)
    ensures Lossless(input, o) && KeepsText(input, o)
  {
    hide Lossless, KeepsText, RoomForEach;
    EnoughRoom(input, o);
    LosslessIff(input, o);
  }

  /**
    * If each character has room, chunks are never empty and hold only whole code points and entities;
    * in escape-first mode they also are stripped and within the limit.
    */
  lemma ChunksAreWhole(input: Bytes, o: Options)
    requires Utf8.Valid(input) && o.maxChunkSize > 0 && RoomForEach(input, o)
    ensures forall c :: c in Chunks(input, o) ==> c != [] && Sound(c, true)
    ensures o.sizeAfterXmlEscape ==>
              forall c :: c in Chunks(input, o) ==> Stripped(c) && |c| <= o.maxChunkSize
  {
    hide Covers, Sound, Fits, RoomForEach, Split;
    var escaped := o.sizeAfterXmlEscape;
    var t := CutText(Normalizer.Clean(input), escaped);
    FitsIffRoom(input, o);
    SplitSound(t, o.maxChunkSize, o.preferNewline, o.preferSpace, escaped);
    ChunksFit(t, o.maxChunkSize, o.preferNewline, o.preferSpace, escaped);
    if !escaped {
      var raw := Split(t, o.maxChunkSize, o.preferNewline, o.preferSpace, false);
      forall k | 0 <= k < |raw|
        ensures Sound(EscapeEach(raw)[k], true) && EscapeEach(raw)[k] != []
      {
        assert raw[k] in raw;
        EscapedIsSound(raw[k]);
      }
    }
  }

  lemma EscapedIsSound(t: Bytes)
    requires Sound(t, false) && t != []
    ensures Sound(Xml.Escape(t), true) && Xml.Escape(t) != []
  {
    Xml.EscapeValid(t);
    Xml.EscapeIsEscaped(t);
  }

  /** The character that needs the most room: `&` when escaped, U+10000 when not. */
  function Widest(escaped: bool): Utf8.Scalar {
    if escaped then 38 else 0x10000
  }

  /** A chunker loses no text of any input exactly when its limit has room for the largest unit. */
  lemma LosslessIffRoom(o: Options)
    requires o.maxChunkSize > 0
    ensures (forall input: Bytes :: Utf8.Valid(input) ==> Lossless(input, o)) <==>
            o.maxChunkSize >= LargestUnit(o.sizeAfterXmlEscape)
  {
    hide Lossless, Utf8.Valid, RoomForEach;
    if o.maxChunkSize >= LargestUnit(o.sizeAfterXmlEscape) {
      forall input: Bytes | Utf8.Valid(input)
        ensures Lossless(input, o)
      {
        ChunkLossless(input, o);
      }
    } else {
      var input := Utf8.Encode(Widest(o.sizeAfterXmlEscape));
      WidestIsLost(o);
      LosslessIff(input, o);
    }
  }

  /** Below the safe limit a single character is lost. */
  lemma WidestIsLost(o: Options)
    requires 0 < o.maxChunkSize < LargestUnit(o.sizeAfterXmlEscape)
    ensures var input := Utf8.Encode(Widest(o.sizeAfterXmlEscape));
            Utf8.Valid(input) && !RoomForEach(input, o) && !Lossless(input, o)
  {
    hide Lossless;
    var cp := Widest(o.sizeAfterXmlEscape);
    var input := Utf8.Encode(cp);
    Utf8.EncodeAllOne(cp);
    Utf8.EncodeAllDecodes([cp]);
    assert Utf8.Decode(input)[0] == cp;
    if o.sizeAfterXmlEscape {
      assert input == [Xml.AMP] && input[1..] == [];
      assert Xml.Escape(input) == Xml.ENTITY_AMP + Xml.Escape([]);
    }
    LosslessIff(input, o);
  }
}
