/** Where the splitter cuts, said without the steps that find the place. */
module ChunkerCuts {
  import opened Bytes
  import opened TextChunker
  import opened ChunkerProperties
  import opened ChunkerLoss
  import Utf8
  import Xml = XmlEscaper
  import Normalizer = TextNormalizer

  /** Position `k` is the last below `limit` that holds `c`. */
  predicate IsLast(t: Bytes, c: byte, limit: nat, k: nat) {
    k < limit <= |t| && t[k] == c && c !in t[k + 1..limit]
  }

  /** Position `k` is the last seam at or below `limit`. */
  ghost predicate IsLastSeam(t: Bytes, limit: nat, protect: bool, k: nat) {
    k <= limit && IsSeam(t, k, protect) && forall p :: k < p <= limit ==> !IsSeam(t, p, protect)
  }

  /**
    * The place to cut: at the last newline below the limit if newlines are preferred and there is one,
    * else at the last space if spaces are preferred and there is one, else at the last seam.
    */
  ghost predicate IsCut(t: Bytes, limit: nat, newline: bool, space: bool, protect: bool, k: nat)
    requires limit <= |t|
  {
    if newline && LF in t[..limit] then IsLast(t, LF, limit, k)
    else if space && SPACE in t[..limit] then IsLast(t, SPACE, limit, k)
    else IsLastSeam(t, limit, protect, k)
  }

  lemma LastIs(t: Bytes, c: byte, limit: nat)
    requires limit <= |t|
    ensures match FindLast(t, c, limit)
            case Some(k) => c in t[..limit] && IsLast(t, c, limit, k)
            case None => c !in t[..limit]
  {
    var r := FindLast(t, c, limit);
    if r.Some? {
      assert t[..limit][r.value] == c;
    }
  }

  /** No place between tokens lies inside an entity. */
  lemma NoSeamInEntity(t: Bytes, r: nat, p: nat)
    requires Xml.IsTokenBoundary(t, r) && r < p <= |t| && t[r] == Xml.AMP && p < r + Xml.TokenLen(t[r..])
    ensures !Xml.IsTokenBoundary(t, p)
  {
    hide AdjustedCut, Xml.TokenByte, Xml.TokenLen, Xml.IsEscaped;
    BacksToEntity(t, r, p);
    if Xml.IsTokenBoundary(t, p) {
      StaysAtBoundary(t, p);
    }
  }

  /** With no separator, backing out from the last code-point start reaches the last seam. */
  lemma CutIsLastSeam(t: Bytes, limit: nat, protect: bool)
    requires Sound(t, protect) && 0 < limit < |t|
    ensures var k := Utf8.PrevBoundary(t, limit);
            IsLastSeam(t, limit, protect, if protect then AdjustedCut(t, k) else k)
  {
    hide AdjustedCut, Xml.TokenByte, Xml.TokenLen, Xml.IsEscaped, Utf8.Valid, Utf8.IsContinuation;
    var k := Utf8.PrevBoundary(t, limit);
    PrevBoundaryNear(t, limit);
    if protect {
      AdjustedIsSeam(t, limit);
      AdjustedCutIsBoundary(t, k);
      var r := AdjustedCut(t, k);
      forall p | r < p <= k
        ensures !IsSeam(t, p, true)
      {
        NoSeamInEntity(t, r, p);
      }
    }
  }

  /** The splitter cuts there. */
  lemma CutIsCut(t: Bytes, limit: nat, newline: bool, space: bool, protect: bool)
    requires Sound(t, protect) && 0 < limit < |t|
    ensures IsCut(t, limit, newline, space, protect, Cut(t, limit, newline, space, protect))
  {
    hide FindLast, AdjustedCut, Utf8.PrevBoundary, Utf8.Valid, Xml.IsEscaped, IsSeam;
    LastIs(t, LF, limit);
    LastIs(t, SPACE, limit);
    CutIsLastSeam(t, limit, protect);
    if protect {
      var sep := Separator(t, limit, newline, space);
      if sep.Some? {
        Xml.PlainByteIsBoundary(t, sep.value);
        StaysAtBoundary(t, sep.value);
      }
    }
  }

  lemma NoneAfterLast(t: Bytes, c: byte, limit: nat, k: nat, j: nat)
    requires IsLast(t, c, limit, k) && k < j < limit
    ensures t[j] != c
  {
    assert t[k + 1..limit][j - k - 1] == t[j];
  }

  lemma OneLast(t: Bytes, c: byte, limit: nat, j: nat, k: nat)
    requires IsLast(t, c, limit, j) && IsLast(t, c, limit, k)
    ensures j == k
  {
    if j != k {
      NoneAfterLast(t, c, limit, if j < k then j else k, if j < k then k else j);
    }
  }

  /** There is one such place at most, so `IsCut` determines it. */
  lemma OneCut(t: Bytes, limit: nat, newline: bool, space: bool, protect: bool, j: nat, k: nat)
    requires limit <= |t|
    requires IsCut(t, limit, newline, space, protect, j) && IsCut(t, limit, newline, space, protect, k)
    ensures j == k
  {
    hide IsSeam, IsLast;
    if newline && LF in t[..limit] {
      OneLast(t, LF, limit, j, k);
    } else if space && SPACE in t[..limit] {
      OneLast(t, SPACE, limit, j, k);
    }
  }

  // ---- All cuts of a text ---------------------------------------------------------------

  /** `chunks` is `c`, unless it is empty, followed by `rest`. */
  predicate Leads(c: Bytes, rest: seq<Bytes>, chunks: seq<Bytes>) {
    chunks == if c == [] then rest else [c] + rest
  }

  /** `t` is cut into `chunks`: each cut as `IsCut` says, the stretches stripped, the empty ones left out. */
  ghost predicate IsSplit(t: Bytes, limit: nat, newline: bool, space: bool, protect: bool, chunks: seq<Bytes>)
    requires limit > 0
    decreases |t|
  {
    if |t| <= limit then Leads(Strip(t), [], chunks)
    else exists k: nat, rest: seq<Bytes> :: SplitsAt(t, limit, newline, space, protect, chunks, k, rest)
  }

  /** The first cut is at `k`; a cut at the front skips one byte. */
  ghost predicate SplitsAt(t: Bytes, limit: nat, newline: bool, space: bool, protect: bool, chunks: seq<Bytes>, k: nat, rest: seq<Bytes>)
    requires 0 < limit < |t|
    decreases |t|, 0
  {
    && k <= limit && IsCut(t, limit, newline, space, protect, k)
    && Leads(Strip(t[..k]), rest, chunks)
    && IsSplit(t[if k == 0 then 1 else k..], limit, newline, space, protect, rest)
  }

  /** Whatever the units of the text, the first chunk ends at the first such place. */
  lemma FirstCut(t: Bytes, limit: nat, newline: bool, space: bool, protect: bool) returns (k: nat)
    requires Sound(t, protect) && 0 < limit < |t|
    ensures k <= limit && IsCut(t, limit, newline, space, protect, k)
    ensures Leads(Strip(t[..k]), Split(t[if k == 0 then 1 else k..], limit, newline, space, protect),
                  Split(t, limit, newline, space, protect))
  {
    hide IsCut, Cut, Strip;
    CutIsCut(t, limit, newline, space, protect);
    k := Cut(t, limit, newline, space, protect);
  }

  lemma FirstOfSplit(t: Bytes, limit: nat, newline: bool, space: bool, protect: bool, chunks: seq<Bytes>)
    returns (k: nat, rest: seq<Bytes>)
    requires 0 < limit < |t| && IsSplit(t, limit, newline, space, protect, chunks)
    ensures SplitsAt(t, limit, newline, space, protect, chunks, k, rest)
  {
    hide IsCut, Strip, Leads;
    k, rest :| SplitsAt(t, limit, newline, space, protect, chunks, k, rest);
  }

  /** If every unit fits the limit, the chunks are the result of cutting at those places all the way, and nothing else is. */
  lemma {:induction false} SplitIff(t: Bytes, limit: nat, newline: bool, space: bool, protect: bool, chunks: seq<Bytes>)
    requires Sound(t, protect) && limit > 0 && Fits(t, limit, protect)
    ensures chunks == Split(t, limit, newline, space, protect) <==> IsSplit(t, limit, newline, space, protect, chunks)
    decreases |t|
  {
    hide IsCut, Cut, Strip, Sound, Fits, UnitLen, IsSeam;
    if |t| > limit {
      var k := FirstCut(t, limit, newline, space, protect);
      var n := if k == 0 then 1 else k;
      var rest := Split(t[n..], limit, newline, space, protect);
      CutLeavesSound(t, limit, newline, space, protect, k);
      SplitIff(t[n..], limit, newline, space, protect, rest);
      if chunks == Split(t, limit, newline, space, protect) {
        assert SplitsAt(t, limit, newline, space, protect, chunks, k, rest);
      }
      if IsSplit(t, limit, newline, space, protect, chunks) {
        var j, others := FirstOfSplit(t, limit, newline, space, protect, chunks);
        OneCut(t, limit, newline, space, protect, j, k);
        SplitIff(t[n..], limit, newline, space, protect, others);
      }
    }
  }

  lemma CutLeavesSound(t: Bytes, limit: nat, newline: bool, space: bool, protect: bool, k: nat)
    requires Sound(t, protect) && 0 < limit < |t| && Fits(t, limit, protect)
    requires k <= limit && IsCut(t, limit, newline, space, protect, k)
    ensures var n := if k == 0 then 1 else k;
            Sound(t[n..], protect) && Fits(t[n..], limit, protect)
  {
    hide IsCut, Cut, Sound, Fits, UnitLen, IsSeam;
    CutIsCut(t, limit, newline, space, protect);
    OneCut(t, limit, newline, space, protect, k, Cut(t, limit, newline, space, protect));
    FirstUnitFits(t, limit, protect);
    CutIsSeam(t, limit, newline, space, protect);
    StepIsSound(t, limit, newline, space, protect);
    var n := Advance(k);
    assert t == t[..n] + t[n..];
    FitsAppend(t[..n], t[n..], limit, protect);
  }

  /** The normalized text cut at those places, escaped before or after. */
  ghost predicate IsChunking(norm: Bytes, o: Options, chunks: seq<Bytes>)
    requires o.maxChunkSize > 0
  {
    if o.sizeAfterXmlEscape then
      IsSplit(Xml.Escape(norm), o.maxChunkSize, o.preferNewline, o.preferSpace, true, chunks)
    else
      exists raw :: IsSplit(norm, o.maxChunkSize, o.preferNewline, o.preferSpace, false, raw) && chunks == EscapeEach(raw)
  }

  /** If each character has room, the chunks of a valid input are its only chunking. */
  lemma ChunkingIff(input: Bytes, o: Options, chunks: seq<Bytes>)
    requires Utf8.Valid(input) && o.maxChunkSize > 0 && RoomForEach(input, o)
    ensures chunks == Chunks(input, o) <==> IsChunking(Normalizer.Clean(input), o, chunks)
  {
    hide Utf8.Valid, Normalizer.Clean, Xml.Escape, Xml.IsEscaped, IsSplit, Split, Fits, RoomForEach;
    FitsIffRoom(input, o);
    var norm := Normalizer.Clean(input);
    if o.sizeAfterXmlEscape {
      SplitIff(Xml.Escape(norm), o.maxChunkSize, o.preferNewline, o.preferSpace, true, chunks);
    } else {
      forall raw
        ensures raw == Split(norm, o.maxChunkSize, o.preferNewline, o.preferSpace, false) <==>
                IsSplit(norm, o.maxChunkSize, o.preferNewline, o.preferSpace, false, raw)
      {
        SplitIff(norm, o.maxChunkSize, o.preferNewline, o.preferSpace, false, raw);
      }
    }
  }
}
