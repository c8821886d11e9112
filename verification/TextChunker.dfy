/** Cutting text into service-safe chunks (`serialization/TextChunker`). */
module TextChunker {
  import opened Bytes
  import Utf8
  import Xml = XmlEscaper
  import Normalizer = TextNormalizer

  datatype Options = Options(
    maxChunkSize: nat,
    sizeAfterXmlEscape: bool,
    preferNewline: bool,
    preferSpace: bool)

  // ---- Stripping ------------------------------------------------------------------

  predicate IsStrip(c: byte) {
    c == 0x20 || c == 0x09 || c == 0x0A || c == 0x0D || c == 0x0B || c == 0x0C
  }

  predicate AllStrip(t: Bytes) {
    forall k :: 0 <= k < |t| ==> IsStrip(t[k])
  }

  predicate Stripped(t: Bytes) {
    t == [] || (!IsStrip(t[0]) && !IsStrip(t[|t| - 1]))
  }

  /** The longest stretch of `sv` with no strip byte at either end, as the range [lo, hi). */
  method StripView(sv: Bytes) returns (lo: nat, hi: nat)
    ensures lo <= hi <= |sv|
    ensures sv[lo..hi] == Strip(sv)
    ensures Emit(sv) == if lo < hi then [sv[lo..hi]] else []
  {
    lo, hi := 0, |sv|;
    while lo < hi && IsStrip(sv[lo])
      invariant lo <= hi == |sv|
      invariant AllStrip(sv[..lo])
    {
      lo := lo + 1;
    }
    while lo < hi && IsStrip(sv[hi - 1])
      invariant lo <= hi <= |sv|
      invariant AllStrip(sv[hi..])
      invariant lo < |sv| ==> !IsStrip(sv[lo])
    {
      hi := hi - 1;
    }
    StripIs(sv[..lo], sv[lo..hi], sv[hi..]);
    assert sv == sv[..lo] + sv[lo..hi] + sv[hi..];
  }

  function StripLeft(t: Bytes): Bytes {
    if t != [] && IsStrip(t[0]) then StripLeft(t[1..]) else t
  }

  function StripRight(t: Bytes): Bytes {
    if t != [] && IsStrip(t[|t| - 1]) then StripRight(t[..|t| - 1]) else t
  }

  function Strip(t: Bytes): Bytes {
    StripRight(StripLeft(t))
  }

  /** Stripping is determined by the shape of its result. */
  lemma StripIs(l: Bytes, core: Bytes, r: Bytes)
    requires AllStrip(l) && AllStrip(r) && Stripped(core)
    ensures Strip(l + core + r) == core
  {
    StripLeftIs(l, core + r);
    assert l + (core + r) == l + core + r;
    if core == [] {
      assert core + r == r && r + [] == r;
      StripLeftIs(r, []);
    } else {
      StripRightIs(core, r);
    }
  }

  lemma {:induction false} StripLeftIs(l: Bytes, t: Bytes)
    requires AllStrip(l)
    ensures StripLeft(l + t) == StripLeft(t)
  {
    if l == [] {
      assert l + t == t;
    } else {
      assert (l + t)[1..] == l[1..] + t;
      StripLeftIs(l[1..], t);
    }
  }

  lemma {:induction false} StripRightIs(t: Bytes, r: Bytes)
    requires AllStrip(r)
    ensures StripRight(t + r) == StripRight(t)
  {
    if r == [] {
      assert t + r == t;
    } else {
      assert (t + r)[..|t + r| - 1] == t + r[..|r| - 1];
      StripRightIs(t, r[..|r| - 1]);
    }
  }

  /** What stripping removes: strip bytes at the two ends, until a kept byte shows. */
  lemma {:induction false} StripSplits(t: Bytes) returns (l: Bytes, r: Bytes)
    ensures t == l + Strip(t) + r && AllStrip(l) && AllStrip(r) && Stripped(Strip(t))
  {
    if t == [] {
      l, r := [], [];
    } else if IsStrip(t[0]) {
      l, r := StripSplits(t[1..]);
      l := [t[0]] + l;
    } else {
      r := StripRightSplits(t);
      l := [];
    }
  }

  lemma {:induction false} StripRightSplits(t: Bytes) returns (r: Bytes)
    ensures t == StripRight(t) + r && AllStrip(r)
    ensures StripRight(t) == [] || !IsStrip(StripRight(t)[|StripRight(t)| - 1])
  {
    r := [];
    if t != [] && IsStrip(t[|t| - 1]) {
      r := StripRightSplits(t[..|t| - 1]);
      r := r + [t[|t| - 1]];
    }
  }

  // ---- Choosing the cut -------------------------------------------------------------

  /** The cut moved in front of every entity it would leave open. */
  function AdjustedCut(text: Bytes, splitAt: nat): (r: nat)
    ensures r <= splitAt
  {
    var amp := FindLast(text, Xml.AMP, splitAt);
    if amp.None? then splitAt
    else
      var semi := Find(text, Xml.SEMICOLON, amp.value + 1);
      if semi.Some? && semi.value < splitAt then splitAt else AdjustedCut(text, amp.value)
  }

  method AdjustXmlEntity(text: Bytes, proposed: nat) returns (splitAt: nat)
    ensures splitAt == AdjustedCut(text, proposed)
  {
    splitAt := proposed;
    while splitAt > 0
      invariant AdjustedCut(text, splitAt) == AdjustedCut(text, proposed)
    {
      var amp := FindLast(text, Xml.AMP, splitAt);
      if amp.None? {
        break;
      }
      var semi := Find(text, Xml.SEMICOLON, amp.value + 1);
      if semi.Some? && semi.value < splitAt {
        break;
      }
      splitAt := amp.value;
    }
  }

  /** The separator the text is cut at, if one is preferred and present within the limit. */
  function Separator(text: Bytes, limit: nat, newline: bool, space: bool): Option<nat> {
    var nl := if newline then FindLast(text, LF, limit) else None;
    if nl.None? && space then FindLast(text, SPACE, limit) else nl
  }

  function Cut(text: Bytes, limit: nat, newline: bool, space: bool, protect: bool): (k: nat)
    requires 0 < limit < |text|
    ensures k <= limit
  {
    var sep := Separator(text, limit, newline, space);
    var k := if sep.Some? then sep.value else Utf8.PrevBoundary(text, limit);
    if protect then AdjustedCut(text, k) else k
  }

  function Emit(t: Bytes): seq<Bytes> {
    if Strip(t) == [] then [] else [Strip(t)]
  }

  function Advance(k: nat): nat {
    if k > 0 then k else 1
  }

  function Split(text: Bytes, limit: nat, newline: bool, space: bool, protect: bool): seq<Bytes>
    requires limit > 0
    decreases |text|
  {
    if |text| <= limit then Emit(text)
    else
      var k := Cut(text, limit, newline, space, protect);
      Emit(text[..k]) + Split(text[Advance(k)..], limit, newline, space, protect)
  }

  /** Steps 1 to 4 of the loop: newline, space, code-point start, then back out of an entity. */
  method ChooseCut(text: Bytes, limit: nat, newline: bool, space: bool, protect: bool) returns (splitAt: nat)
    requires 0 < limit < |text|
    ensures splitAt == Cut(text, limit, newline, space, protect)
  {
    hide AdjustedCut, Utf8.PrevBoundary, Utf8.IsContinuation;
    var found: Option<nat> := None;
    if newline {
      found := FindLast(text, LF, limit);
    }
    if found.None? && space {
      found := FindLast(text, SPACE, limit);
    }
    if found.None? {
      splitAt := limit;
      while splitAt > 0 && Utf8.IsContinuation(text[splitAt])
        invariant splitAt <= limit
        invariant Utf8.PrevBoundary(text, splitAt) == Utf8.PrevBoundary(text, limit)
      {
        splitAt := splitAt - 1;
      }
    } else {
      splitAt := found.value;
    }
    if protect {
      splitAt := AdjustXmlEntity(text, splitAt);
    }
  }

  method SplitByLimit(input: Bytes, limit: nat, newline: bool, space: bool, protect: bool)
    returns (result: seq<Bytes>)
    requires limit > 0
    ensures result == Split(input, limit, newline, space, protect)
  {
    hide Cut, Emit, Strip;
    result := [];
    var text := input;
    while |text| > limit
      invariant Split(input, limit, newline, space, protect) == result + Split(text, limit, newline, space, protect)
    {
      var splitAt := ChooseCut(text, limit, newline, space, protect);
      var lo, hi := StripView(text[..splitAt]);
      assert Split(text, limit, newline, space, protect) ==
             Emit(text[..splitAt]) + Split(text[Advance(splitAt)..], limit, newline, space, protect);
      if lo < hi {
        result := result + [text[..splitAt][lo..hi]];
      }
      text := text[if splitAt > 0 then splitAt else 1..];
    }
    var lo, hi := StripView(text);
    assert Split(text, limit, newline, space, protect) == Emit(text);
    if lo < hi {
      result := result + [text[lo..hi]];
    }
  }

  // ---- The public operation -----------------------------------------------------------

  function EscapeEach(raw: seq<Bytes>): (r: seq<Bytes>)
    ensures |r| == |raw| && forall k :: 0 <= k < |raw| ==> r[k] == Xml.Escape(raw[k])
  {
    seq(|raw|, k requires 0 <= k < |raw| => Xml.Escape(raw[k]))
  }

  /** The chunks of a valid input. */
  function Chunks(input: Bytes, o: Options): seq<Bytes>
    requires o.maxChunkSize > 0
  {
    var norm := Normalizer.Clean(input);
    if o.sizeAfterXmlEscape then
      Split(Xml.Escape(norm), o.maxChunkSize, o.preferNewline, o.preferSpace, true)
    else
      EscapeEach(Split(norm, o.maxChunkSize, o.preferNewline, o.preferSpace, false))
  }

  /** `None` stands for the exception the constructor throws on a maximum of zero. */
  method Chunk(input: Bytes, o: Options) returns (r: Option<Result<seq<Bytes>>>)
    ensures o.maxChunkSize == 0 ==> r == None
    ensures o.maxChunkSize > 0 ==>
              r == Some(if Utf8.Valid(input) then Ok(Chunks(input, o)) else Err(InvalidArgument))
  {
    hide Utf8.Valid, Split, Normalizer.Clean;
    if o.maxChunkSize == 0 {
      return None;
    }
    var norm := Normalizer.Normalize(input);
    if norm.Err? {
      return Some(Err(norm.code));
    }
    if o.sizeAfterXmlEscape {
      var escaped := Xml.XmlEscape(norm.value);
      var chunks := SplitByLimit(escaped, o.maxChunkSize, o.preferNewline, o.preferSpace, true);
      return Some(Ok(chunks));
    }
    var rawChunks := SplitByLimit(norm.value, o.maxChunkSize, o.preferNewline, o.preferSpace, false);
    var result: seq<Bytes> := [];
    for k := 0 to |rawChunks|
      invariant result == EscapeEach(rawChunks)[..k]
    {
      var e := Xml.XmlEscape(rawChunks[k]);
      result := result + [e];
    }
    assert result == EscapeEach(rawChunks);
    return Some(Ok(result));
  }
}
