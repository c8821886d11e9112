/** UTF-8 validation, code-point boundaries and the splitter (`common/Utf8`). */
module Utf8 {
  import opened Bytes

  // ---- Reference: RFC 3629, sections 3 and 4 ---------------------------------

  predicate IsScalar(cp: int) {
    0 <= cp < 0xD800 || 0xE000 <= cp <= 0x10FFFF
  }

  type Scalar = cp: int | 0 <= cp < 0xD800 || 0xE000 <= cp <= 0x10FFFF

  /** The octet sequence of one Unicode scalar value (the table of section 3). */
  function Encode(cp: Scalar): (e: Bytes)
    ensures 1 <= |e| <= 4
  {
    if cp < 0x80 then [Octet(cp)]
    else if cp < 0x800 then [Octet(0xC0 + cp / 64), Trail(cp)]
    else if cp < 0x10000 then [Octet(0xE0 + cp / 64 / 64), Trail(cp / 64), Trail(cp)]
    else [Octet(0xF0 + cp / 64 / 64 / 64), Trail(cp / 64 / 64), Trail(cp / 64), Trail(cp)]
  }

  function Octet(x: int): byte
    requires 0 <= x < 256
  {
    x
  }

  /** A trailing octet: the bits 10 followed by the low six bits of `x`. */
  function Trail(x: nat): byte {
    0x80 + x % 64
  }

  function EncodeAll(cps: seq<Scalar>): Bytes {
    if cps == [] then [] else Encode(cps[0]) + EncodeAll(cps[1..])
  }

  // ---- Decoding ---------------------------------------------------------------

  /** A byte of the form 10xxxxxx. */
  predicate IsContinuation(b: byte) {
    b / 64 == 2
  }

  /** The low six bits of a continuation byte. */
  function Low6(b: byte): (v: int)
    ensures 0 <= v < 64
  {
    b % 64
  }

  /** The scalar value whose encoding starts `t`, if there is one. */
  function DecodeFirst(t: Bytes): Option<Scalar>
    requires t != []
  {
    var b0: int := t[0];
    if b0 < 0x80 then Some(b0)
    else if b0 / 32 == 6 then
      if |t| < 2 || !IsContinuation(t[1]) || b0 < 0xC2 then None
      else Some(b0 % 32 * 64 + Low6(t[1]))
    else if b0 / 16 == 14 then
      if |t| < 3 || !IsContinuation(t[1]) || !IsContinuation(t[2]) then None
      else
        var cp := (b0 % 16 * 64 + Low6(t[1])) * 64 + Low6(t[2]);
        if cp >= 0x800 && IsScalar(cp) then Some(cp) else None
    else if b0 / 8 == 30 then
      if |t| < 4 || !IsContinuation(t[1]) || !IsContinuation(t[2]) || !IsContinuation(t[3]) then None
      else
        var cp := ((b0 % 8 * 64 + Low6(t[1])) * 64 + Low6(t[2])) * 64 + Low6(t[3]);
        if cp >= 0x10000 && IsScalar(cp) then Some(cp) else None
    else None
  }

  /** `DecodeFirst` finds an encoding exactly when the text starts with one. */
  lemma DecodeFirstExact(t: Bytes, cp: Scalar)
    requires t != []
    ensures DecodeFirst(t) == Some(cp) <==> Encode(cp) <= t
  {
    if Encode(cp) <= t {
      EncodeDecodes(t, cp);
    }
    if DecodeFirst(t) == Some(cp) {
      DecodeEncodes(t, cp);
    }
  }

  lemma TrailKeepsLowBits(x: nat)
    ensures IsContinuation(Trail(x)) && Low6(Trail(x)) == x % 64 && x == x / 64 * 64 + x % 64
  {}

  lemma EncodeDecodes(t: Bytes, cp: Scalar)
    requires t != [] && Encode(cp) <= t
    ensures DecodeFirst(t) == Some(cp)
  {
    var e := Encode(cp);
    assert forall k :: 0 <= k < |e| ==> e[k] == t[k];
    TrailKeepsLowBits(cp);
    if 0x800 <= cp {
      TrailKeepsLowBits(cp / 64);
      if 0x10000 <= cp {
        TrailKeepsLowBits(cp / 64 / 64);
        assert (0xF0 + cp / 64 / 64 / 64) % 8 == cp / 64 / 64 / 64;
      } else {
        assert (0xE0 + cp / 64 / 64) % 16 == cp / 64 / 64;
      }
    }
  }

  lemma TrailOfContinuation(x: nat, b: byte)
    requires IsContinuation(b) && x % 64 == Low6(b)
    ensures Trail(x) == b
  {}

  /** Appending six bits and taking them off again. */
  lemma PushLow6(x: nat, b: byte)
    ensures (x * 64 + Low6(b)) / 64 == x && (x * 64 + Low6(b)) % 64 == Low6(b)
  {}

  lemma DecodeEncodes(t: Bytes, cp: Scalar)
    requires t != [] && DecodeFirst(t) == Some(cp)
    ensures Encode(cp) <= t
  {
    var b0: int := t[0];
    if b0 < 0x80 {
      assert Encode(cp) == t[..1];
    } else {
      if b0 / 32 == 6 {
        PushLow6(b0 % 32, t[1]);
        TrailOfContinuation(cp, t[1]);
        assert 0x80 <= cp < 0x800;
        assert Encode(cp) == t[..2];
      } else if b0 / 16 == 14 {
        DecodeEncodes3(t, cp);
      } else {
        DecodeEncodes4(t, cp);
      }
    }
  }

  lemma DecodeEncodes3(t: Bytes, cp: Scalar)
    requires t != [] && DecodeFirst(t) == Some(cp) && t[0] / 16 == 14
    ensures Encode(cp) <= t
  {
    var x1 := t[0] % 16 * 64 + Low6(t[1]);
    PushLow6(t[0] % 16, t[1]);
    PushLow6(x1, t[2]);
    TrailOfContinuation(x1, t[1]);
    TrailOfContinuation(cp, t[2]);
    assert Encode(cp) == [Octet(0xE0 + cp / 64 / 64), Trail(cp / 64), Trail(cp)];
    assert Encode(cp) == t[..3];
  }

  lemma DecodeEncodes4(t: Bytes, cp: Scalar)
    requires t != [] && DecodeFirst(t) == Some(cp) && t[0] / 8 == 30
    ensures Encode(cp) <= t
  {
    var x1 := t[0] % 8 * 64 + Low6(t[1]);
    var x2 := x1 * 64 + Low6(t[2]);
    PushLow6(t[0] % 8, t[1]);
    PushLow6(x1, t[2]);
    PushLow6(x2, t[3]);
    TrailOfContinuation(x1, t[1]);
    TrailOfContinuation(x2, t[2]);
    TrailOfContinuation(cp, t[3]);
    assert Encode(cp) == [Octet(0xF0 + cp / 64 / 64 / 64), Trail(cp / 64 / 64), Trail(cp / 64), Trail(cp)];
    assert Encode(cp) == t[..4];
  }

  /** A text the scanner accepts: code point after code point up to the end. */
  predicate Valid(t: Bytes) {
    t == [] || (DecodeFirst(t).Some? && |t| >= UnitLen(t) && Valid(t[UnitLen(t)..]))
  }

  /** Length of the first code point of `t`. */
  function UnitLen(t: Bytes): (n: nat)
    requires t != [] && DecodeFirst(t).Some?
    ensures 1 <= n <= 4 && n <= |t|
    ensures !IsContinuation(t[0]) && forall k :: 1 <= k < n ==> IsContinuation(t[k])
    ensures n > 1 ==> t[0] >= 0x80
  {
    DecodeEncodes(t, DecodeFirst(t).value);
    |Encode(DecodeFirst(t).value)|
  }

  // ---- The scanner agrees with the reference ----------------------------------

  /** The scalar values a valid text encodes. */
  function Decode(t: Bytes): (cps: seq<Scalar>)
    requires Valid(t)
    ensures EncodeAll(cps) == t
  {
    if t == [] then []
    else
      FirstUnitIsEncoding(t);
      var cp := DecodeFirst(t).value;
      var rest := Decode(t[UnitLen(t)..]);
      assert ([cp] + rest)[1..] == rest;
      [cp] + rest
  }

  lemma FirstUnitIsEncoding(t: Bytes)
    requires t != [] && DecodeFirst(t).Some?
    ensures t == Encode(DecodeFirst(t).value) + t[UnitLen(t)..]
  {
    DecodeEncodes(t, DecodeFirst(t).value);
  }

  /** Every sequence of scalar values encodes to a valid text that decodes to it alone. */
  lemma {:induction false} EncodeAllDecodes(cps: seq<Scalar>)
    ensures Valid(EncodeAll(cps)) && Decode(EncodeAll(cps)) == cps
  {
    if cps != [] {
      var t := EncodeAll(cps);
      EncodeDecodes(t, cps[0]);
      assert t[UnitLen(t)..] == EncodeAll(cps[1..]);
      EncodeAllDecodes(cps[1..]);
    }
  }

  /** Accepted texts are exactly the concatenations of encodings of scalar values. */
  lemma ValidIffEncoded(t: Bytes)
    ensures Valid(t) <==> exists cps: seq<Scalar> :: EncodeAll(cps) == t
  {
    if Valid(t) {
      assert EncodeAll(Decode(t)) == t;
    }
    if cps: seq<Scalar> :| EncodeAll(cps) == t {
      EncodeAllDecodes(cps);
    }
  }

  /** A text has at most one reading as a sequence of scalar values. */
  lemma EncodeAllInjective(xs: seq<Scalar>, ys: seq<Scalar>)
    requires EncodeAll(xs) == EncodeAll(ys)
    ensures xs == ys
  {
    EncodeAllDecodes(xs);
    EncodeAllDecodes(ys);
  }

  /** The code point accumulated from a lead value and the `j` bytes after `t[0]`. */
  function Accumulate(lead: int, t: Bytes, j: nat): int
    requires j < |t|
  {
    if j == 0 then lead else Accumulate(lead, t, j - 1) * 64 + Low6(t[j])
  }

  /** What the scanner reads off the first byte of a multi-byte code point. */
  ghost predicate LeadClass(b0: int, extra: nat, minCp: int, lead: int) {
    || (b0 / 32 == 6 && b0 >= 0xC2 && extra == 1 && minCp == 0x80 && lead == b0 % 32)
    || (b0 / 16 == 14 && extra == 2 && minCp == 0x800 && lead == b0 % 16)
    || (b0 / 8 == 30 && b0 <= 0xF4 && extra == 3 && minCp == 0x10000 && lead == b0 % 8)
  }

  lemma ScanBadLead(t: Bytes)
    requires t != [] && t[0] >= 0x80
    requires t[0] / 32 != 6 || t[0] < 0xC2
    requires t[0] / 16 != 14
    requires t[0] / 8 != 30 || t[0] > 0xF4
    ensures DecodeFirst(t) == None
  {}

  lemma ScanTruncated(t: Bytes, extra: nat, minCp: int, lead: int, j: nat)
    requires t != [] && LeadClass(t[0], extra, minCp, lead) && j < extra
    requires j + 1 < |t| ==> !IsContinuation(t[j + 1])
    ensures DecodeFirst(t) == None
  {}

  lemma ScanComplete(t: Bytes, extra: nat, minCp: int, lead: int)
    requires t != [] && LeadClass(t[0], extra, minCp, lead) && extra < |t|
    requires forall k :: 1 <= k <= extra ==> IsContinuation(t[k])
    ensures var cp := Accumulate(lead, t, extra);
            DecodeFirst(t) == (if cp >= minCp && IsScalar(cp) then Some(cp) else None)
    ensures DecodeFirst(t).Some? ==> UnitLen(t) == extra + 1
  {
    assert Accumulate(lead, t, 1) == lead * 64 + Low6(t[1]);
    if extra >= 2 {
      assert Accumulate(lead, t, 2) == Accumulate(lead, t, 1) * 64 + Low6(t[2]);
    }
    if extra >= 3 {
      assert Accumulate(lead, t, 3) == Accumulate(lead, t, 2) * 64 + Low6(t[3]);
    }
  }

  /** Byte `j + 1` is missing or not a continuation byte. */
  predicate TrailBreaks(rest: Bytes, j: nat) {
    j + 1 < |rest| ==> !IsContinuation(rest[j + 1])
  }

  /** The `extra` continuation bytes after the lead byte at `at`. */
  method TrailBytes(text: Bytes, at: nat, extra: nat, lead: int) returns (complete: bool, codepoint: int, i: nat)
    requires at < |text|
    ensures complete <==> forall j :: 0 <= j < extra ==> !TrailBreaks(text[at..], j)
    ensures complete ==>
              && i == at + extra + 1 && at + extra < |text|
              && (forall k :: 1 <= k <= extra ==> IsContinuation(text[at..][k]))
              && codepoint == Accumulate(lead, text[at..], extra)
  {
    hide Low6;
    ghost var rest := text[at..];
    codepoint, i := lead, at;
    for j := 0 to extra
      invariant j < |rest| && i == at + j
      invariant forall k :: 1 <= k <= j ==> IsContinuation(rest[k])
      invariant forall k :: 0 <= k < j ==> !TrailBreaks(rest, k)
      invariant codepoint == Accumulate(lead, rest, j)
    {
      i := i + 1;
      if i >= |text| {
        assert TrailBreaks(rest, j);
        return false, codepoint, i;
      }
      var b := text[i];
      assert b == rest[j + 1];
      if b / 64 != 2 {
        assert TrailBreaks(rest, j);
        return false, codepoint, i;
      }
      codepoint := codepoint * 64 + Low6(b);
    }
    return true, codepoint, i + 1;
  }

  lemma ValidUnfold(t: Bytes)
    ensures t == [] ==> Valid(t)
    ensures t != [] && DecodeFirst(t).None? ==> !Valid(t)
    ensures t != [] && DecodeFirst(t).Some? ==> (Valid(t) <==> Valid(t[UnitLen(t)..]))
  {}

  method IsValidUtf8(text: Bytes) returns (ok: bool)
    ensures ok <==> Valid(text)
  {
    hide DecodeFirst, UnitLen, Valid, Accumulate, IsContinuation;
    var i := 0;
    assert text[0..] == text;
    ValidUnfold(text[|text|..]);
    while i < |text|
      invariant i <= |text|
      invariant Valid(text) <==> Valid(text[i..])
    {
      ghost var rest := text[i..];
      ValidUnfold(rest);
      var b0: int := text[i];
      var codepoint, extra, minCp := 0, 0, 0;
      if b0 < 0x80 {
        AsciiUnit(rest);
        assert rest[1..] == text[i + 1..];
        i := i + 1;
        continue;
      } else if b0 / 32 == 6 {
        if b0 < 0xC2 {
          ScanBadLead(rest);
          return false;
        }
        extra, minCp, codepoint := 1, 0x80, b0 % 32;
      } else if b0 / 16 == 14 {
        extra, minCp, codepoint := 2, 0x800, b0 % 16;
      } else if b0 / 8 == 30 {
        if b0 > 0xF4 {
          ScanBadLead(rest);
          return false;
        }
        extra, minCp, codepoint := 3, 0x10000, b0 % 8;
      } else {
        ScanBadLead(rest);
        return false;
      }

      ghost var lead := codepoint;
      var complete;
      complete, codepoint, i := TrailBytes(text, i, extra, codepoint);
      if !complete {
        ghost var j :| 0 <= j < extra && TrailBreaks(rest, j);
        ScanTruncated(rest, extra, minCp, lead, j);
        return false;
      }
      ScanComplete(rest, extra, minCp, lead);
      if codepoint < minCp {
        return false;
      }
      if codepoint >= 0xD800 && codepoint <= 0xDFFF {
        return false;
      }
      if codepoint > 0x10FFFF {
        return false;
      }
      assert rest[extra + 1..] == text[i..];
    }
    return true;
  }

  lemma AsciiUnit(t: Bytes)
    requires t != [] && t[0] < 0x80
    ensures DecodeFirst(t) == Some(t[0] as int) && UnitLen(t) == 1
  {}

  // ---- Boundaries ---------------------------------------------------------------

  /** `p` is the end of the text or the first byte of a code point. */
  predicate IsBoundary(t: Bytes, p: nat) {
    p <= |t| && (p < |t| ==> !IsContinuation(t[p]))
  }

  lemma ValidStartsAtBoundary(t: Bytes)
    requires Valid(t)
    ensures IsBoundary(t, 0)
  {}

  /** The first code point of a text is also the first of every extension of the text. */
  lemma FirstUnitExtends(a: Bytes, b: Bytes)
    requires a != [] && DecodeFirst(a).Some?
    ensures DecodeFirst(a + b) == DecodeFirst(a) && UnitLen(a + b) == UnitLen(a)
  {
    hide DecodeFirst, Encode;
    DecodeEncodes(a, DecodeFirst(a).value);
    EncodeDecodes(a + b, DecodeFirst(a).value);
  }

  lemma FirstUnitOfPrefix(t: Bytes, p: nat)
    requires t != [] && DecodeFirst(t).Some? && UnitLen(t) <= p <= |t|
    ensures DecodeFirst(t[..p]) == DecodeFirst(t) && UnitLen(t[..p]) == UnitLen(t)
  {
    hide DecodeFirst, Encode;
    DecodeEncodes(t, DecodeFirst(t).value);
    EncodeDecodes(t[..p], DecodeFirst(t).value);
  }

  /** Cutting a valid text at a boundary leaves two valid texts. */
  lemma {:induction false} CutAtBoundary(t: Bytes, p: nat)
    requires Valid(t) && IsBoundary(t, p)
    ensures Valid(t[..p]) && Valid(t[p..])
    decreases |t|
  {
    hide DecodeFirst, UnitLen, IsContinuation;
    if p == 0 {
      assert t[..p] == [] && t[p..] == t;
    } else {
      var n := UnitLen(t);
      assert n <= p;
      DropTake(t, n, p);
      CutAtBoundary(t[n..], p - n);
      FirstUnitOfPrefix(t, p);
      assert UnitLen(t[..p]) == n;
    }
  }

  lemma ValidSlice(t: Bytes, p: nat, q: nat)
    requires Valid(t) && IsBoundary(t, p) && IsBoundary(t, q) && p <= q
    ensures Valid(t[p..q])
  {
    hide Valid, IsContinuation;
    CutAtBoundary(t, p);
    assert IsBoundary(t[p..], q - p);
    CutAtBoundary(t[p..], q - p);
    DropTake(t, p, q);
  }

  lemma {:induction false} JoinValid(a: Bytes, b: Bytes)
    requires Valid(a) && Valid(b)
    ensures Valid(a + b)
  {
    hide DecodeFirst, UnitLen, IsContinuation;
    if a == [] {
      assert a + b == b;
    } else {
      var n := UnitLen(a);
      FirstUnitExtends(a, b);
      assert (a + b)[n..] == a[n..] + b;
      JoinValid(a[n..], b);
    }
  }

  /** A valid prefix of a valid text ends at a boundary. */
  lemma {:induction false} ValidPrefixEndsAtBoundary(t: Bytes, p: nat)
    requires Valid(t) && p <= |t| && Valid(t[..p])
    ensures IsBoundary(t, p)
    decreases p
  {
    hide DecodeFirst, UnitLen, IsContinuation, Valid;
    if 0 < p < |t| {
      ValidUnfold(t);
      ValidUnfold(t[..p]);
      var n := UnitLen(t[..p]);
      FirstUnitExtends(t[..p], t[p..]);
      assert t[..p] + t[p..] == t;
      DropTake(t, n, p);
      ValidPrefixEndsAtBoundary(t[n..], p - n);
    } else {
      ValidStartsAtBoundary(t);
    }
  }

  /** The first boundary at or below `pos`, scanning down; the whole length past the end. */
  function PrevBoundary(t: Bytes, pos: nat): (p: nat)
    ensures p <= |t|
    ensures pos >= |t| ==> p == |t|
    ensures pos < |t| ==> p <= pos && (p > 0 ==> !IsContinuation(t[p]))
    ensures pos < |t| ==> forall k :: p < k <= pos ==> IsContinuation(t[k])
  {
    if pos >= |t| then |t|
    else if pos > 0 && IsContinuation(t[pos]) then PrevBoundary(t, pos - 1)
    else pos
  }

  method SafeBoundary(t: Bytes, index: nat) returns (pos: nat)
    ensures pos == PrevBoundary(t, index)
  {
    pos := index;
    if pos >= |t| {
      return |t|;
    }
    while pos > 0 && IsContinuation(t[pos])
      invariant pos < |t|
      invariant PrevBoundary(t, pos) == PrevBoundary(t, index)
    {
      pos := pos - 1;
    }
  }

  /** The first non-continuation byte above `index`, or the end of the text. */
  function NextBoundary(t: Bytes, index: nat): (p: nat)
    requires index < |t|
    ensures index < p <= |t|
    ensures p < |t| ==> !IsContinuation(t[p])
    ensures forall k :: index < k < p ==> IsContinuation(t[k])
    decreases |t| - index
  {
    if index + 1 < |t| && IsContinuation(t[index + 1]) then NextBoundary(t, index + 1) else index + 1
  }

  method NextCodePointBoundary(t: Bytes, start: nat) returns (index: nat)
    ensures index == if start >= |t| then |t| else NextBoundary(t, start)
  {
    if start >= |t| {
      return |t|;
    }
    index := start + 1;
    while index < |t| && IsContinuation(t[index])
      invariant start < index <= |t|
      invariant NextBoundary(t, index - 1) == NextBoundary(t, start)
    {
      index := index + 1;
    }
  }

  // ---- Splitting ------------------------------------------------------------------

  /** End of the piece that starts at `pos`. */
  function PieceEnd(t: Bytes, pos: nat, maxBytes: nat): (end: nat)
    requires pos < |t| && maxBytes > 0
    ensures pos < end <= |t|
  {
    if |t| - pos <= maxBytes then |t|
    else
      var end := PrevBoundary(t, pos + maxBytes);
      if end <= pos then NextBoundary(t, pos) else end
  }

  function Pieces(t: Bytes, pos: nat, maxBytes: nat): (pieces: seq<Bytes>)
    requires pos <= |t| && maxBytes > 0
    decreases |t| - pos
  {
    if pos == |t| then []
    else
      var end := PieceEnd(t, pos, maxBytes);
      [t[pos..end]] + Pieces(t, end, maxBytes)
  }

  lemma PiecesStep(t: Bytes, pos: nat, maxBytes: nat, end: nat)
    requires pos < |t| && maxBytes > 0 && end == PieceEnd(t, pos, maxBytes)
    ensures Pieces(t, pos, maxBytes) == [t[pos..end]] + Pieces(t, end, maxBytes)
  {}

  /** `None` stands for the `invalid_argument` exception. */
  method SplitUtf8ByByteLimit(text: Bytes, maxBytes: nat) returns (r: Option<seq<Bytes>>)
    ensures r == if maxBytes == 0 then None else Some(Pieces(text, 0, maxBytes))
  {
    if maxBytes == 0 {
      return None;
    }
    hide Pieces, PrevBoundary, NextBoundary, IsContinuation;
    var result: seq<Bytes> := [];
    var pos := 0;
    while pos < |text|
      invariant pos <= |text|
      invariant Pieces(text, 0, maxBytes) == result + Pieces(text, pos, maxBytes)
    {
      var remaining := |text| - pos;
      if remaining <= maxBytes {
        PiecesLast(text, pos, maxBytes);
        return Some(result + [text[pos..]]);
      }
      var end := SafeBoundary(text, pos + maxBytes);
      if end <= pos {
        end := NextCodePointBoundary(text, pos);
      }
      assert end == PieceEnd(text, pos, maxBytes);
      PiecesStep(text, pos, maxBytes, end);
      result := result + [text[pos..end]];
      pos := end;
    }
    PiecesEnd(text, maxBytes);
    assert result + [] == result;
    return Some(result);
  }

  lemma PiecesLast(t: Bytes, pos: nat, maxBytes: nat)
    requires pos < |t| <= pos + maxBytes
    ensures Pieces(t, pos, maxBytes) == [t[pos..]]
  {
    assert PieceEnd(t, pos, maxBytes) == |t|;
    PiecesEnd(t, maxBytes);
    assert t[pos..|t|] == t[pos..];
  }

  lemma PiecesEnd(t: Bytes, maxBytes: nat)
    requires maxBytes > 0
    ensures Pieces(t, |t|, maxBytes) == []
  {}

  /** On any bytes at all, the pieces are non-empty and join to the text from `pos` on. */
  lemma {:induction false} PiecesJoin(t: Bytes, pos: nat, maxBytes: nat)
    requires pos <= |t| && maxBytes > 0
    ensures Flatten(Pieces(t, pos, maxBytes)) == t[pos..]
    ensures forall p :: p in Pieces(t, pos, maxBytes) ==> p != []
    decreases |t| - pos
  {
    hide PieceEnd, Pieces;
    if pos == |t| {
      PiecesEnd(t, maxBytes);
    } else {
      var end := PieceEnd(t, pos, maxBytes);
      PiecesStep(t, pos, maxBytes, end);
      PiecesJoin(t, end, maxBytes);
      assert t[pos..] == t[pos..end] + t[end..];
    }
  }

  /** On valid text every piece is valid, and within the limit unless it is one code point. */
  lemma {:induction false} PiecesValid(t: Bytes, pos: nat, maxBytes: nat)
    requires Valid(t) && IsBoundary(t, pos) && maxBytes > 0
    ensures forall p :: p in Pieces(t, pos, maxBytes) ==>
                          p != [] && Valid(p) && DecodeFirst(p).Some? &&
                          (|p| <= maxBytes || |p| == UnitLen(p))
    decreases |t| - pos
  {
    hide Valid, PieceEnd, DecodeFirst;
    if pos < |t| {
      PieceIsValid(t, pos, maxBytes);
      PiecesValid(t, PieceEnd(t, pos, maxBytes), maxBytes);
    }
  }

  lemma PieceEndsAtBoundary(t: Bytes, pos: nat, maxBytes: nat)
    requires IsBoundary(t, pos) && maxBytes > 0 && pos < |t|
    ensures var end := PieceEnd(t, pos, maxBytes);
            && IsBoundary(t, end)
            && (end - pos <= maxBytes || forall k :: pos < k < end ==> IsContinuation(t[k]))
  {
    hide IsContinuation;
  }

  lemma PieceIsValid(t: Bytes, pos: nat, maxBytes: nat)
    requires Valid(t) && IsBoundary(t, pos) && maxBytes > 0 && pos < |t|
    ensures var end := PieceEnd(t, pos, maxBytes);
            && IsBoundary(t, end)
            && Valid(t[pos..end])
            && DecodeFirst(t[pos..end]).Some?
            && (end - pos <= maxBytes || end - pos == UnitLen(t[pos..end]))
  {
    hide DecodeFirst, PieceEnd, IsContinuation;
    PieceEndsAtBoundary(t, pos, maxBytes);
    var end := PieceEnd(t, pos, maxBytes);
    ValidSlice(t, pos, end);
    if end - pos > maxBytes {
      OneUnit(t[pos..end]);
    }
  }

  lemma OneUnit(p: Bytes)
    requires p != [] && Valid(p) && forall k :: 1 <= k < |p| ==> IsContinuation(p[k])
    ensures UnitLen(p) == |p|
  {
    ValidStartsAtBoundary(p[UnitLen(p)..]);
  }

  ghost predicate Partition(q: seq<Bytes>, t: Bytes, maxBytes: nat) {
    Flatten(q) == t && forall p :: p in q ==> p != [] && Valid(p) && |p| <= maxBytes
  }

  /** The first piece of a partition ends at a boundary, and the others partition the rest. */
  lemma PartitionStep(t: Bytes, from: nat, maxBytes: nat, q: seq<Bytes>)
    requires Valid(t) && IsBoundary(t, from) && Partition(q, t[from..], maxBytes) && q != []
    ensures from + |q[0]| <= |t| && IsBoundary(t, from + |q[0]|)
    ensures Partition(q[1..], t[from + |q[0]|..], maxBytes)
  {
    hide Valid, IsContinuation, Partition;
    var next := from + |q[0]|;
    PartitionHead(q, t[from..], maxBytes);
    assert t[from..][..|q[0]|] == q[0] && t[from..][|q[0]|..] == t[next..];
    CutAtBoundary(t, from);
    ValidPrefixEndsAtBoundary(t[from..], |q[0]|);
    assert next < |t| ==> t[from..][|q[0]|] == t[next];
  }

  lemma PartitionHead(q: seq<Bytes>, t: Bytes, maxBytes: nat)
    requires Partition(q, t, maxBytes) && q != []
    ensures |q[0]| <= |t| && t == q[0] + t[|q[0]|..] && Valid(q[0]) && Partition(q[1..], t[|q[0]|..], maxBytes)
  {
    hide Valid;
    assert t == q[0] + Flatten(q[1..]);
    assert q[0] in q && forall p :: p in q[1..] ==> p in q;
  }

  /** Starting further on never needs more pieces than any partition of the longer rest. */
  lemma {:induction false} GreedyStaysAhead(t: Bytes, from: nat, pos: nat, maxBytes: nat, q: seq<Bytes>)
    requires Valid(t) && IsBoundary(t, from) && IsBoundary(t, pos) && from <= pos && maxBytes > 0
    requires Partition(q, t[from..], maxBytes)
    ensures |Pieces(t, pos, maxBytes)| <= |q|
    decreases |q|, |t| - pos
  {
    hide Valid, IsContinuation;
    if pos < |t| {
      assert t[from..] != [] && q != [];
      PartitionStep(t, from, maxBytes, q);
      var next := from + |q[0]|;
      assert q[0] in q;
      if next <= pos {
        GreedyStaysAhead(t, next, pos, maxBytes, q[1..]);
      } else {
        var end := PieceEnd(t, pos, maxBytes);
        assert next <= end && IsBoundary(t, end);
        GreedyStaysAhead(t, next, end, maxBytes, q[1..]);
      }
    }
  }

  /** If the rest from `from` on has a partition, the greedy pieces from further on stay within the limit. */
  lemma {:induction false} GreedyFits(t: Bytes, from: nat, pos: nat, maxBytes: nat, q: seq<Bytes>)
    requires Valid(t) && IsBoundary(t, from) && IsBoundary(t, pos) && from <= pos && maxBytes > 0
    requires Partition(q, t[from..], maxBytes)
    ensures forall p :: p in Pieces(t, pos, maxBytes) ==> |p| <= maxBytes
    decreases |q|, |t| - pos
  {
    hide Valid, IsContinuation, Partition;
    if pos < |t| {
      PartitionNotEmpty(q, t[from..], maxBytes);
      PartitionStep(t, from, maxBytes, q);
      var next := from + |q[0]|;
      if next <= pos {
        GreedyFits(t, next, pos, maxBytes, q[1..]);
      } else {
        var end := PieceEnd(t, pos, maxBytes);
        BoundaryGivesPiece(t, pos, next, maxBytes);
        PiecesStep(t, pos, maxBytes, end);
        GreedyFits(t, next, end, maxBytes, q[1..]);
      }
    }
  }

  lemma PartitionNotEmpty(q: seq<Bytes>, t: Bytes, maxBytes: nat)
    requires Partition(q, t, maxBytes) && t != []
    ensures q != [] && 0 < |q[0]| <= maxBytes
  {
    assert q[0] in q;
  }

  /** With a boundary within the limit the next piece reaches at least to it and stays within the limit. */
  lemma BoundaryGivesPiece(t: Bytes, pos: nat, next: nat, maxBytes: nat)
    requires pos < next <= |t| && next <= pos + maxBytes && IsBoundary(t, next) && IsBoundary(t, pos)
    ensures var end := PieceEnd(t, pos, maxBytes);
            next <= end <= pos + maxBytes && IsBoundary(t, end)
  {}

  /**
    * For every positive limit, the pieces are a partition of a valid text into valid pieces within
    * the limit exactly when there is one at all: when no code point is larger than the limit, as
    * from four bytes on.
    */
  lemma PiecesPartitionIff(t: Bytes, maxBytes: nat)
    requires Valid(t) && maxBytes > 0
    ensures Partition(Pieces(t, 0, maxBytes), t, maxBytes) <==> exists q :: Partition(q, t, maxBytes)
    ensures Partition(Pieces(t, 0, maxBytes), t, maxBytes) <==>
            forall k :: 0 <= k < |Decode(t)| ==> |Encode(Decode(t)[k])| <= maxBytes
    ensures maxBytes >= 4 ==> Partition(Pieces(t, 0, maxBytes), t, maxBytes)
  {
    hide Pieces, Valid, Encode;
    ValidStartsAtBoundary(t);
    PiecesJoin(t, 0, maxBytes);
    PiecesValid(t, 0, maxBytes);
    assert t[0..] == t;
    if q :| Partition(q, t, maxBytes) {
      GreedyFits(t, 0, 0, maxBytes, q);
      PartitionNeedsRoom(q, t, maxBytes);
    }
    if forall k :: 0 <= k < |Decode(t)| ==> |Encode(Decode(t)[k])| <= maxBytes {
      CodePointsPartition(t, maxBytes);
    }
  }

  /** Within valid pieces within the limit, no code point is larger than it. */
  lemma {:induction false} PartitionNeedsRoom(q: seq<Bytes>, t: Bytes, maxBytes: nat)
    requires Valid(t) && Partition(q, t, maxBytes)
    ensures forall k :: 0 <= k < |Decode(t)| ==> |Encode(Decode(t)[k])| <= maxBytes
    decreases |q|
  {
    hide Valid, Encode, EncodeAll;
    if q == [] {
      NothingToDecode();
    } else {
      var rest := Flatten(q[1..]);
      assert q[0] in q && t == q[0] + rest && forall p :: p in q[1..] ==> p in q;
      ValidStartsAtBoundary(t);
      assert t[0..] == t;
      PartitionStep(t, 0, maxBytes, q);
      assert t[|q[0]|..] == rest;
      CutAtBoundary(t, |q[0]|);
      PartitionNeedsRoom(q[1..], rest, maxBytes);
      DecodeAppend(q[0], rest);
      EncodingsFit(q[0]);
    }
  }

  lemma NothingToDecode()
    ensures Valid([]) && Decode([]) == []
  {}

  lemma DecodeAppend(a: Bytes, b: Bytes)
    requires Valid(a) && Valid(b)
    ensures Valid(a + b) && Decode(a + b) == Decode(a) + Decode(b)
  {
    hide Valid, Encode;
    JoinValid(a, b);
    EncodeAllAppend(Decode(a), Decode(b));
    EncodeAllInjective(Decode(a + b), Decode(a) + Decode(b));
  }

  lemma {:induction false} EncodeAllAppend(xs: seq<Scalar>, ys: seq<Scalar>)
    ensures EncodeAll(xs + ys) == EncodeAll(xs) + EncodeAll(ys)
  {
    hide Encode;
    if xs == [] {
      assert xs + ys == ys;
    } else {
      assert (xs + ys)[1..] == xs[1..] + ys;
      EncodeAllAppend(xs[1..], ys);
    }
  }

  /** Every encoding is a part of the text. */
  lemma {:induction false} EncodingsFit(t: Bytes)
    requires Valid(t)
    ensures forall k :: 0 <= k < |Decode(t)| ==> |Encode(Decode(t)[k])| <= |t|
    decreases |t|
  {
    hide Encode, DecodeFirst, UnitLen;
    if t != [] {
      var n := UnitLen(t);
      FirstUnitIsEncoding(t);
      EncodingsFit(t[n..]);
      assert Decode(t) == [DecodeFirst(t).value] + Decode(t[n..]);
    }
  }

  /** The code points themselves, each as a piece. */
  lemma CodePointsPartition(t: Bytes, maxBytes: nat)
    requires Valid(t) && forall k :: 0 <= k < |Decode(t)| ==> |Encode(Decode(t)[k])| <= maxBytes
    ensures exists q :: Partition(q, t, maxBytes)
  {
    hide Encode, Decode;
    var cps := Decode(t);
    var q := seq(|cps|, k requires 0 <= k < |cps| => Encode(cps[k]));
    FlattenEncodings(cps);
    forall p | p in q
      ensures p != [] && Valid(p) && |p| <= maxBytes
    {
      var k :| 0 <= k < |q| && p == q[k];
      EncodeAllDecodes([cps[k]]);
      EncodeAllOne(cps[k]);
    }
    assert Partition(q, t, maxBytes);
  }

  lemma EncodeAllOne(cp: Scalar)
    ensures EncodeAll([cp]) == Encode(cp)
  {
    hide Encode;
    assert EncodeAll([cp]) == Encode(cp) + EncodeAll([]);
  }

  lemma {:induction false} FlattenEncodings(cps: seq<Scalar>)
    ensures Flatten(seq(|cps|, k requires 0 <= k < |cps| => Encode(cps[k]))) == EncodeAll(cps)
  {
    hide Encode;
    if cps != [] {
      FlattenEncodings(cps[1..]);
      var q := seq(|cps|, k requires 0 <= k < |cps| => Encode(cps[k]));
      var rest := seq(|cps| - 1, k requires 0 <= k < |cps| - 1 => Encode(cps[1..][k]));
      assert q[1..] == rest;
    }
  }

  /** No partition of a valid text into valid pieces within the limit has fewer pieces. */
  lemma PiecesFewest(t: Bytes, maxBytes: nat, q: seq<Bytes>)
    requires Valid(t) && maxBytes > 0 && Partition(q, t, maxBytes)
    ensures |Pieces(t, 0, maxBytes)| <= |q|
  {
    ValidStartsAtBoundary(t);
    assert t[0..] == t;
    GreedyStaysAhead(t, 0, 0, maxBytes, q);
  }
}
