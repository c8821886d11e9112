/** Validation and control-character replacement (`serialization/TextNormalizer`). */
module TextNormalizer {
  import opened Bytes
  import Utf8

  /** U+0000-U+0008, U+000B-U+000C and U+000E-U+001F become a space. */
  predicate IsReplaced(c: int) {
    0 <= c <= 8 || c == 11 || c == 12 || 14 <= c <= 31
  }

  function CleanByte(b: byte): byte {
    if IsReplaced(b) then SPACE else b
  }

  function Clean(s: Bytes): (r: Bytes)
    ensures |r| == |s| && forall k :: 0 <= k < |s| ==> r[k] == CleanByte(s[k])
  {
    seq(|s|, k requires 0 <= k < |s| => CleanByte(s[k]))
  }

  method Normalize(input: Bytes) returns (r: Result<Bytes>)
    ensures r == if Utf8.Valid(input) then Ok(Clean(input)) else Err(InvalidArgument)
  {
    hide Utf8.Valid, Utf8.IsContinuation, Clean;
    var valid := Utf8.IsValidUtf8(input);
    if !valid {
      return Err(InvalidArgument);
    }
    var out: Bytes := [];
    var i := 0;
    assert Clean(input[..0]) == [];
    while i < |input|
      invariant i <= |input| && out == Clean(input[..i])
    {
      var b := input[i];
      if b < 0x80 {
        if b <= 8 || b == 11 || b == 12 || (b >= 14 && b <= 31) {
          out := out + [SPACE];
        } else {
          out := out + [b];
        }
        CleanAppend(input, i, i + 1);
        i := i + 1;
      } else {
        var next := Utf8.NextCodePointBoundary(input, i);
        ContinuationKept(input, i, next);
        CleanAppend(input, i, next);
        out := out + input[i..next];
        i := next;
      }
    }
    assert input[..i] == input;
    return Ok(out);
  }

  lemma CleanAppend(t: Bytes, i: nat, next: nat)
    requires i <= next <= |t|
    ensures Clean(t[..next]) == Clean(t[..i]) + Clean(t[i..next])
  {}

  lemma ContinuationKept(t: Bytes, i: nat, next: nat)
    requires i < next <= |t| && t[i] >= 0x80
    requires forall k :: i < k < next ==> Utf8.IsContinuation(t[k])
    ensures forall k :: i <= k < next ==> CleanByte(t[k]) == t[k]
  {}

  // ---- What normalization means on the text -----------------------------------

  function CleanScalar(cp: Utf8.Scalar): Utf8.Scalar {
    if IsReplaced(cp) then 32 else cp
  }

  function CleanScalars(cps: seq<Utf8.Scalar>): (r: seq<Utf8.Scalar>)
    ensures |r| == |cps| && forall k :: 0 <= k < |cps| ==> r[k] == CleanScalar(cps[k])
  {
    seq(|cps|, k requires 0 <= k < |cps| => CleanScalar(cps[k]))
  }

  lemma CleanEncoding(cp: Utf8.Scalar)
    ensures Clean(Utf8.Encode(cp)) == Utf8.Encode(CleanScalar(cp))
  {
    if cp >= 0x80 {
      assert forall k :: 0 <= k < |Utf8.Encode(cp)| ==> Utf8.Encode(cp)[k] >= 0x80;
    }
  }

  /** Replacing bytes replaces code points: the encoding of the cleaned scalar values. */
  lemma {:induction false} CleanEncodings(cps: seq<Utf8.Scalar>)
    ensures Clean(Utf8.EncodeAll(cps)) == Utf8.EncodeAll(CleanScalars(cps))
  {
    hide Utf8.Encode;
    if cps != [] {
      var e, rest := Utf8.Encode(cps[0]), Utf8.EncodeAll(cps[1..]);
      CleanEncoding(cps[0]);
      CleanEncodings(cps[1..]);
      assert Clean(e + rest) == Clean(e) + Clean(rest);
      assert CleanScalars(cps)[1..] == CleanScalars(cps[1..]);
    }
  }

  /** A valid text stays valid, and its code points are cleaned one by one. */
  lemma CleanValid(s: Bytes)
    requires Utf8.Valid(s)
    ensures Utf8.Valid(Clean(s)) && Utf8.Decode(Clean(s)) == CleanScalars(Utf8.Decode(s))
  {
    CleanEncodings(Utf8.Decode(s));
    Utf8.EncodeAllDecodes(CleanScalars(Utf8.Decode(s)));
  }

  /** Below 32, and neither tab, nor LF, nor CR. */
  predicate IsControl(cp: int) {
    cp < 32 && cp != 9 && cp != 10 && cp != 13
  }

  /** Each control character becomes a space and every other code point stays; no control character is left. */
  lemma ControlsBecomeSpaces(s: Bytes)
    requires Utf8.Valid(s)
    ensures Utf8.Valid(Clean(s))
    ensures var cps, out := Utf8.Decode(s), Utf8.Decode(Clean(s));
            && |out| == |cps|
            && forall k :: 0 <= k < |out| ==> out[k] == (if IsControl(cps[k]) then 32 else cps[k]) && !IsControl(out[k])
    ensures Clean(s) == s <==> forall k :: 0 <= k < |Utf8.Decode(s)| ==> !IsControl(Utf8.Decode(s)[k])
  {
    hide Utf8.Valid, CleanScalars, Utf8.EncodeAll, Clean, Utf8.Decode;
    CleanValid(s);
    var cps, out := Utf8.Decode(s), Utf8.Decode(Clean(s));
    ScalarsCleaned(cps);
    if out == cps {
      assert Clean(s) == Utf8.EncodeAll(out) == Utf8.EncodeAll(cps) == s;
    }
  }

  lemma ScalarsCleaned(cps: seq<Utf8.Scalar>)
    ensures forall k :: 0 <= k < |cps| ==>
              CleanScalars(cps)[k] == (if IsControl(cps[k]) then 32 else cps[k]) && !IsControl(CleanScalars(cps)[k])
    ensures CleanScalars(cps) == cps <==> forall k :: 0 <= k < |cps| ==> !IsControl(cps[k])
  {
    if forall k :: 0 <= k < |cps| ==> !IsControl(cps[k]) {
      assert CleanScalars(cps) == cps;
    }
  }
}
