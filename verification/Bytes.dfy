/** Byte strings, search in byte strings, and the result type shared by all modules. */
module Bytes {

  type byte = b: int | 0 <= b < 256

  type Bytes = seq<byte>

  const TAB: byte := 9
  const LF: byte := 10
  const CR: byte := 13
  const SPACE: byte := 32
  const CRLF: Bytes := [13, 10]

  /** Usable with `:-`. */
  datatype Option<+T> = None | Some(value: T) {
    predicate IsFailure() {
      None?
    }

    function PropagateFailure<U>(): Option<U>
      requires None?
    {
      None
    }

    function Extract(): T
      requires Some?
    {
      value
    }
  }

  /** The error categories of `common::ErrorCode` that the modelled code can produce. */
  datatype ErrorCode =
    | InvalidArgument
    | InvalidState
    | IoError
    | NetworkError
    | ProtocolError
    | ParseError
    | Timeout
    | Unsupported
    | ServiceError
    | DrmError
    | Cancelled

  datatype Result<+T> = Ok(value: T) | Err(code: ErrorCode)

  /** Concatenation of a sequence of sequences. */
  function Flatten<T>(parts: seq<seq<T>>): seq<T> {
    if parts == [] then [] else parts[0] + Flatten(parts[1..])
  }

  lemma {:induction false} FlattenAppend<T>(a: seq<seq<T>>, b: seq<seq<T>>)
    ensures Flatten(a + b) == Flatten(a) + Flatten(b)
  {
    if a == [] {
      assert a + b == b;
    } else {
      assert (a + b)[1..] == a[1..] + b;
      FlattenAppend(a[1..], b);
    }
  }

  lemma FlattenSnoc<T>(a: seq<seq<T>>, x: seq<T>)
    ensures Flatten(a + [x]) == Flatten(a) + x
  {
    FlattenAppend(a, [x]);
    assert Flatten([x]) == x + Flatten<T>([]);
  }

  /** The stretch of `s` from `n` to `p` read in three ways, and the rest after it in two. */
  lemma DropTake<T>(s: seq<T>, n: nat, p: nat)
    requires n <= p <= |s|
    ensures s[n..][..p - n] == s[n..p] == s[..p][n..]
    ensures s[n..][p - n..] == s[p..]
  {}

  /** `s.find(c, from)`: the first index at or after `from` that holds `c`. */
  function Find(s: Bytes, c: byte, from: nat): (r: Option<nat>)
    ensures r.Some? ==> from <= r.value < |s| && s[r.value] == c && c !in s[from..r.value]
    ensures r.None? ==> from >= |s| || c !in s[from..]
    decreases |s| - from
  {
    if from >= |s| then None
    else if s[from] == c then Some(from)
    else Find(s, c, from + 1)
  }

  lemma FindIs(t: Bytes, c: byte, from: nat, k: nat)
    requires from <= k < |t| && t[k] == c && forall j :: from <= j < k ==> t[j] != c
    ensures Find(t, c, from) == Some(k)
    decreases k - from
  {}

  /** `s.rfind(c, upTo - 1)` for `upTo > 0`: the last index below `upTo` that holds `c`. */
  function FindLast(s: Bytes, c: byte, upTo: nat): (r: Option<nat>)
    ensures r.Some? ==> r.value < upTo && r.value < |s| && s[r.value] == c
    ensures r.Some? ==> forall k :: r.value < k < upTo && k < |s| ==> s[k] != c
    ensures r.None? ==> forall k :: 0 <= k < upTo && k < |s| ==> s[k] != c
  {
    if upTo == 0 then None
    else if upTo - 1 < |s| && s[upTo - 1] == c then Some(upTo - 1)
    else FindLast(s, c, upTo - 1)
  }

  /** `s.find(pat, from)`: the first index at or after `from` where `pat` occurs. */
  function FindSub(s: Bytes, pat: Bytes, from: nat): (r: Option<nat>)
    ensures r.Some? ==> from <= r.value <= |s| - |pat| && Occurs(s, pat, r.value)
    ensures forall k :: from <= k && (r.Some? ==> k < r.value) ==> !Occurs(s, pat, k)
    decreases |s| - from
  {
    if from + |pat| > |s| then None
    else if Occurs(s, pat, from) then Some(from)
    else if from == |s| then None
    else FindSub(s, pat, from + 1)
  }

  predicate Occurs(s: Bytes, pat: Bytes, at: nat) {
    at + |pat| <= |s| && s[at..at + |pat|] == pat
  }
}
