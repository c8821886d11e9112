/** SHA-256 (`common/Sha256`) against FIPS 180-4. */
module Sha256 {
  import opened Bytes

  /** A 32-bit word. */
  type Word = bv32

  /** Round constants. */
  const K: seq<Word> :=
    [0x428a2f98, 0x71374491, 0xb5c0fbcf, 0xe9b5dba5, 0x3956c25b, 0x59f111f1, 0x923f82a4, 0xab1c5ed5] +
    [0xd807aa98, 0x12835b01, 0x243185be, 0x550c7dc3, 0x72be5d74, 0x80deb1fe, 0x9bdc06a7, 0xc19bf174] +
    [0xe49b69c1, 0xefbe4786, 0x0fc19dc6, 0x240ca1cc, 0x2de92c6f, 0x4a7484aa, 0x5cb0a9dc, 0x76f988da] +
    [0x983e5152, 0xa831c66d, 0xb00327c8, 0xbf597fc7, 0xc6e00bf3, 0xd5a79147, 0x06ca6351, 0x14292967] +
    [0x27b70a85, 0x2e1b2138, 0x4d2c6dfc, 0x53380d13, 0x650a7354, 0x766a0abb, 0x81c2c92e, 0x92722c85] +
    [0xa2bfe8a1, 0xa81a664b, 0xc24b8b70, 0xc76c51a3, 0xd192e819, 0xd6990624, 0xf40e3585, 0x106aa070] +
    [0x19a4c116, 0x1e376c08, 0x2748774c, 0x34b0bcb5, 0x391c0cb3, 0x4ed8aa4a, 0x5b9cca4f, 0x682e6ff3] +
    [0x748f82ee, 0x78a5636f, 0x84c87814, 0x8cc70208, 0x90befffa, 0xa4506ceb, 0xbef9a3f7, 0xc67178f2]

  /** Initial hash value. */
  const H0: seq<Word> := [
    0x6a09e667, 0xbb67ae85, 0x3c6ef372, 0xa54ff53a, 0x510e527f, 0x9b05688c, 0x1f83d9ab, 0x5be0cd19]

  // ---- Reference: functions and message schedule (FIPS 180-4, sections 4.1.2 and 6.2.2) ------

  /** Addition modulo 2^32. */
  function Add(x: Word, y: Word): Word {
    x + y
  }

  function And(x: Word, y: Word): Word {
    x & y
  }

  function Or(x: Word, y: Word): Word {
    x | y
  }

  function Xor(x: Word, y: Word): Word {
    x ^ y
  }

  function Not(x: Word): Word {
    !x
  }

  function Shl(x: Word, n: Word): Word
    requires n < 32
  {
    x << n
  }

  function Shr(x: Word, n: Word): Word
    requires n < 32
  {
    x >> n
  }

  function Rotr(x: Word, n: Word): Word
    requires 0 < n < 32
  {
    Or(Shr(x, n), Shl(x, 32 - n))
  }

  function Ch(x: Word, y: Word, z: Word): Word {
    Xor(And(x, y), And(Not(x), z))
  }

  function Maj(x: Word, y: Word, z: Word): Word {
    Xor(Xor(And(x, y), And(x, z)), And(y, z))
  }

  function BigSigma0(x: Word): Word {
    Xor(Xor(Rotr(x, 2), Rotr(x, 13)), Rotr(x, 22))
  }

  function BigSigma1(x: Word): Word {
    Xor(Xor(Rotr(x, 6), Rotr(x, 11)), Rotr(x, 25))
  }

  function SmallSigma0(x: Word): Word {
    Xor(Xor(Rotr(x, 7), Rotr(x, 18)), Shr(x, 3))
  }

  function SmallSigma1(x: Word): Word {
    Xor(Xor(Rotr(x, 17), Rotr(x, 19)), Shr(x, 10))
  }

  type Block = b: Bytes | |b| == 64 witness seq(64, _ => 0)

  /** Word `t` of a block, most significant byte first. */
  function MessageWord(b: Block, t: nat): Word
    requires t < 16
  {
    Or(Or(Or(Shl(b[t * 4] as Word, 24), Shl(b[t * 4 + 1] as Word, 16)), Shl(b[t * 4 + 2] as Word, 8)), b[t * 4 + 3] as Word)
  }

  /** W_t; the sum modulo 2^32 is written in the order in which the code adds. */
  function Schedule(b: Block, t: nat): Word
    requires t < 64
  {
    if t < 16 then MessageWord(b, t)
    else
      Add(Add(Add(Schedule(b, t - 16), SmallSigma0(Schedule(b, t - 15))), Schedule(b, t - 7)), SmallSigma1(Schedule(b, t - 2)))
  }

  datatype Vars = Vars(a: Word, b: Word, c: Word, d: Word, e: Word, f: Word, g: Word, h: Word)

  function Round(v: Vars, k: Word, w: Word): Vars {
    var t1 := Add(Add(Add(Add(v.h, BigSigma1(v.e)), Ch(v.e, v.f, v.g)), k), w);
    var t2 := Add(BigSigma0(v.a), Maj(v.a, v.b, v.c));
    Vars(Add(t1, t2), v.a, v.b, v.c, Add(v.d, t1), v.e, v.f, v.g)
  }

  /** The working variables after the first `t` rounds. */
  function Rounds(b: Block, v: Vars, t: nat): Vars
    requires t <= 64
  {
    if t == 0 then v else Round(Rounds(b, v, t - 1), K[t - 1], Schedule(b, t - 1))
  }

  type Hash = h: seq<Word> | |h| == 8 witness seq(8, _ => 0)

  /** The hash after one block. */
  function Compress(h: Hash, b: Block): Hash {
    hide Rounds;
    AddTo(h, Rounds(b, VarsOf(h), 64))
  }

  function VarsOf(h: Hash): Vars {
    Vars(h[0], h[1], h[2], h[3], h[4], h[5], h[6], h[7])
  }

  function WordsOf(v: Vars): (h: Hash) {
    [v.a, v.b, v.c, v.d, v.e, v.f, v.g, v.h]
  }

  function AddTo(h: Hash, v: Vars): Hash {
    seq(8, i requires 0 <= i < 8 => Add(h[i], WordsOf(v)[i]))
  }

  /** The compression folded over the whole 64-byte blocks of `m`. */
  function Fold(h: Hash, m: Bytes): Hash
    decreases |m|
  {
    if |m| < 64 then h else Fold(Compress(h, m[..64]), m[64..])
  }

  // ---- Reference: padding (section 5.1.1) --------------------------------------------------------

  /** After `n` bytes, the marker and `zeros` zero bytes, the eight bytes of the length fill up a block. */
  predicate LeavesRoom(n: nat, zeros: nat) {
    (n + 1 + zeros) % 64 == 56
  }

  /** The least number of zero bytes that leave room for the length after `n` bytes and the marker. */
  function ZeroBytes(n: nat): (k: nat)
    ensures LeavesRoom(n, k) && forall j: nat :: j < k ==> !LeavesRoom(n, j)
  {
    (55 - n) % 64
  }

  lemma RoomFills(n: nat)
    requires n % 64 == 56
    ensures (n + 8) % 64 == 0
  {}

  function Power256(k: nat): (p: nat)
    ensures p > 0
  {
    if k == 0 then 1 else 256 * Power256(k - 1)
  }

  /** Byte `k` of a number, counted from the least significant one. */
  function ByteAt(n: nat, k: nat): byte {
    n / Power256(k) % 256
  }

  /** The low 64 bits of a number, most significant byte first. */
  function BigEndian64(n: nat): (r: Bytes)
    ensures |r| == 8 && forall i :: 0 <= i < 8 ==> r[i] == ByteAt(n, 7 - i)
  {
    seq(8, i requires 0 <= i < 8 => ByteAt(n, 7 - i))
  }

  /** What the padding adds to a message of `n` bytes whose length field holds `bits`. */
  function PaddingFor(n: nat, bits: nat): (r: Bytes)
    ensures (n + |r|) % 64 == 0
  {
    RoomFills(n + 1 + ZeroBytes(n));
    [0x80] + seq(ZeroBytes(n), _ => 0) + BigEndian64(bits)
  }

  function Digest(h: Hash): (d: Bytes)
    ensures |d| == 32 && forall i :: 0 <= i < 32 ==> d[i] == WordByte(h[i / 4], i % 4)
  {
    seq(32, i requires 0 <= i < 32 => WordByte(h[i / 4], i % 4))
  }

  /** Byte `k` of a word, counted from the most significant one. */
  function WordByte(w: Word, k: nat): byte
    requires k < 4
  {
    Shr(w, if k == 0 then 24 else if k == 1 then 16 else if k == 2 then 8 else 0) as int % 0x100
  }

  /** SHA-256 of a message, as the standard defines it. */
  function Sha256(m: Bytes): Bytes {
    Digest(Fold(H0, m + PaddingFor(|m|, 8 * |m|)))
  }

  // ---- The code ----------------------------------------------------------------------------------

  method PrepareSchedule(block: Block) returns (w: array<Word>)
    ensures fresh(w) && w.Length == 64
    ensures forall t :: 0 <= t < 64 ==> w[t] == Schedule(block, t)
  {
    hide Add, And, Or, Xor, Not, Shl, Shr, Rotr, Schedule;
    w := new Word[64](_ => 0);
    for i := 0 to 16
      invariant forall t :: 0 <= t < i ==> w[t] == Schedule(block, t)
    {
      ScheduleStart(block, i);
      w[i] := Or(Or(Or(Shl(block[i * 4 + 0] as Word, 24), Shl(block[i * 4 + 1] as Word, 16)), Shl(block[i * 4 + 2] as Word, 8)), block[i * 4 + 3] as Word);
    }
    for i := 16 to 64
      invariant forall t :: 0 <= t < i ==> w[t] == Schedule(block, t)
    {
      ScheduleNext(block, i);
      var s0 := Xor(Xor(Rotr(w[i - 15], 7), Rotr(w[i - 15], 18)), Shr(w[i - 15], 3));
      var s1 := Xor(Xor(Rotr(w[i - 2], 17), Rotr(w[i - 2], 19)), Shr(w[i - 2], 10));
      w[i] := Add(Add(Add(w[i - 16], s0), w[i - 7]), s1);
    }
  }

  method Sha256Block(h: array<Word>, block: Block)
    requires h.Length == 8
    modifies h
    ensures h[..] == Compress(old(h[..]), block)
  {
    hide Add, And, Or, Xor, Not, Shl, Shr, Rotr, Round, Schedule, Rounds, AddTo, Compress;
    var w := PrepareSchedule(block);
    var a, b, c, d, e, f, g, hh := h[0], h[1], h[2], h[3], h[4], h[5], h[6], h[7];
    ghost var start := VarsOf(h[..]);
    RoundsStart(block, start);
    for i := 0 to 64
      modifies {}
      invariant Vars(a, b, c, d, e, f, g, hh) == Rounds(block, start, i)
    {
      RoundsNext(block, start, i);
      RoundIs(Vars(a, b, c, d, e, f, g, hh), K[i], w[i]);
      var bigS1 := Xor(Xor(Rotr(e, 6), Rotr(e, 11)), Rotr(e, 25));
      var ch := Xor(And(e, f), And(Not(e), g));
      var tmp1 := Add(Add(Add(Add(hh, bigS1), ch), K[i]), w[i]);
      var bigS0 := Xor(Xor(Rotr(a, 2), Rotr(a, 13)), Rotr(a, 22));
      var maj := Xor(Xor(And(a, b), And(a, c)), And(b, c));
      var tmp2 := Add(bigS0, maj);
      hh := g;
      g := f;
      f := e;
      e := Add(d, tmp1);
      d := c;
      c := b;
      b := a;
      a := Add(tmp1, tmp2);
    }
    assert h[..] == old(h[..]);
    CompressIs(h[..], block);
    AddHash(h, Vars(a, b, c, d, e, f, g, hh));
  }

  method AddHash(h: array<Word>, v: Vars)
    requires h.Length == 8
    modifies h
    ensures h[..] == AddTo(old(h[..]), v)
  {
    hide Add, WordsOf;
    var words := WordsOf(v);
    for i := 0 to 8
      invariant forall k :: 0 <= k < i ==> h[k] == Add(old(h[k]), words[k])
      invariant forall k :: i <= k < 8 ==> h[k] == old(h[k])
    {
      h[i] := Add(h[i], words[i]);
    }
  }

  lemma CompressIs(h: Hash, block: Block)
    ensures Compress(h, block) == AddTo(h, Rounds(block, VarsOf(h), 64))
  {
    hide AddTo, Rounds, VarsOf;
  }

  lemma ScheduleStart(b: Block, t: nat)
    requires t < 16
    ensures Schedule(b, t) == MessageWord(b, t)
  {
    hide MessageWord;
  }

  lemma ScheduleNext(b: Block, t: nat)
    requires 16 <= t < 64
    ensures Schedule(b, t) ==
            Add(Add(Add(Schedule(b, t - 16), SmallSigma0(Schedule(b, t - 15))), Schedule(b, t - 7)),
                SmallSigma1(Schedule(b, t - 2)))
  {
    hide Add, MessageWord, SmallSigma0, SmallSigma1;
  }

  lemma RoundsStart(b: Block, v: Vars)
    ensures Rounds(b, v, 0) == v
  {}

  lemma RoundsNext(b: Block, v: Vars, t: nat)
    requires t < 64
    ensures Rounds(b, v, t + 1) == Round(Rounds(b, v, t), K[t], Schedule(b, t))
  {
    hide Round, Schedule;
  }

  lemma RoundIs(v: Vars, k: Word, w: Word)
    ensures var t1 := Add(Add(Add(Add(v.h, BigSigma1(v.e)), Ch(v.e, v.f, v.g)), k), w);
            var t2 := Add(BigSigma0(v.a), Maj(v.a, v.b, v.c));
            Round(v, k, w) == Vars(Add(t1, t2), v.a, v.b, v.c, Add(v.d, t1), v.e, v.f, v.g)
  {
    hide Add, BigSigma0, BigSigma1, Ch, Maj;
  }

  const MODULUS64 := 0x1_0000_0000_0000_0000

  /** The rest of the message, the marker, zeros, and the bit length at the end of the last block. */
  method FillPad(pad: array<byte>, rest: Bytes, bitLen: nat) returns (padBlocks: nat)
    requires pad.Length == 128 && |rest| < 64 && forall k :: 0 <= k < 128 ==> pad[k] == 0
    modifies pad
    ensures padBlocks == if |rest| < 56 then 1 else 2
    ensures pad[..padBlocks * 64] == rest + [0x80] + seq(padBlocks * 64 - 9 - |rest|, _ => 0) + BigEndian64(bitLen)
  {
    hide ByteAt;
    var remaining := |rest|;
    for i := 0 to remaining
      invariant forall k :: 0 <= k < i ==> pad[k] == rest[k]
      invariant forall k :: i <= k < 128 ==> pad[k] == 0
    {
      pad[i] := rest[i];
    }
    pad[remaining] := 0x80;
    padBlocks := if remaining < 56 then 1 else 2;
    var field := padBlocks * 64 - 8;
    for i := 0 to 8
      invariant forall k :: 0 <= k < remaining ==> pad[k] == rest[k]
      invariant pad[remaining] == 0x80
      invariant forall k :: remaining < k < field ==> pad[k] == 0
      invariant forall k :: 8 - i <= k < 8 ==> pad[field + k] == BigEndian64(bitLen)[k]
    {
      pad[field + (7 - i)] := ByteAt(bitLen, i);
    }
    assert pad[field..field + 8] == BigEndian64(bitLen);
    assert pad[..remaining] == rest;
    assert pad[remaining + 1..field] == seq(padBlocks * 64 - 9 - |rest|, _ => 0);
  }

  method WriteDigest(h: array<Word>) returns (digest: array<byte>)
    requires h.Length == 8
    ensures fresh(digest) && digest[..] == Digest(h[..])
  {
    hide WordByte;
    digest := new byte[32](_ => 0);
    for i := 0 to 8
      invariant forall k :: 0 <= k < i * 4 ==> digest[k] == WordByte(h[k / 4], k % 4)
    {
      digest[i * 4 + 0] := WordByte(h[i], 0);
      digest[i * 4 + 1] := WordByte(h[i], 1);
      digest[i * 4 + 2] := WordByte(h[i], 2);
      digest[i * 4 + 3] := WordByte(h[i], 3);
    }
  }

  /** All whole blocks of the data; `tail` is whatever follows the data. */
  method FullBlocks(h: array<Word>, data: Bytes, ghost tail: Bytes) returns (processed: nat)
    requires h.Length == 8
    modifies h
    ensures processed <= |data| < processed + 64 && processed % 64 == 0
    ensures Fold(h[..], data[processed..] + tail) == Fold(old(h[..]), data + tail)
  {
    hide Fold, Compress;
    processed := 0;
    DropFront(data, tail, 0);
    while processed + 64 <= |data|
      invariant processed <= |data| && processed % 64 == 0
      invariant Fold(h[..], (data + tail)[processed..]) == Fold(old(h[..]), data + tail)
    {
      FoldAt(h[..], data, tail, processed);
      Sha256Block(h, data[processed..processed + 64]);
      processed := processed + 64;
    }
    DropFront(data, tail, processed);
  }

  /** The one or two blocks of the pad buffer. */
  method PadBlocks(h: array<Word>, pad: array<byte>, padBlocks: nat)
    requires h.Length == 8 && pad.Length == 128 && padBlocks <= 2
    modifies h
    ensures h[..] == Fold(old(h[..]), pad[..padBlocks * 64])
  {
    hide Fold, Compress;
    ghost var tail := pad[..padBlocks * 64];
    DropFront(tail, [], 0);
    for b := 0 to padBlocks
      invariant tail == pad[..padBlocks * 64]
      invariant Fold(h[..], (tail + [])[b * 64..]) == Fold(old(h[..]), tail + [])
    {
      FoldAt(h[..], tail, [], b * 64);
      assert pad[b * 64..b * 64 + 64] == tail[b * 64..b * 64 + 64];
      Sha256Block(h, pad[b * 64..b * 64 + 64]);
    }
    DropFront(tail, [], padBlocks * 64);
    FoldDone(h[..]);
    assert tail[padBlocks * 64..] + [] == [] && tail + [] == tail;
  }

  method Sha256Raw(data: Bytes) returns (digest: array<byte>)
    ensures fresh(digest)
    ensures digest[..] == Digest(Fold(H0, data + PaddingFor(|data|, 8 * |data| % MODULUS64)))
  {
    hide Fold, Compress, BigEndian64, Digest, PaddingFor;
    var h := new Word[8](i requires 0 <= i < 8 => H0[i]);
    assert h[..] == H0;
    var bitLen := |data| * 8 % MODULUS64;
    ghost var padding := PaddingFor(|data|, bitLen);
    var processed := FullBlocks(h, data, padding);
    var pad := new byte[128](_ => 0);
    var padBlocks := FillPad(pad, data[processed..], bitLen);
    PaddingLayout(data, processed, bitLen, padBlocks);
    PadBlocks(h, pad, padBlocks);
    digest := WriteDigest(h);
  }

  lemma DropFront(data: Bytes, tail: Bytes, n: nat)
    requires n <= |data|
    ensures (data + tail)[n..] == data[n..] + tail
    ensures data[0..] == data && (data + tail)[0..] == data + tail
  {}

  /** Folding from a block of `data` on is folding the rest from the compressed hash. */
  lemma FoldAt(h: Hash, data: Bytes, tail: Bytes, i: nat)
    requires i + 64 <= |data|
    ensures Fold(h, (data + tail)[i..]) == Fold(Compress(h, data[i..i + 64]), (data + tail)[i + 64..])
  {
    hide Compress, Fold;
    var m := data + tail;
    assert m[i..] == data[i..i + 64] + m[i + 64..];
    FoldFront(h, data[i..i + 64], m[i + 64..]);
  }

  lemma FoldFront(h: Hash, block: Block, rest: Bytes)
    ensures Fold(h, block + rest) == Fold(Compress(h, block), rest)
  {
    hide Compress;
    assert (block + rest)[..64] == block && (block + rest)[64..] == rest;
  }

  lemma FoldDone(h: Hash)
    ensures Fold(h, []) == h
  {}

  /** What the pad buffer holds is the unprocessed rest of the padded message. */
  lemma PaddingLayout(data: Bytes, processed: nat, bits: nat, padBlocks: nat)
    requires processed <= |data| < processed + 64 && processed % 64 == 0
    requires padBlocks == if |data| - processed < 56 then 1 else 2
    ensures var rest := data[processed..];
            rest + [0x80] + seq(padBlocks * 64 - 9 - |rest|, _ => 0) + BigEndian64(bits)
            == rest + PaddingFor(|data|, bits)
  {
    hide BigEndian64;
    var rest := data[processed..];
    assert ZeroBytes(|data|) == padBlocks * 64 - 9 - |rest|;
  }

  /** Below 2^61 bytes the length field does not wrap, and the digest is the standard's. */
  lemma CodeIsSha256(m: Bytes)
    requires |m| < 0x2000_0000_0000_0000
    ensures Digest(Fold(H0, m + PaddingFor(|m|, 8 * |m| % MODULUS64))) == Sha256(m)
  {
    hide Digest, Fold, PaddingFor;
    assert 8 * |m| % MODULUS64 == 8 * |m|;
  }
}
