/** XML escaping and unescaping (`serialization/XmlEscaper`). */
module XmlEscaper {
  import opened Bytes
  import Utf8

  const AMP: byte := 38
  const SEMICOLON: byte := 59
  const LESS: byte := 60
  const GREATER: byte := 62
  const QUOTE: byte := 34
  const APOSTROPHE: byte := 39

  const ENTITY_AMP: Bytes := [38, 97, 109, 112, 59]        // &amp;
  const ENTITY_LT: Bytes := [38, 108, 116, 59]             // &lt;
  const ENTITY_GT: Bytes := [38, 103, 116, 59]             // &gt;
  const ENTITY_QUOT: Bytes := [38, 113, 117, 111, 116, 59] // &quot;
  const ENTITY_APOS: Bytes := [38, 97, 112, 111, 115, 59]  // &apos;

  // ---- Escaping -------------------------------------------------------------

  function EscapeByte(c: byte): (e: Bytes)
    ensures 1 <= |e| <= 5
  {
    if c == AMP then ENTITY_AMP
    else if c == LESS then ENTITY_LT
    else if c == GREATER then ENTITY_GT
    else [c]
  }

  function Escape(s: Bytes): Bytes {
    if s == [] then [] else EscapeByte(s[0]) + Escape(s[1..])
  }

  method XmlEscape(raw: Bytes) returns (out: Bytes)
    ensures out == Escape(raw)
  {
    hide Escape;
    out := [];
    EscapeEmpty(raw);
    for i := 0 to |raw|
      invariant out + Escape(raw[i..]) == Escape(raw)
    {
      EscapeStep(out, raw, i);
      var c := raw[i];
      if c == AMP {
        out := out + ENTITY_AMP;
      } else if c == LESS {
        out := out + ENTITY_LT;
      } else if c == GREATER {
        out := out + ENTITY_GT;
      } else {
        out := out + [c];
      }
    }
  }

  lemma EscapeEmpty(s: Bytes)
    ensures Escape(s[|s|..]) == [] && s[0..] == s
  {}

  lemma EscapeStep(out: Bytes, s: Bytes, i: nat)
    requires i < |s|
    ensures out + Escape(s[i..]) == (out + EscapeByte(s[i])) + Escape(s[i + 1..])
  {
    assert s[i..][1..] == s[i + 1..];
  }

  /** Escaping distributes over concatenation. */
  lemma {:induction false} EscapeAppend(a: Bytes, b: Bytes)
    ensures Escape(a + b) == Escape(a) + Escape(b)
  {
    if a == [] {
      assert a + b == b;
    } else {
      assert (a + b)[1..] == a[1..] + b;
      EscapeAppend(a[1..], b);
    }
  }

  // ---- Unescaping -----------------------------------------------------------

  /** The text a complete `&...;` stands for; unknown entities stand for themselves. */
  function EntityText(entity: Bytes): Bytes {
    if entity == ENTITY_AMP then [AMP]
    else if entity == ENTITY_LT then [LESS]
    else if entity == ENTITY_GT then [GREATER]
    else if entity == ENTITY_QUOT then [QUOTE]
    else if entity == ENTITY_APOS then [APOSTROPHE]
    else entity
  }

  /** How many bytes one unescaping step reads: an entity with its ';' in the window, or one byte. */
  function StepLen(t: Bytes): (n: nat)
    requires t != []
    ensures 1 <= n <= |t| && (t[0] != AMP ==> n == 1)
  {
    if t[0] != AMP then 1
    else
      var semi := Find(t, SEMICOLON, 1);
      if semi.None? || semi.value > 8 then 1 else semi.value + 1
  }

  function Unescape(t: Bytes): Bytes {
    if t == [] then []
    else EntityText(t[..StepLen(t)]) + Unescape(t[StepLen(t)..])
  }

  lemma FindInSuffix(t: Bytes, i: nat, c: byte, from: nat)
    requires i <= from <= |t|
    ensures Find(t[i..], c, from - i) ==
            (match Find(t, c, from) case None => None case Some(k) => Some((k - i) as nat))
    decreases |t| - from
  {}

  /** One step with `out` already written. */
  lemma UnescapeStep(out: Bytes, t: Bytes, i: nat, semi: Option<nat>)
    requires i < |t| && semi == Find(t, SEMICOLON, i + 1)
    ensures t[i] != AMP || semi.None? || semi.value - i > 8 ==>
              out + Unescape(t[i..]) == (out + [t[i]]) + Unescape(t[i + 1..])
    ensures t[i] == AMP && semi.Some? && semi.value - i <= 8 ==>
              out + Unescape(t[i..]) == (out + EntityText(t[i..semi.value + 1])) + Unescape(t[semi.value + 1..])
  {
    hide EntityText, Find, Unescape, StepLen;
    StepLenAt(t, i, semi);
    var n := StepLen(t[i..]);
    UnescapeUnfold(t[i..]);
    DropTake(t, i, i + n);
    ByteText(t[i]);
    assert n == 1 ==> t[i..i + n] == [t[i]];
    assert out + Unescape(t[i..]) == (out + EntityText(t[i..i + n])) + Unescape(t[i + n..]);
  }

  lemma UnescapeUnfold(t: Bytes)
    requires t != []
    ensures Unescape(t) == EntityText(t[..StepLen(t)]) + Unescape(t[StepLen(t)..])
  {}

  lemma StepLenAt(t: Bytes, i: nat, semi: Option<nat>)
    requires i < |t| && semi == Find(t, SEMICOLON, i + 1)
    ensures StepLen(t[i..]) == if t[i] != AMP || semi.None? || semi.value - i > 8 then 1 else semi.value + 1 - i
  {
    FindInSuffix(t, i, SEMICOLON, i + 1);
  }

  lemma ByteText(c: byte)
    ensures EntityText([c]) == [c]
  {
    assert |ENTITY_AMP| == |ENTITY_APOS| - 1 == 5 && |ENTITY_LT| == |ENTITY_GT| == 4 && |ENTITY_QUOT| == 6;
  }

  lemma UnescapeEmpty(t: Bytes)
    ensures Unescape(t[|t|..]) == [] && t[0..] == t
  {}

  method XmlUnescape(escaped: Bytes) returns (out: Bytes)
    ensures out == Unescape(escaped)
  {
    hide Unescape, Find;
    out := [];
    var i := 0;
    UnescapeEmpty(escaped);
    while i < |escaped|
      invariant i <= |escaped|
      invariant out + Unescape(escaped[i..]) == Unescape(escaped)
    {
      UnescapeStep(out, escaped, i, Find(escaped, SEMICOLON, i + 1));
      if escaped[i] != AMP {
        out := out + [escaped[i]];
        i := i + 1;
        continue;
      }
      var semi := Find(escaped, SEMICOLON, i + 1);
      if semi.None? || semi.value - i > 8 {
        out := out + [escaped[i]];
        i := i + 1;
        continue;
      }
      var entity := escaped[i..semi.value + 1];
      if entity == ENTITY_AMP {
        out := out + [AMP];
      } else if entity == ENTITY_LT {
        out := out + [LESS];
      } else if entity == ENTITY_GT {
        out := out + [GREATER];
      } else if entity == ENTITY_QUOT {
        out := out + [QUOTE];
      } else if entity == ENTITY_APOS {
        out := out + [APOSTROPHE];
      } else {
        out := out + entity;
      }
      i := semi.value + 1;
    }
  }

  /** The five entities, by their letters. */
  lemma EntitiesByName(rest: Bytes)
    ensures Unescape([38, 97, 109, 112, 59] + rest) == [38] + Unescape(rest)       // &amp;
    ensures Unescape([38, 108, 116, 59] + rest) == [60] + Unescape(rest)           // &lt;
    ensures Unescape([38, 103, 116, 59] + rest) == [62] + Unescape(rest)           // &gt;
    ensures Unescape([38, 113, 117, 111, 116, 59] + rest) == [34] + Unescape(rest) // &quot;
    ensures Unescape([38, 97, 112, 111, 115, 59] + rest) == [39] + Unescape(rest)  // &apos;
  {
    hide Unescape, EntityText, StepLen;
    EntityRead([38, 97, 109, 112, 59], rest);
    EntityRead([38, 108, 116, 59], rest);
    EntityRead([38, 103, 116, 59], rest);
    EntityRead([38, 113, 117, 111, 116, 59], rest);
    EntityRead([38, 97, 112, 111, 115, 59], rest);
    EntityTexts();
  }

  lemma EntityTexts()
    ensures EntityText([38, 97, 109, 112, 59]) == [38]
    ensures EntityText([38, 108, 116, 59]) == [60]
    ensures EntityText([38, 103, 116, 59]) == [62]
    ensures EntityText([38, 113, 117, 111, 116, 59]) == [34]
    ensures EntityText([38, 97, 112, 111, 115, 59]) == [39]
  {}

  /** `&`, at most seven bytes other than `;`, and `;`. */
  predicate IsEntity(e: Bytes) {
    2 <= |e| <= 9 && e[0] == 38 && e[|e| - 1] == 59 && forall k :: 0 < k < |e| - 1 ==> e[k] != 59
  }

  lemma EntityRead(e: Bytes, rest: Bytes)
    requires IsEntity(e)
    ensures Unescape(e + rest) == EntityText(e) + Unescape(rest)
  {
    hide Unescape, EntityText, Find;
    var t := e + rest;
    FindIs(t, SEMICOLON, 1, |e| - 1);
    UnescapeUnfold(t);
    assert t[..|e|] == e && t[|e|..] == rest;
  }

  /** Any other entity stands for itself. */
  lemma UnknownEntityKept(e: Bytes, rest: Bytes)
    requires IsEntity(e)
    requires e != [38, 97, 109, 112, 59] && e != [38, 108, 116, 59] && e != [38, 103, 116, 59]
    requires e != [38, 113, 117, 111, 116, 59] && e != [38, 97, 112, 111, 115, 59]
    ensures Unescape(e + rest) == e + Unescape(rest)
  {
    hide Unescape;
    EntityRead(e, rest);
  }

  /** A byte that opens no entity is kept: it is no `&`, or no `;` follows within eight bytes. */
  lemma OpenByteKept(t: Bytes)
    requires t != [] && (t[0] != 38 || forall k :: 1 <= k <= 8 && k < |t| ==> t[k] != 59)
    ensures Unescape(t) == [t[0]] + Unescape(t[1..])
  {
    hide Unescape, EntityText;
    UnescapeUnfold(t);
    ByteText(t[0]);
    assert t[..1] == [t[0]];
  }

  /** The three characters that are escaped, by the letters of their entities; all others stay. */
  lemma EscapesByName(c: byte)
    ensures Escape([38]) == [38, 97, 109, 112, 59] && Escape([60]) == [38, 108, 116, 59] && Escape([62]) == [38, 103, 116, 59]
    ensures c != 38 && c != 60 && c != 62 ==> Escape([c]) == [c]
  {
    EscapeOne(38);
    EscapeOne(60);
    EscapeOne(62);
    EscapeOne(c);
  }

  lemma EscapeOne(c: byte)
    ensures Escape([c]) == EscapeByte(c)
  {
    assert Escape([c][1..]) == [];
  }

  // ---- Texts made of whole tokens -----------------------------------------------

  /** The byte whose escaped form starts `t`, if there is one. */
  function TokenByte(t: Bytes): (r: Option<byte>)
    requires t != []
    ensures r.Some? ==> EscapeByte(r.value) <= t
  {
    if ENTITY_AMP <= t then Some(AMP)
    else if ENTITY_LT <= t then Some(LESS)
    else if ENTITY_GT <= t then Some(GREATER)
    else if t[0] == AMP || t[0] == LESS || t[0] == GREATER then None
    else Some(t[0])
  }

  function TokenLen(t: Bytes): (n: nat)
    requires t != [] && TokenByte(t).Some?
    ensures 1 <= n <= 5 && n <= |t|
    ensures n > 1 <==> t[0] == AMP
  {
    |EscapeByte(TokenByte(t).value)|
  }

  /** Only whole `&amp;`, `&lt;`, `&gt;` and bytes other than `&`, `<`, `>`. */
  predicate IsEscaped(t: Bytes) {
    t == [] || (TokenByte(t).Some? && IsEscaped(t[TokenLen(t)..]))
  }

  lemma TokenStart(c: byte, rest: Bytes)
    ensures TokenByte(EscapeByte(c) + rest) == Some(c)
    ensures (EscapeByte(c) + rest)[TokenLen(EscapeByte(c) + rest)..] == rest
  {
    var t := EscapeByte(c) + rest;
    assert |t| >= 4 && c == GREATER ==> t[1] == 103;
    assert |t| >= 4 && c == LESS ==> t[1] == 108;
    assert c != AMP && c != LESS && c != GREATER ==> t[0] == c;
  }

  /** A token is read back as the byte it stands for, and nothing beyond it is touched. */
  lemma UnescapeToken(c: byte, rest: Bytes)
    ensures Unescape(EscapeByte(c) + rest) == [c] + Unescape(rest)
  {
    var e := EscapeByte(c);
    var t := e + rest;
    if c == AMP || c == LESS || c == GREATER {
      assert t[|e| - 1] == SEMICOLON && forall k :: 1 <= k < |e| - 1 ==> t[k] == e[k] != SEMICOLON;
      FindIs(t, SEMICOLON, 1, |e| - 1);
    }
    assert StepLen(t) == |e| && t[..|e|] == e && t[|e|..] == rest;
  }

  lemma {:induction false} UnescapeEscape(s: Bytes)
    ensures Unescape(Escape(s)) == s
  {
    if s != [] {
      UnescapeToken(s[0], Escape(s[1..]));
      UnescapeEscape(s[1..]);
    }
  }

  lemma {:induction false} EscapeIsEscaped(s: Bytes)
    ensures IsEscaped(Escape(s))
  {
    if s != [] {
      TokenStart(s[0], Escape(s[1..]));
      EscapeIsEscaped(s[1..]);
    }
  }

  lemma {:induction false} EscapeUnescape(t: Bytes)
    requires IsEscaped(t)
    ensures Escape(Unescape(t)) == t
  {
    if t != [] {
      var c := TokenByte(t).value;
      var rest := t[TokenLen(t)..];
      assert t == EscapeByte(c) + rest;
      UnescapeToken(c, rest);
      assert ([c] + Unescape(rest))[1..] == Unescape(rest);
      EscapeUnescape(rest);
    }
  }

  /** The texts made of whole tokens are exactly the escaped texts. */
  lemma EscapedIffImage(t: Bytes)
    ensures IsEscaped(t) <==> exists s :: Escape(s) == t
  {
    if IsEscaped(t) {
      EscapeUnescape(t);
    }
    if s :| Escape(s) == t {
      EscapeIsEscaped(s);
    }
  }

  // ---- Cutting escaped text -----------------------------------------------------

  lemma TokenExtends(a: Bytes, b: Bytes)
    requires a != [] && TokenByte(a).Some?
    ensures TokenByte(a + b) == TokenByte(a) && TokenLen(a + b) == TokenLen(a)
  {
    var c := TokenByte(a).value;
    var n := TokenLen(a);
    assert a + b == EscapeByte(c) + (a[n..] + b);
    TokenStart(c, a[n..] + b);
  }

  lemma {:induction false} EscapedAppend(a: Bytes, b: Bytes)
    requires IsEscaped(a)
    ensures IsEscaped(a + b) <==> IsEscaped(b)
  {
    hide TokenByte, TokenLen, EscapeByte;
    if a == [] {
      assert a + b == b;
    } else {
      TokenExtends(a, b);
      var n := TokenLen(a);
      EscapedAppend(a[n..], b);
      assert (a + b)[n..] == a[n..] + b;
    }
  }

  /** Unescaping distributes over concatenation after a text made of whole tokens. */
  lemma {:induction false} UnescapeAppend(a: Bytes, b: Bytes)
    requires IsEscaped(a)
    ensures Unescape(a + b) == Unescape(a) + Unescape(b)
    decreases |a|
  {
    hide Unescape, IsEscaped, EscapeByte;
    if a == [] {
      assert a + b == b;
      UnescapeEmpty([]);
    } else {
      var c, rest := FirstToken(a);
      UnescapeAppend(rest, b);
      assert a + b == EscapeByte(c) + (rest + b);
      UnescapeToken(c, rest);
      UnescapeToken(c, rest + b);
      assert [c] + (Unescape(rest) + Unescape(b)) == ([c] + Unescape(rest)) + Unescape(b);
    }
  }

  lemma FirstToken(t: Bytes) returns (c: byte, rest: Bytes)
    requires IsEscaped(t) && t != []
    ensures t == EscapeByte(c) + rest && IsEscaped(rest) && |rest| < |t|
  {
    hide EscapeByte;
    c, rest := TokenByte(t).value, t[TokenLen(t)..];
    assert t[..|EscapeByte(c)|] == EscapeByte(c);
  }

  /** `p` lies between two tokens of `t`. */
  predicate IsTokenBoundary(t: Bytes, p: nat) {
    p <= |t| && IsEscaped(t[..p]) && IsEscaped(t[p..])
  }

  /**
    * The token that contains position `p`: `p` is its start, or the token is an entity that
    * starts below `p` and ends above it.
    */
  lemma {:induction false} FindToken(t: Bytes, p: nat) returns (b: nat)
    requires IsEscaped(t) && p <= |t|
    ensures b <= p && IsTokenBoundary(t, b)
    ensures b == p || (t[b] == AMP && p < b + TokenLen(t[b..]))
    decreases p
  {
    hide TokenByte, EscapeByte, TokenLen;
    if p == 0 {
      b := 0;
      assert t[..0] == [] && t[0..] == t;
    } else {
      var n := TokenLen(t);
      if p < n {
        b := 0;
        assert t[..0] == [] && t[0..] == t;
      } else {
        var b' := FindToken(t[n..], p - n);
        b := b' + n;
        BoundaryAfterToken(t, b');
      }
    }
  }

  lemma BoundaryAfterToken(t: Bytes, b: nat)
    requires t != [] && TokenByte(t).Some? && IsTokenBoundary(t[TokenLen(t)..], b)
    ensures IsTokenBoundary(t, b + TokenLen(t)) && t[TokenLen(t)..][b..] == t[b + TokenLen(t)..]
  {
    hide TokenByte, TokenLen, IsEscaped;
    var n := TokenLen(t);
    TokenAlone(t);
    DropTake(t, n, b + n);
    EscapedAppend(t[..n], t[n..][..b]);
    assert t[..b + n] == t[..n] + t[n..][..b];
  }

  lemma TokenAlone(t: Bytes)
    requires t != [] && TokenByte(t).Some?
    ensures IsEscaped(t[..TokenLen(t)])
  {
    var c := TokenByte(t).value;
    TokenStart(c, []);
    assert t[..TokenLen(t)] == EscapeByte(c) + [];
  }

  /** Inside an entity there are only letters before the closing semicolon. */
  lemma EntityBody(t: Bytes, k: nat)
    requires t != [] && TokenByte(t).Some? && 0 < k < TokenLen(t)
    ensures 59 <= t[k] < 0x80 && (t[k] == SEMICOLON <==> k == TokenLen(t) - 1)
  {
    var e := EscapeByte(TokenByte(t).value);
    assert t[k] == e[k];
  }

  /** A byte outside every entity stands between tokens. */
  lemma PlainByteIsBoundary(t: Bytes, p: nat)
    requires IsEscaped(t) && p < |t|
    requires t[p] < 59 || t[p] >= 0x80
    ensures IsTokenBoundary(t, p)
  {
    var b := FindToken(t, p);
    if b != p {
      EntityBody(t[b..], p - b);
    }
  }

  /** UTF-8 validity survives escaping. */
  lemma {:induction false} EscapeValid(s: Bytes)
    requires Utf8.Valid(s)
    ensures Utf8.Valid(Escape(s))
  {
    hide Utf8.DecodeFirst;
    if s != [] {
      var n := Utf8.UnitLen(s);
      assert s == s[..n] + s[n..];
      EscapeAppend(s[..n], s[n..]);
      EscapeValid(s[n..]);
      EscapeUnitValid(s);
      Utf8.JoinValid(Escape(s[..n]), Escape(s[n..]));
    }
  }

  lemma EscapeUnitValid(s: Bytes)
    requires s != [] && Utf8.Valid(s)
    ensures Utf8.Valid(Escape(s[..Utf8.UnitLen(s)]))
  {
    hide Utf8.DecodeFirst;
    var n := Utf8.UnitLen(s);
    var u := s[..n];
    Utf8.ValidStartsAtBoundary(s[n..]);
    Utf8.CutAtBoundary(s, n);
    if n == 1 {
      assert u == [s[0]] && Escape(u) == EscapeByte(s[0]) + Escape([]) == EscapeByte(s[0]);
      if s[0] == AMP || s[0] == LESS || s[0] == GREATER {
        AsciiValid(EscapeByte(s[0]));
      }
    } else {
      EscapeIdentity(u);
    }
  }

  lemma {:induction false} EscapeIdentity(u: Bytes)
    requires forall k :: 0 <= k < |u| ==> u[k] >= 64
    ensures Escape(u) == u
  {
    if u != [] {
      EscapeIdentity(u[1..]);
    }
  }

  lemma {:induction false} AsciiValid(t: Bytes)
    requires forall k :: 0 <= k < |t| ==> t[k] < 0x80
    ensures Utf8.Valid(t)
  {
    if t != [] {
      Utf8.AsciiUnit(t);
      AsciiValid(t[1..]);
    }
  }
}
