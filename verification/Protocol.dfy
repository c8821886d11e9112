/** Text frames: header lines, a blank line, a body (`serialization/Protocol*`). */
module Protocol {
  import opened Bytes

  const COLON: byte := 58
  const SEPARATOR: Bytes := [13, 10, 13, 10]

  datatype Header = Header(name: Bytes, value: Bytes)

  datatype Message = Message(headers: seq<Header>, body: Bytes) {
    /** The value of the first header with this name. */
    function Lookup(name: Bytes): Option<Bytes> {
      LookupIn(headers, name)
    }
  }

  function LookupIn(headers: seq<Header>, name: Bytes): (r: Option<Bytes>)
    ensures r.None? <==> forall k :: 0 <= k < |headers| ==> headers[k].name != name
    ensures r.Some? ==>
              exists k :: 0 <= k < |headers| && headers[k] == Header(name, r.value) &&
                          forall j :: 0 <= j < k ==> headers[j].name != name
  {
    if headers == [] then None
    else if headers[0].name == name then
      assert headers[0] == Header(name, headers[0].value);
      Some(headers[0].value)
    else
      var rest := LookupIn(headers[1..], name);
      assert rest.Some? ==>
          forall k :: 0 <= k < |headers| - 1 && headers[1..][k] == Header(name, rest.value) ==>
              headers[k + 1] == Header(name, rest.value);
      rest
  }

  // ---- Serializer -----------------------------------------------------------------

  function HeaderText(h: Header): Bytes {
    h.name + [COLON] + h.value
  }

  function HeaderLines(headers: seq<Header>): Bytes {
    if headers == [] then [] else HeaderText(headers[0]) + CRLF + HeaderLines(headers[1..])
  }

  function Serialize(m: Message): Bytes {
    HeaderLines(m.headers) + CRLF + m.body
  }

  method SerializeMessage(m: Message) returns (out: Bytes)
    ensures out == Serialize(m)
  {
    out := [];
    for i := 0 to |m.headers|
      invariant out + HeaderLines(m.headers[i..]) == HeaderLines(m.headers)
    {
      var h := m.headers[i];
      HeaderLinesStep(m.headers, i);
      out := out + h.name;
      out := out + [COLON];
      out := out + h.value;
      out := out + CRLF;
    }
    out := out + CRLF;
    out := out + m.body;
  }

  lemma HeaderLinesStep(hs: seq<Header>, i: nat)
    requires i < |hs|
    ensures HeaderLines(hs[i..]) == hs[i].name + [COLON] + hs[i].value + CRLF + HeaderLines(hs[i + 1..])
  {
    assert hs[i..][1..] == hs[i + 1..];
  }

  // ---- Parser ---------------------------------------------------------------------

  /** The first line of a header section, and where the next one starts. */
  function LineEnd(section: Bytes): (r: (nat, nat))
    ensures r.0 <= r.1 <= |section|
    ensures section != [] ==> r.1 > 0
  {
    var crlf := FindSub(section, CRLF, 0);
    if crlf.None? then (|section|, |section|) else (crlf.value, crlf.value + 2)
  }

  function ParseHeaders(section: Bytes): Result<seq<Header>>
    decreases |section|
  {
    if section == [] then Ok([])
    else
      var (end, next) := LineEnd(section);
      var line := section[..end];
      if line == [] then ParseHeaders(section[next..])
      else
        var colon := Find(line, COLON, 0);
        if colon.None? then Err(ParseError)
        else Prepend([Header(line[..colon.value], line[colon.value + 1..])], ParseHeaders(section[next..]))
  }

  function Prepend(hs: seq<Header>, r: Result<seq<Header>>): Result<seq<Header>> {
    if r.Ok? then Ok(hs + r.value) else r
  }

  lemma PrependLaws(a: seq<Header>, b: seq<Header>, r: Result<seq<Header>>)
    ensures Prepend([], r) == r
    ensures Prepend(a, Prepend(b, r)) == Prepend(a + b, r)
    ensures Prepend(a, Ok([])) == Ok(a)
  {
    if r.Ok? {
      assert [] + r.value == r.value && a + (b + r.value) == a + b + r.value;
    }
    assert a + [] == a;
  }

  function Parse(frame: Bytes): Result<Message> {
    var sep := FindSub(frame, SEPARATOR, 0);
    if sep.None? then Err(ParseError)
    else
      var headers := ParseHeaders(frame[..sep.value]);
      if headers.Err? then Err(headers.code)
      else Ok(Message(headers.value, frame[sep.value + 4..]))
  }

  method ParseFrame(frame: Bytes) returns (r: Result<Message>)
    ensures r == Parse(frame)
  {
    var sepPos := FindSub(frame, SEPARATOR, 0);
    if sepPos.None? {
      return Err(ParseError);
    }
    var headerSection := frame[..sepPos.value];
    var body := frame[sepPos.value + 4..];
    var headers: seq<Header> := [];
    var remaining := headerSection;
    PrependLaws([], [], ParseHeaders(headerSection));
    while remaining != []
      invariant ParseHeaders(headerSection) == Prepend(headers, ParseHeaders(remaining))
      decreases |remaining|
    {
      var line: Bytes;
      ghost var before := remaining;
      var crlfPos := FindSub(remaining, CRLF, 0);
      if crlfPos.None? {
        line := remaining;
        remaining := [];
      } else {
        line := remaining[..crlfPos.value];
        remaining := remaining[crlfPos.value + 2..];
      }
      ParseHeadersStep(before, line, remaining);
      if line == [] {
        continue;
      }
      var colonPos := Find(line, COLON, 0);
      if colonPos.None? {
        return Err(ParseError);
      }
      var h := Header(line[..colonPos.value], line[colonPos.value + 1..]);
      PrependLaws(headers, [h], ParseHeaders(remaining));
      headers := headers + [h];
    }
    PrependLaws(headers, [], Ok([]));
    return Ok(Message(headers, body));
  }

  lemma ParseHeadersStep(section: Bytes, line: Bytes, rest: Bytes)
    requires section != []
    requires line == section[..LineEnd(section).0] && rest == section[LineEnd(section).1..]
    ensures line == [] ==> ParseHeaders(section) == ParseHeaders(rest)
    ensures line != [] && COLON !in line ==> ParseHeaders(section) == Err(ParseError)
    ensures forall c :: line != [] && Find(line, COLON, 0) == Some(c) ==>
                          c < |line| &&
                          ParseHeaders(section) == Prepend([Header(line[..c], line[c + 1..])], ParseHeaders(rest))
  {
    assert line[0..] == line;
  }

  // ---- CRLF-free lines ----------------------------------------------------------------

  predicate CrlfFree(s: Bytes) {
    forall k :: 0 <= k < |s| - 1 ==> !(s[k] == CR && s[k + 1] == LF)
  }

  lemma OccursCrlf(s: Bytes, k: nat)
    ensures Occurs(s, CRLF, k) <==> k + 2 <= |s| && s[k] == CR && s[k + 1] == LF
  {
    if k + 2 <= |s| {
      assert s[k..k + 2] == [s[k], s[k + 1]];
    }
  }

  lemma OccursSeparator(s: Bytes, k: nat)
    ensures Occurs(s, SEPARATOR, k) <==> Occurs(s, CRLF, k) && Occurs(s, CRLF, k + 2)
  {
    if k + 4 <= |s| {
      assert s[k..k + 4] == s[k..k + 2] + s[k + 2..k + 4];
      assert SEPARATOR == CRLF + CRLF;
      assert s[k..k + 4][..2] == s[k..k + 2] && s[k..k + 4][2..] == s[k + 2..k + 4];
      assert SEPARATOR[..2] == CRLF && SEPARATOR[2..] == CRLF;
    }
  }

  lemma FindSubIs(s: Bytes, pat: Bytes, k: nat)
    requires Occurs(s, pat, k) && forall j :: 0 <= j < k ==> !Occurs(s, pat, j)
    ensures FindSub(s, pat, 0) == Some(k)
  {}

  /** The first line break after a CRLF-free line is the one that ends it. */
  lemma FirstLineBreak(line: Bytes, rest: Bytes)
    requires CrlfFree(line)
    ensures FindSub(line + CRLF + rest, CRLF, 0) == Some(|line|)
  {
    var s := line + CRLF + rest;
    forall k | 0 <= k <= |line|
      ensures Occurs(s, CRLF, k) <==> k == |line|
    {
      OccursCrlf(s, k);
      assert k < |line| - 1 ==> s[k] == line[k] && s[k + 1] == line[k + 1];
    }
    FindSubIs(s, CRLF, |line|);
  }

  lemma NoLineBreak(line: Bytes)
    requires CrlfFree(line)
    ensures FindSub(line, CRLF, 0) == None
  {
    forall k: nat
      ensures !Occurs(line, CRLF, k)
    {
      OccursCrlf(line, k);
    }
  }

  lemma LineIsCrlfFree(section: Bytes)
    ensures CrlfFree(section[..LineEnd(section).0])
  {
    var line := section[..LineEnd(section).0];
    forall k | 0 <= k < |line| - 1
      ensures !(line[k] == CR && line[k + 1] == LF)
    {
      OccursCrlf(section, k);
    }
  }

  // ---- Framing is a bijection on its domain -----------------------------------------------

  predicate CleanHeader(h: Header) {
    COLON !in h.name && CrlfFree(h.name) && CrlfFree(h.value)
  }

  predicate Framable(m: Message) {
    m.headers != [] && forall h :: h in m.headers ==> CleanHeader(h)
  }

  lemma HeaderTextIsLine(h: Header)
    requires CleanHeader(h)
    ensures CrlfFree(HeaderText(h)) && HeaderText(h) != [] && Find(HeaderText(h), COLON, 0) == Some(|h.name|)
    ensures !(CRLF <= HeaderText(h) + CRLF)
  {
    var t := HeaderText(h);
    forall k | 0 <= k < |t| - 1
      ensures !(t[k] == CR && t[k + 1] == LF)
    {
      if k + 1 < |h.name| {
        assert t[k] == h.name[k] && t[k + 1] == h.name[k + 1];
      } else if k > |h.name| {
        assert t[k] == h.value[k - |h.name| - 1] && t[k + 1] == h.value[k - |h.name|];
      }
    }
    assert t[|h.name|] == COLON && forall j :: 0 <= j < |h.name| ==> t[j] == h.name[j] != COLON;
    FindIs(t, COLON, 0, |h.name|);
    assert |t| == 1 ==> t[0] == COLON;
    assert (t + CRLF)[0] == t[0];
    assert |t| > 1 ==> (t + CRLF)[1] == t[1];
    assert |t| == 1 ==> (t + CRLF)[0] == COLON;
  }

  /** The header lines without the line break that ends the last of them. */
  function Section(hs: seq<Header>): Bytes
    requires hs != []
  {
    if |hs| == 1 then HeaderText(hs[0]) else HeaderText(hs[0]) + CRLF + Section(hs[1..])
  }

  lemma {:induction false} SectionLines(hs: seq<Header>)
    requires hs != []
    ensures HeaderLines(hs) == Section(hs) + CRLF
  {
    if |hs| == 1 {
      assert HeaderLines(hs[1..]) == [];
    } else {
      SectionLines(hs[1..]);
    }
  }

  /** No blank line starts inside a clean line or right after one that more lines follow. */
  lemma NoBlankLineEarly(line: Bytes, rest: Bytes, k: nat)
    requires CrlfFree(line) && k <= |line| + 1
    requires k >= |line| ==> !(CRLF <= rest)
    ensures !Occurs(line + CRLF + rest, SEPARATOR, k)
  {
    var s := line + CRLF + rest;
    FirstLineBreak(line, rest);
    OccursSeparator(s, k);
    OccursCrlf(s, k);
    if k == |line| {
      OccursSuffix(s, rest, |line| + 2, CRLF, 0);
      assert Occurs(rest, CRLF, 0) ==> CRLF <= rest;
    }
  }

  /** Clean header lines hold no blank line before their end. */
  lemma {:induction false} SeparatorEndsSection(hs: seq<Header>, body: Bytes)
    requires hs != [] && forall h :: h in hs ==> CleanHeader(h)
    ensures FindSub(Section(hs) + SEPARATOR + body, SEPARATOR, 0) == Some(|Section(hs)|)
    ensures !(CRLF <= Section(hs) + SEPARATOR + body)
  {
    hide FindSub, Occurs, CrlfFree;
    var line := HeaderText(hs[0]);
    HeaderTextIsLine(hs[0]);
    var rest := if |hs| == 1 then CRLF + body else Section(hs[1..]) + SEPARATOR + body;
    var frame := Section(hs) + SEPARATOR + body;
    assert frame == line + CRLF + rest;
    assert frame[..|line| + 2] == line + CRLF;
    var end := |Section(hs)|;
    if |hs| > 1 {
      SeparatorEndsSection(hs[1..], body);
    }
    forall k | 0 <= k < end
      ensures !Occurs(frame, SEPARATOR, k)
    {
      if k <= |line| + 1 {
        NoBlankLineEarly(line, rest, k);
      } else {
        OccursSuffix(frame, rest, |line| + 2, SEPARATOR, k - |line| - 2);
      }
    }
    SeparatorAt(Section(hs), body);
    FindSubIs(frame, SEPARATOR, end);
  }

  lemma SeparatorAt(section: Bytes, body: Bytes)
    ensures Occurs(section + SEPARATOR + body, SEPARATOR, |section|)
  {
    var s := section + SEPARATOR + body;
    assert s[|section|..|section| + 4] == SEPARATOR;
  }

  lemma OccursSuffix(s: Bytes, rest: Bytes, n: nat, pat: Bytes, k: nat)
    requires n <= |s| && s[n..] == rest
    ensures Occurs(s, pat, n + k) <==> Occurs(rest, pat, k)
  {
    if n + k + |pat| <= |s| {
      assert rest[k..k + |pat|] == s[n + k..n + k + |pat|];
    }
  }

  /** A clean line at the front of a section is read back as its header. */
  lemma ParseLine(h: Header, rest: Bytes)
    requires CleanHeader(h)
    ensures ParseHeaders(HeaderText(h)) == Ok([h])
    ensures ParseHeaders(HeaderText(h) + CRLF + rest) == Prepend([h], ParseHeaders(rest))
  {
    hide FindSub, Find, CrlfFree;
    var line := HeaderText(h);
    HeaderTextIsLine(h);
    assert line[..|h.name|] == h.name && line[|h.name| + 1..] == h.value;
    NoLineBreak(line);
    ParseHeadersStep(line, line, []);
    PrependLaws([h], [], Ok([]));
    var section := line + CRLF + rest;
    FirstLineBreak(line, rest);
    assert section[..|line|] == line && section[|line| + 2..] == rest;
    ParseHeadersStep(section, line, rest);
  }

  lemma {:induction false} ParseSection(hs: seq<Header>)
    requires hs != [] && forall h :: h in hs ==> CleanHeader(h)
    ensures ParseHeaders(Section(hs)) == Ok(hs)
  {
    hide ParseHeaders;
    if |hs| == 1 {
      ParseLine(hs[0], []);
      assert hs == [hs[0]];
    } else {
      ParseLine(hs[0], Section(hs[1..]));
      ParseSection(hs[1..]);
      assert [hs[0]] + hs[1..] == hs;
    }
  }

  lemma ParseSerialize(m: Message)
    requires Framable(m)
    ensures Parse(Serialize(m)) == Ok(m)
  {
    SectionLines(m.headers);
    var section := Section(m.headers);
    assert Serialize(m) == section + SEPARATOR + m.body;
    SeparatorEndsSection(m.headers, m.body);
    assert Serialize(m)[..|section|] == section && Serialize(m)[|section| + 4..] == m.body;
    ParseSection(m.headers);
  }

  /** Whatever the parser accepts, its header names and values are clean. */
  lemma {:induction false} ParsedHeadersClean(section: Bytes)
    requires ParseHeaders(section).Ok?
    ensures forall h :: h in ParseHeaders(section).value ==> CleanHeader(h)
    decreases |section|
  {
    if section != [] {
      var (end, next) := LineEnd(section);
      var line, rest := section[..end], section[next..];
      LineIsCrlfFree(section);
      ParseHeadersStep(section, line, rest);
      ParsedHeadersClean(rest);
      if line != [] {
        var c := Find(line, COLON, 0).value;
        assert line[0..c] == line[..c];
        assert CleanHeader(Header(line[..c], line[c + 1..]));
      }
    }
  }

  /** A message survives framing exactly when it has headers and all of them are clean. */
  lemma FramableIffRoundTrip(m: Message)
    ensures Parse(Serialize(m)) == Ok(m) <==> Framable(m)
  {
    if Framable(m) {
      ParseSerialize(m);
    }
    if Parse(Serialize(m)) == Ok(m) {
      var frame := Serialize(m);
      var sep := FindSub(frame, SEPARATOR, 0).value;
      ParsedHeadersClean(frame[..sep]);
      assert |frame[sep + 4..]| == |m.body|;
    }
  }

  /** Parsing drops blank lines and nothing else: it never adds bytes. */
  lemma {:induction false} HeaderLinesShrink(section: Bytes)
    requires ParseHeaders(section).Ok?
    ensures |HeaderLines(ParseHeaders(section).value)| <= if section == [] then 0 else |section| + 2
    decreases |section|
  {
    if section != [] {
      var (end, next) := LineEnd(section);
      var line, rest := section[..end], section[next..];
      ParseHeadersStep(section, line, rest);
      HeaderLinesShrink(rest);
      if line != [] {
        var c := Find(line, COLON, 0).value;
        var h := Header(line[..c], line[c + 1..]);
        var tail := ParseHeaders(rest).value;
        assert ([h] + tail)[1..] == tail;
        assert |HeaderText(h)| == |line|;
      }
    }
  }

  /** No blank lines: none at the front, none inside, none at the end. */
  ghost predicate Compact(section: Bytes) {
    && !Occurs(section, CRLF, 0)
    && (forall k: nat :: !Occurs(section, SEPARATOR, k))
    && (|section| >= 2 ==> !Occurs(section, CRLF, |section| - 2))
  }

  lemma CompactRest(section: Bytes)
    requires Compact(section) && section != []
    ensures var (end, next) := LineEnd(section);
            && end > 0
            && (next == end ==> end == |section|)
            && (next != end ==> section == section[..end] + CRLF + section[next..]
                                && section[next..] != [] && Compact(section[next..]))
  {
    hide CrlfFree;
    var (end, next) := LineEnd(section);
    if next != end {
      var rest := section[next..];
      assert section[end..next] == CRLF;
      assert section == section[..end] + section[end..next] + rest;
      forall k: nat
        ensures !Occurs(rest, SEPARATOR, k)
      {
        OccursSuffix(section, rest, next, SEPARATOR, k);
      }
      OccursSeparator(section, end);
      OccursSuffix(section, rest, next, CRLF, 0);
      if |rest| >= 2 {
        OccursSuffix(section, rest, next, CRLF, |rest| - 2);
      }
    }
  }

  lemma {:induction false} SectionRebuilt(section: Bytes)
    requires ParseHeaders(section).Ok? && section != [] && Compact(section)
    ensures section + CRLF == HeaderLines(ParseHeaders(section).value)
    decreases |section|
  {
    hide Compact, Find;
    var (end, next) := LineEnd(section);
    var line, rest := section[..end], section[next..];
    CompactRest(section);
    ParseHeadersStep(section, line, rest);
    var c := Find(line, COLON, 0).value;
    var h := Header(line[..c], line[c + 1..]);
    var tail := ParseHeaders(rest).value;
    LineOfHeader(line, c);
    assert ([h] + tail)[1..] == tail;
    if next == end {
      assert rest == [] && tail == [];
    } else {
      SectionRebuilt(rest);
    }
  }

  lemma LineOfHeader(line: Bytes, c: nat)
    requires c < |line| && line[c] == COLON
    ensures HeaderText(Header(line[..c], line[c + 1..])) == line
  {
    var t := HeaderText(Header(line[..c], line[c + 1..]));
    assert |t| == |line| && forall k :: 0 <= k < |t| ==> t[k] == line[k];
  }

  /** An accepted frame is rebuilt byte for byte exactly when it does not start with a line break. */
  lemma SerializeParse(frame: Bytes)
    requires Parse(frame).Ok?
    ensures Serialize(Parse(frame).value) == frame <==> !(CRLF <= frame)
  {
    hide FindSub, Compact;
    var sep := FindSub(frame, SEPARATOR, 0).value;
    var section, body := frame[..sep], frame[sep + 4..];
    assert frame[sep..sep + 4] == SEPARATOR;
    assert frame == section + SEPARATOR + body;
    assert SEPARATOR == CRLF + CRLF;
    if CRLF <= frame {
      StartsBlank(frame, section);
    } else {
      assert SEPARATOR + body == CRLF + (CRLF + body);
      assert section != [];
      SectionCompact(frame, section, body);
      SectionRebuilt(section);
    }
  }

  lemma SectionCompact(frame: Bytes, section: Bytes, body: Bytes)
    requires frame == section + SEPARATOR + body && !(CRLF <= frame)
    requires FindSub(frame, SEPARATOR, 0) == Some(|section|)
    ensures Compact(section)
  {
    hide FindSub;
    forall k: nat
      ensures !Occurs(section, SEPARATOR, k)
    {
      if k + 4 <= |section| {
        assert section[k..k + 4] == frame[k..k + 4];
        assert Occurs(section, SEPARATOR, k) ==> Occurs(frame, SEPARATOR, k);
      }
    }
    if |section| >= 2 {
      assert section[0..2] == frame[..2];
      var e := |section| - 2;
      OccursSeparator(frame, e);
      assert section[e..e + 2] == frame[e..e + 2];
      assert frame[e + 2..e + 4] == CRLF;
    }
  }

  /** A frame that starts with a line break loses at least that line break. */
  lemma StartsBlank(frame: Bytes, section: Bytes)
    requires ParseHeaders(section).Ok? && section + SEPARATOR <= frame && CRLF <= frame
    ensures |HeaderLines(ParseHeaders(section).value)| < |section| + 2
  {
    if section != [] {
      assert frame[..|section| + 4] == section + SEPARATOR;
      assert section[0] == frame[0] == CR && frame[1] == LF;
      assert frame[|section|] == CR;
      assert section[1] == frame[1];
      OccursCrlf(section, 0);
      FindSubIs(section, CRLF, 0);
      ParseHeadersStep(section, [], section[2..]);
      HeaderLinesShrink(section[2..]);
    }
  }

  // ---- Exactly which frames are accepted, and as what ----------------------------------------

  /** One line break in front of a frame is skipped. */
  lemma LeadingBreak(rest: Bytes)
    requires !(CRLF <= rest)
    ensures Parse(CRLF + rest) == Parse(rest)
  {
    hide FindSub, ParseHeaders;
    var frame := CRLF + rest;
    forall k: nat
      ensures Occurs(frame, SEPARATOR, k + 2) <==> Occurs(rest, SEPARATOR, k)
    {
      OccursSuffix(frame, rest, 2, SEPARATOR, k);
    }
    assert !Occurs(frame, SEPARATOR, 0) && !Occurs(frame, SEPARATOR, 1) by {
      BreakOnce(rest);
    }
    var sep := FindSub(rest, SEPARATOR, 0);
    if sep.Some? {
      var section := rest[..sep.value];
      forall j | 0 <= j < sep.value + 2
        ensures !Occurs(frame, SEPARATOR, j)
      {
        assert j >= 2 ==> !Occurs(rest, SEPARATOR, j - 2);
      }
      assert Occurs(frame, SEPARATOR, sep.value + 2);
      FindSubIs(frame, SEPARATOR, sep.value + 2);
      assert frame[..sep.value + 2] == CRLF + section && frame[sep.value + 6..] == rest[sep.value + 4..];
      BlankLineSkipped(section);
    } else {
      forall k: nat
        ensures !Occurs(frame, SEPARATOR, k)
      {
        assert k >= 2 ==> !Occurs(rest, SEPARATOR, k - 2);
      }
    }
  }

  lemma BreakOnce(rest: Bytes)
    requires !(CRLF <= rest)
    ensures !Occurs(CRLF + rest, SEPARATOR, 0) && !Occurs(CRLF + rest, SEPARATOR, 1)
  {
    var frame := CRLF + rest;
    OccursSeparator(frame, 0);
    OccursSeparator(frame, 1);
    OccursCrlf(frame, 1);
    OccursSuffix(frame, rest, 2, CRLF, 0);
  }

  lemma BlankLineSkipped(section: Bytes)
    ensures ParseHeaders(CRLF + section) == ParseHeaders(section)
  {
    hide ParseHeaders, FindSub;
    var s := CRLF + section;
    OccursCrlf(s, 0);
    FindSubIs(s, CRLF, 0);
    assert s[2..] == section;
    ParseHeadersStep(s, [], section);
  }

  lemma EmptySection(body: Bytes)
    ensures Parse(SEPARATOR + body) == Ok(Message([], body))
  {
    hide FindSub;
    var frame := SEPARATOR + body;
    FindSubIs(frame, SEPARATOR, 0);
    assert frame[4..] == body;
  }

  /** The frame of a message, possibly after one line break. */
  predicate FrameOf(frame: Bytes, m: Message) {
    frame == Serialize(m) || frame == CRLF + Serialize(m)
  }

  lemma LinesNotEmpty(m: Message)
    requires Framable(m)
    ensures !(CRLF <= Serialize(m))
  {
    hide Framable, CleanHeader;
    assert m.headers != [] && forall h :: h in m.headers ==> CleanHeader(h) by {
      FramableIs(m);
    }
    SeparatorEndsSection(m.headers, m.body);
    SectionLines(m.headers);
    assert Serialize(m) == Section(m.headers) + SEPARATOR + m.body;
  }

  lemma FramableIs(m: Message)
    ensures Framable(m) <==> m.headers != [] && forall h :: h in m.headers ==> CleanHeader(h)
  {}

  /**
    * A frame parses to a message exactly if it is that framable message printed, possibly after one
    * line break, or if it starts with the separator and the message is just the rest.
    */
  lemma ParsedIff(frame: Bytes, m: Message)
    ensures Parse(frame) == Ok(m) <==>
            (Framable(m) && FrameOf(frame, m)) || (m.headers == [] && frame == SEPARATOR + m.body)
  {
    hide Parse, Serialize, Framable;
    FramableIs(m);
    if Framable(m) {
      ParseSerialize(m);
      LinesNotEmpty(m);
      LeadingBreak(Serialize(m));
    }
    EmptySection(m.body);
    if Parse(frame) == Ok(m) {
      ParsedIsFramed(frame, m);
    }
  }

  lemma ParsedIsFramed(frame: Bytes, m: Message)
    requires Parse(frame) == Ok(m)
    ensures (Framable(m) && FrameOf(frame, m)) || (m.headers == [] && frame == SEPARATOR + m.body)
  {
    hide Parse, Serialize, Framable;
    if !(CRLF <= frame) {
      SerializeParse(frame);
      AcceptedHeaders(frame, m);
    } else {
      var rest := frame[2..];
      assert frame == CRLF + rest;
      if CRLF <= rest {
        assert frame == SEPARATOR + rest[2..];
        EmptySection(rest[2..]);
      } else {
        LeadingBreak(rest);
        SerializeParse(rest);
        AcceptedHeaders(rest, m);
      }
    }
  }

  lemma AcceptedHeaders(frame: Bytes, m: Message)
    requires Parse(frame) == Ok(m) && !(CRLF <= frame)
    ensures Framable(m)
  {
    hide FindSub, ParseHeaders, CleanHeader, Serialize;
    SerializeParse(frame);
    ParsedHeadersClean(frame[..FindSub(frame, SEPARATOR, 0).value]);
    if m.headers == [] {
      NoHeaderLines(m);
    }
  }

  lemma NoHeaderLines(m: Message)
    requires m.headers == []
    ensures Serialize(m) == CRLF + m.body
  {}
}
