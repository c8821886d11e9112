/** Decoding of frames received from the service (`communication/EdgeProtocolIncoming`). */
module Incoming {
  import opened Bytes
  import opened Chunks
  import opened Protocol

  const PATH: Bytes := [80, 97, 116, 104]                                                       // Path
  const CONTENT_TYPE: Bytes := [67, 111, 110, 116, 101, 110, 116, 45, 84, 121, 112, 101]        // Content-Type
  const AUDIO: Bytes := [97, 117, 100, 105, 111]                                                // audio
  const AUDIO_MPEG: Bytes := [97, 117, 100, 105, 111, 47, 109, 112, 101, 103]                   // audio/mpeg
  const AUDIO_METADATA: Bytes := [97, 117, 100, 105, 111, 46, 109, 101, 116, 97, 100, 97, 116, 97] // audio.metadata
  const TURN_END: Bytes := [116, 117, 114, 110, 46, 101, 110, 100]                              // turn.end
  const TURN_START: Bytes := [116, 117, 114, 110, 46, 115, 116, 97, 114, 116]                   // turn.start
  const RESPONSE: Bytes := [114, 101, 115, 112, 111, 110, 115, 101]                             // response

  datatype WebSocketMessage = Text(text: Bytes) | Binary(binary: Bytes)

  datatype IncomingMessage = Event(chunk: TtsChunk) | TurnEnd | Ignored

  /** The metadata parser, seen as a function of the frame body. */
  type MetadataParser = Bytes -> Result<seq<Boundary>>

  // ---- Text frames ----------------------------------------------------------------

  function Marks(boundaries: seq<Boundary>): (r: seq<IncomingMessage>)
    ensures |r| == |boundaries| && forall k :: 0 <= k < |r| ==> r[k] == Event(Mark(boundaries[k]))
  {
    seq(|boundaries|, k requires 0 <= k < |boundaries| => Event(Mark(boundaries[k])))
  }

  function TextEvents(meta: MetadataParser, text: Bytes): Result<seq<IncomingMessage>> {
    var msg := Parse(text);
    if msg.Err? then Err(ProtocolError)
    else
      match msg.value.Lookup(PATH)
      case None => Err(ProtocolError)
      case Some(path) =>
        if path == AUDIO_METADATA then
          var chunks := meta(msg.value.body);
          if chunks.Err? || chunks.value == [] then Err(ProtocolError) else Ok(Marks(chunks.value))
        else if path == TURN_END then Ok([TurnEnd])
        else if path == RESPONSE || path == TURN_START then Ok([Ignored])
        else Err(ProtocolError)
  }

  method ParseTextFrame(meta: MetadataParser, text: Bytes) returns (r: Result<seq<IncomingMessage>>)
    ensures r == TextEvents(meta, text)
  {
    var msg := ParseFrame(text);
    if msg.Err? {
      return Err(ProtocolError);
    }
    var path := msg.value.Lookup(PATH);
    if path.None? {
      return Err(ProtocolError);
    }
    if path.value == AUDIO_METADATA {
      var chunks := meta(msg.value.body);
      if chunks.Err? {
        return Err(ProtocolError);
      }
      if chunks.value == [] {
        return Err(ProtocolError);
      }
      var result: seq<IncomingMessage> := [];
      for k := 0 to |chunks.value|
        invariant result == Marks(chunks.value)[..k]
      {
        result := result + [Event(Mark(chunks.value[k]))];
      }
      assert result == Marks(chunks.value);
      return Ok(result);
    }
    if path.value == TURN_END {
      return Ok([TurnEnd]);
    }
    if path.value == RESPONSE || path.value == TURN_START {
      return Ok([Ignored]);
    }
    return Err(ProtocolError);
  }

  lemma MarksInjective(a: seq<Boundary>, b: seq<Boundary>)
    requires Marks(a) == Marks(b)
    ensures a == b
  {
    assert |a| == |b|;
    forall k | 0 <= k < |a|
      ensures a[k] == b[k]
    {
      assert Marks(a)[k] == Marks(b)[k];
    }
  }

  /** A message with this Path as a text frame: printed, or printed after one line break. */
  ghost predicate TextFrame(text: Bytes, m: Message, path: Bytes) {
    Framable(m) && FrameOf(text, m) && m.Lookup(PATH) == Some(path)
  }

  ghost predicate BoundaryFrame(meta: MetadataParser, text: Bytes, m: Message, boundaries: seq<Boundary>) {
    TextFrame(text, m, AUDIO_METADATA) && meta(m.body) == Ok(boundaries)
  }

  /**
    * On every received text: the turn ends exactly on the frame of a message whose first Path is
    * `turn.end`; boundaries arrive exactly from an `audio.metadata` frame whose body holds them, in
    * their order; exactly `response` and `turn.start` frames are ignored; all else is an error.
    */
  lemma TextFrameIff(meta: MetadataParser, text: Bytes, boundaries: seq<Boundary>)
    requires boundaries != []
    ensures var r := TextEvents(meta, text);
            && (r == Ok([TurnEnd]) <==> exists m :: TextFrame(text, m, TURN_END))
            && (r == Ok(Marks(boundaries)) <==> exists m :: BoundaryFrame(meta, text, m, boundaries))
            && (r == Ok([Ignored]) <==> exists m :: TextFrame(text, m, RESPONSE) || TextFrame(text, m, TURN_START))
            && (r.Err? ==> r == Err(ProtocolError))
            && (r.Ok? ==> r == Ok([TurnEnd]) || r == Ok([Ignored]) || exists b :: b != [] && r == Ok(Marks(b)))
  {
    hide Parse, LookupIn, Framable, FrameOf;
    assert Marks(boundaries)[0].Event?;
    forall m: Message, path | TextFrame(text, m, path)
      ensures Parse(text) == Ok(m)
    {
      ParsedIff(text, m);
    }
    if Parse(text).Ok? {
      var m := Parse(text).value;
      ParsedIff(text, m);
      if m.Lookup(PATH).Some? {
        assert TextFrame(text, m, m.Lookup(PATH).value);
        if m.Lookup(PATH) == Some(AUDIO_METADATA) {
          var chunks := meta(m.body);
          if chunks.Ok? && chunks.value != [] {
            assert Marks(chunks.value)[0].Event?;
            assert BoundaryFrame(meta, text, m, chunks.value);
            if TextEvents(meta, text) == Ok(Marks(boundaries)) {
              MarksInjective(chunks.value, boundaries);
            }
          }
        }
      }
    }
  }

  // ---- Binary frames ----------------------------------------------------------------

  function BinaryEvents(data: Bytes): Result<seq<IncomingMessage>> {
    if |data| < 2 then Err(ProtocolError)
    else
      var headerLength: nat := data[0] as int * 256 + data[1] as int;
      if headerLength < 2 then Err(ProtocolError)
      else if headerLength > |data| then Err(ProtocolError)
      else if headerLength + 2 > |data| then Err(ProtocolError)
      else if data[headerLength] != CR || data[headerLength + 1] != LF then Err(ProtocolError)
      else
        var headers := Parse(data[2..headerLength] + SEPARATOR);
        if headers.Err? then Err(ProtocolError)
        else HeaderVerdict(headers.value, data[headerLength + 2..])
  }

  /** The outcome once the headers are read: what the path, the content type and the body allow. */
  function HeaderVerdict(headers: Message, body: Bytes): Result<seq<IncomingMessage>> {
    if headers.Lookup(PATH) != Some(AUDIO) then Err(ProtocolError)
    else
      match headers.Lookup(CONTENT_TYPE)
      case Some(contentType) =>
        if contentType != AUDIO_MPEG then Err(ProtocolError)
        else if body == [] then Err(ProtocolError)
        else Ok([Event(Audio(body))])
      case None =>
        if body == [] then Ok([Ignored]) else Err(ProtocolError)
  }

  method ParseBinaryFrame(data: Bytes) returns (r: Result<seq<IncomingMessage>>)
    ensures r == BinaryEvents(data)
  {
    if |data| < 2 {
      return Err(ProtocolError);
    }
    var headerLength: nat := data[0] as int * 256 + data[1] as int;
    if headerLength < 2 {
      return Err(ProtocolError);
    }
    if headerLength > |data| {
      return Err(ProtocolError);
    }
    if headerLength + 2 > |data| {
      return Err(ProtocolError);
    }
    if data[headerLength] != CR || data[headerLength + 1] != LF {
      return Err(ProtocolError);
    }
    var headerStr := data[2..headerLength];
    headerStr := headerStr + SEPARATOR;
    var headers := ParseFrame(headerStr);
    if headers.Err? {
      return Err(ProtocolError);
    }
    var path := headers.value.Lookup(PATH);
    if path.None? || path.value != AUDIO {
      return Err(ProtocolError);
    }
    var contentType := headers.value.Lookup(CONTENT_TYPE);
    if contentType.Some? && contentType.value != AUDIO_MPEG {
      return Err(ProtocolError);
    }
    var bodyOffset := headerLength + 2;
    var bodyLen := |data| - bodyOffset;
    if contentType.None? {
      if bodyLen == 0 {
        return Ok([Ignored]);
      }
      return Err(ProtocolError);
    }
    if bodyLen == 0 {
      return Err(ProtocolError);
    }
    return Ok([Event(Audio(data[bodyOffset..]))]);
  }

  function Events(meta: MetadataParser, message: WebSocketMessage): Result<seq<IncomingMessage>> {
    match message
    case Text(text) => TextEvents(meta, text)
    case Binary(binary) => BinaryEvents(binary)
  }

  method ParseIncoming(meta: MetadataParser, message: WebSocketMessage) returns (r: Result<seq<IncomingMessage>>)
    ensures r == Events(meta, message)
  {
    match message
    case Text(text) => r := ParseTextFrame(meta, text);
    case Binary(binary) => r := ParseBinaryFrame(binary);
  }

  /** The messages of a text frame are one turn end, one ignored message, or boundaries. */
  ghost predicate TextMessages(msgs: seq<IncomingMessage>) {
    || msgs == [TurnEnd] || msgs == [Ignored]
    || (msgs != [] && forall k :: 0 <= k < |msgs| ==> msgs[k].Event? && msgs[k].chunk.Mark?)
  }

  /** The message of a binary frame is an ignored one or non-empty audio. */
  ghost predicate BinaryMessages(msgs: seq<IncomingMessage>) {
    |msgs| == 1 && (msgs[0].Event? ==> msgs[0].chunk.Audio? && msgs[0].chunk.data != []) && !msgs[0].TurnEnd?
  }

  /**
    * Every decoded frame delivers at least one message. Text frames never deliver audio; binary
    * frames deliver exactly one message, never a boundary and never the end of the turn.
    */
  lemma DeliveredKinds(meta: MetadataParser, message: WebSocketMessage)
    ensures var r := Events(meta, message);
            && (r.Err? ==> r.code == ProtocolError)
            && (r.Ok? ==> if message.Text? then TextMessages(r.value) else BinaryMessages(r.value))
  {
    hide Parse, LookupIn;
  }

  // ---- The binary layout ----------------------------------------------------------------

  /** A 16-bit big-endian length that counts its own two bytes, the header text, CRLF, the body. */
  function Layout(header: Bytes, body: Bytes): Bytes
    requires |header| + 2 < 0x10000
  {
    [(|header| + 2) / 256, (|header| + 2) % 256] + header + CRLF + body
  }

  ghost predicate AudioHeader(header: Bytes) {
    var m := Parse(header + SEPARATOR);
    m.Ok? && m.value.Lookup(PATH) == Some(AUDIO) && m.value.Lookup(CONTENT_TYPE) == Some(AUDIO_MPEG)
  }

  lemma LayoutReads(header: Bytes, body: Bytes)
    requires |header| + 2 < 0x10000
    ensures var d := Layout(header, body);
            var n := |header| + 2;
            && |d| >= n + 2
            && d[0] as int * 256 + d[1] as int == n
            && d[2..n] == header && d[n] == CR && d[n + 1] == LF && d[n + 2..] == body
  {
    var d := Layout(header, body);
    var n := |header| + 2;
    assert d == d[..2] + (header + (CRLF + body));
  }

  lemma LayoutOf(data: Bytes)
    requires |data| >= 2
    requires var n := data[0] as int * 256 + data[1] as int;
             2 <= n && n + 2 <= |data| && data[n] == CR && data[n + 1] == LF
    ensures var n := data[0] as int * 256 + data[1] as int;
            |data[2..n]| + 2 < 0x10000 && data == Layout(data[2..n], data[n + 2..])
  {
    var n := data[0] as int * 256 + data[1] as int;
    assert n / 256 == data[0] && n % 256 == data[1];
    assert data[n..n + 2] == CRLF;
    assert data == data[..2] + data[2..n] + data[n..n + 2] + data[n + 2..];
    assert data[..2] == [n / 256, n % 256];
  }

  /** What a laid-out frame decodes to depends only on its header and its body. */
  lemma LayoutEvents(header: Bytes, body: Bytes)
    requires |header| + 2 < 0x10000
    ensures var m := Parse(header + SEPARATOR);
            BinaryEvents(Layout(header, body)) == if m.Err? then Err(ProtocolError) else HeaderVerdict(m.value, body)
  {
    hide Parse, HeaderVerdict, Layout;
    LayoutReads(header, body);
  }

  /** Every frame that decodes at all is laid out. */
  lemma DecodedIsLayout(data: Bytes) returns (header: Bytes, body: Bytes)
    ensures BinaryEvents(data).Ok? ==> |header| + 2 < 0x10000 && data == Layout(header, body)
  {
    hide Parse, HeaderVerdict, Layout;
    header, body := [], [];
    if BinaryEvents(data).Ok? {
      LayoutOf(data);
      var n := data[0] as int * 256 + data[1] as int;
      header, body := data[2..n], data[n + 2..];
    }
  }

  lemma VerdictIsAudio(header: Bytes, body: Bytes, b: Bytes)
    requires Parse(header + SEPARATOR).Ok?
    ensures HeaderVerdict(Parse(header + SEPARATOR).value, body) == Ok([Event(Audio(b))]) <==>
            AudioHeader(header) && body == b != []
  {
    hide Parse, LookupIn;
  }

  ghost predicate AudioFrame(data: Bytes, header: Bytes, body: Bytes) {
    |header| + 2 < 0x10000 && data == Layout(header, body) && AudioHeader(header)
  }

  /**
    * A binary frame yields audio `body` exactly when it is laid out with a header whose first
    * Path is `audio` and whose first Content-Type is `audio/mpeg`, and the body is not empty.
    */
  lemma BinaryAudioIff(data: Bytes, body: Bytes)
    ensures BinaryEvents(data) == Ok([Event(Audio(body))]) <==>
            body != [] && exists header: Bytes :: AudioFrame(data, header, body)
  {
    hide BinaryEvents, Layout, AudioHeader, HeaderVerdict, Parse;
    if BinaryEvents(data) == Ok([Event(Audio(body))]) {
      var header, b := DecodedIsLayout(data);
      LayoutEvents(header, b);
      VerdictIsAudio(header, b, body);
      assert AudioFrame(data, header, body);
    }
    if body != [] && exists header: Bytes :: AudioFrame(data, header, body) {
      var header: Bytes :| AudioFrame(data, header, body);
      LayoutEvents(header, body);
      AudioHeaderParses(header);
      VerdictIsAudio(header, body, body);
    }
  }

  lemma AudioHeaderParses(header: Bytes)
    requires AudioHeader(header)
    ensures Parse(header + SEPARATOR).Ok?
  {}

  /** The first Path is `audio`, and there is no Content-Type. */
  ghost predicate BareHeader(header: Bytes) {
    var m := Parse(header + SEPARATOR);
    m.Ok? && m.value.Lookup(PATH) == Some(AUDIO) && m.value.Lookup(CONTENT_TYPE) == None
  }

  ghost predicate EmptyFrame(data: Bytes, header: Bytes) {
    |header| + 2 < 0x10000 && data == Layout(header, []) && BareHeader(header)
  }

  /** A binary frame is ignored exactly when it has no body and a header with first Path `audio` and no Content-Type. */
  lemma BinaryIgnoredIff(data: Bytes)
    ensures BinaryEvents(data) == Ok([Ignored]) <==> exists header: Bytes :: EmptyFrame(data, header)
  {
    hide BinaryEvents, Layout, BareHeader, HeaderVerdict, Parse;
    if BinaryEvents(data) == Ok([Ignored]) {
      var header, body := DecodedIsLayout(data);
      LayoutEvents(header, body);
      VerdictIsIgnored(header, body);
      assert EmptyFrame(data, header);
    }
    if exists header: Bytes :: EmptyFrame(data, header) {
      var header: Bytes :| EmptyFrame(data, header);
      LayoutEvents(header, []);
      BareHeaderParses(header);
      VerdictIsIgnored(header, []);
    }
  }

  lemma BareHeaderParses(header: Bytes)
    requires BareHeader(header)
    ensures Parse(header + SEPARATOR).Ok?
  {}

  lemma VerdictIsIgnored(header: Bytes, body: Bytes)
    requires Parse(header + SEPARATOR).Ok?
    ensures HeaderVerdict(Parse(header + SEPARATOR).value, body) == Ok([Ignored]) <==> BareHeader(header) && body == []
  {
    hide Parse, LookupIn;
  }

  /** A binary frame has three outcomes; it is a protocol error exactly when it is of neither other kind. */
  lemma BinaryOutcomes(data: Bytes)
    ensures var r := BinaryEvents(data);
            && (r == Err(ProtocolError) <==>
                  && !(exists header: Bytes :: EmptyFrame(data, header))
                  && !(exists header: Bytes, body: Bytes :: body != [] && AudioFrame(data, header, body)))
            && (r == Err(ProtocolError) || r == Ok([Ignored]) ||
                exists body: Bytes :: body != [] && r == Ok([Event(Audio(body))]))
  {
    hide BinaryEvents, EmptyFrame, AudioFrame;
    BinaryIgnoredIff(data);
    forall header: Bytes, body: Bytes | body != [] && AudioFrame(data, header, body)
      ensures BinaryEvents(data) == Ok([Event(Audio(body))])
    {
      BinaryAudioIff(data, body);
    }
    if BinaryEvents(data).Err? {
      OnlyProtocolErrors(data);
    } else {
      DecodedKinds(data);
      if BinaryEvents(data) != Ok([Ignored]) {
        var body: Bytes :| body != [] && BinaryEvents(data) == Ok([Event(Audio(body))]);
        BinaryAudioIff(data, body);
      }
    }
  }

  lemma DecodedKinds(data: Bytes)
    requires BinaryEvents(data).Ok?
    ensures BinaryEvents(data) == Ok([Ignored]) ||
            exists body: Bytes :: body != [] && BinaryEvents(data) == Ok([Event(Audio(body))])
  {
    hide BinaryEvents, Layout, Parse, LookupIn;
    var header, body := DecodedIsLayout(data);
    LayoutEvents(header, body);
  }

  lemma OnlyProtocolErrors(data: Bytes)
    requires BinaryEvents(data).Err?
    ensures BinaryEvents(data).code == ProtocolError
  {
    hide Parse, LookupIn;
  }

  /** Audio framed by a sender with clean headers arrives unchanged. */
  lemma AudioRoundTrip(headers: seq<Header>, body: Bytes)
    requires Framable(Message(headers, [])) && body != []
    requires LookupIn(headers, PATH) == Some(AUDIO) && LookupIn(headers, CONTENT_TYPE) == Some(AUDIO_MPEG)
    requires |Section(headers)| + 2 < 0x10000
    ensures BinaryEvents(Layout(Section(headers), body)) == Ok([Event(Audio(body))])
  {
    hide LookupIn, CleanHeader, Parse, BinaryEvents;
    var header := Section(headers);
    SectionLines(headers);
    ParseSerialize(Message(headers, []));
    assert header + SEPARATOR == Serialize(Message(headers, []));
    assert AudioHeader(header);
    assert AudioFrame(Layout(header, body), header, body);
    BinaryAudioIff(Layout(header, body), body);
  }
}
