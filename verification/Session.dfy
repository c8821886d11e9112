/** One synthesis session: connect, send, receive and close per text chunk (`communication/SynthesisSession`). */
module Session {
  import opened Bytes
  import opened Chunks
  import opened Incoming

  // ---- The outside world ------------------------------------------------------------

  /** What the transport was asked to do, in order; `id` is the connection id of the attempt. */
  datatype Step =
    | ConnectFailed(id: nat, code: ErrorCode)
    | Connected(id: nat)
    | SentConfig(id: nat, ok: bool)
    | SentSsml(id: nat, payload: Bytes, ok: bool)
    | Received(ok: bool)
    | Closed

  /**
    * The collaborators of a session as scripts of the outcomes still to come. Connects, sends and
    * tokens succeed once their script runs out; a receive then fails with a network error.
    * `quiet` is the number of cancellation checks that still find the flag down.
    */
  datatype Net = Net(
    connects: seq<Option<ErrorCode>>,
    tokens: seq<Option<ErrorCode>>,
    sends: seq<Option<ErrorCode>>,
    frames: seq<Result<WebSocketMessage>>,
    quiet: Option<nat>,
    nextId: nat,
    trace: seq<Step>)

  /** The fixed parts of a session: the metadata parser, the SSML builder and the retry limit. */
  datatype Service = Service(meta: MetadataParser, ssml: Bytes -> Result<Bytes>, maxRetries: int)

  function Head(script: seq<Option<ErrorCode>>): Option<ErrorCode> {
    if script == [] then None else script[0]
  }

  function Tail<T>(script: seq<T>): seq<T> {
    if script == [] then [] else script[1..]
  }

  function Poll(n: Net): (bool, Net) {
    match n.quiet
    case None => (false, n)
    case Some(k) => if k == 0 then (true, n) else (false, n.(quiet := Some(k - 1)))
  }

  function MakeId(n: Net): (nat, Net) {
    (n.nextId, n.(nextId := n.nextId + 1))
  }

  function Token(n: Net): (Option<ErrorCode>, Net) {
    (Head(n.tokens), n.(tokens := Tail(n.tokens)))
  }

  function Log(n: Net, s: Step): Net {
    n.(trace := n.trace + [s])
  }

  function Connect(n: Net, id: nat): (Option<ErrorCode>, Net) {
    var r := Head(n.connects);
    (r, Log(n.(connects := Tail(n.connects)), if r.Some? then ConnectFailed(id, r.value) else Connected(id)))
  }

  function SendConfig(n: Net, id: nat): (Option<ErrorCode>, Net) {
    var r := Head(n.sends);
    (r, Log(n.(sends := Tail(n.sends)), SentConfig(id, r.None?)))
  }

  function SendSsml(n: Net, id: nat, payload: Bytes): (Option<ErrorCode>, Net) {
    var r := Head(n.sends);
    (r, Log(n.(sends := Tail(n.sends)), SentSsml(id, payload, r.None?)))
  }

  function Receive(n: Net): (Result<WebSocketMessage>, Net) {
    var r := if n.frames == [] then Err(NetworkError) else n.frames[0];
    (r, Log(n.(frames := Tail(n.frames)), Received(r.Ok?)))
  }

  function Close(n: Net): Net {
    Log(n, Closed)
  }

  class Environment {
    var net: Net

    method IsCancelled() returns (r: bool)
      modifies this
      ensures (r, net) == Poll(old(net))
    {
      r := Poll(net).0;
      net := Poll(net).1;
    }

    method CreateMetadata() returns (id: nat)
      modifies this
      ensures (id, net) == MakeId(old(net))
    {
      id := net.nextId;
      net := MakeId(net).1;
    }

    method SecMsGec() returns (r: Option<ErrorCode>)
      modifies this
      ensures (r, net) == Token(old(net))
    {
      r := Token(net).0;
      net := Token(net).1;
    }

    method ConnectTo(id: nat) returns (r: Option<ErrorCode>)
      modifies this
      ensures (r, net) == Connect(old(net), id)
    {
      r := Connect(net, id).0;
      net := Connect(net, id).1;
    }

    method SendConfigText(id: nat) returns (r: Option<ErrorCode>)
      modifies this
      ensures (r, net) == SendConfig(old(net), id)
    {
      r := SendConfig(net, id).0;
      net := SendConfig(net, id).1;
    }

    method SendSsmlText(id: nat, payload: Bytes) returns (r: Option<ErrorCode>)
      modifies this
      ensures (r, net) == SendSsml(old(net), id, payload)
    {
      r := SendSsml(net, id, payload).0;
      net := SendSsml(net, id, payload).1;
    }

    method ReceiveFrame() returns (r: Result<WebSocketMessage>)
      modifies this
      ensures (r, net) == Receive(old(net))
    {
      r := Receive(net).0;
      net := Receive(net).1;
    }

    method CloseSocket()
      modifies this
      ensures net == Close(old(net))
    {
      net := Close(net);
    }
  }

  // ---- Events of one turn -------------------------------------------------------------

  function Max(a: int, b: int): int {
    if a < b then b else a
  }

  function RawEnd(c: TtsChunk): int {
    match c
    case Audio(_) => 0
    case Mark(b) => b.End()
  }

  /** The largest raw end of the boundaries, and at least zero. */
  function MaxEnd(events: seq<TtsChunk>): (m: int)
    ensures m >= 0
  {
    if events == [] then 0 else Max(MaxEnd(events[..|events| - 1]), RawEnd(events[|events| - 1]))
  }

  lemma {:induction false} MaxEndCovers(events: seq<TtsChunk>, k: nat)
    requires k < |events|
    ensures RawEnd(events[k]) <= MaxEnd(events)
  {
    if k < |events| - 1 {
      MaxEndCovers(events[..|events| - 1], k);
    }
  }

  predicate HasAudio(events: seq<TtsChunk>) {
    exists k :: 0 <= k < |events| && events[k].Audio?
  }

  function ShiftOne(c: TtsChunk, delta: int): TtsChunk {
    match c
    case Audio(_) => c
    case Mark(b) => Mark(b.(offset := b.offset + delta))
  }

  function Shift(events: seq<TtsChunk>, delta: int): (r: seq<TtsChunk>)
    ensures |r| == |events| && forall k :: 0 <= k < |r| ==> r[k] == ShiftOne(events[k], delta)
  {
    seq(|events|, k requires 0 <= k < |events| => ShiftOne(events[k], delta))
  }

  /** The events of a frame up to its `turn.end`, and whether there was one. */
  function BeforeTurnEnd(msgs: seq<IncomingMessage>): (seq<TtsChunk>, bool) {
    if msgs == [] then ([], false)
    else
      match msgs[0]
      case TurnEnd => ([], true)
      case Ignored => BeforeTurnEnd(msgs[1..])
      case Event(c) => ([c] + BeforeTurnEnd(msgs[1..]).0, BeforeTurnEnd(msgs[1..]).1)
  }

  // ---- What a session does, as functions of the world -------------------------------------

  datatype TurnResult = TurnResult(status: Option<ErrorCode>, events: seq<TtsChunk>, net: Net)

  function WithEvents(events: seq<TtsChunk>, r: TurnResult): TurnResult {
    r.(events := events + r.events)
  }

  /** The receive loop. */
  function Drain(n: Net, s: Service): TurnResult
    decreases |n.frames|
  {
    var (cancelled, n1) := Poll(n);
    if cancelled then TurnResult(Some(Cancelled), [], n1)
    else
      var (recv, n2) := Receive(n1);
      if recv.Err? then TurnResult(Some(recv.code), [], n2)
      else
        var parsed := Events(s.meta, recv.value);
        if parsed.Err? then TurnResult(Some(parsed.code), [], n2)
        else
          var (events, done) := BeforeTurnEnd(parsed.value);
          if done then TurnResult(None, events, n2) else WithEvents(events, Drain(n2, s))
  }

  /** Two sends, the receive loop, and the check that audio arrived. */
  function RunTurn(n: Net, s: Service, text: Bytes, id: nat): TurnResult {
    var (send1, n1) := SendConfig(n, id);
    if send1.Some? then TurnResult(send1, [], n1)
    else if s.ssml(text).Err? then TurnResult(Some(s.ssml(text).code), [], n1)
    else
      var (send2, n2) := SendSsml(n1, id, s.ssml(text).value);
      if send2.Some? then TurnResult(send2, [], n2)
      else
        var r := Drain(n2, s);
        if r.status == None && !HasAudio(r.events) then r.(status := Some(ServiceError)) else r
  }

  predicate ShouldRetry(code: ErrorCode, attempt: nat, maxRetries: int) {
    code == DrmError && attempt < maxRetries
  }

  datatype OpenResult = OpenResult(status: Option<ErrorCode>, id: nat, net: Net)

  /** Metadata, token and connect, repeated while the retry policy allows. */
  function Open(n: Net, s: Service, attempt: nat): OpenResult
    decreases s.maxRetries - attempt
  {
    var (id, n1) := MakeId(n);
    var (token, n2) := Token(n1);
    if token.Some? then OpenResult(token, id, n2)
    else
      var (conn, n3) := Connect(n2, id);
      if conn.None? then OpenResult(None, id, n3)
      else if ShouldRetry(conn.value, attempt, s.maxRetries) then Open(n3, s, attempt + 1)
      else OpenResult(conn, id, n3)
  }

  datatype SessionResult = SessionResult(status: Option<ErrorCode>, turns: seq<seq<TtsChunk>>, net: Net)

  function WithTurns(turns: seq<seq<TtsChunk>>, r: SessionResult): SessionResult {
    r.(turns := turns + r.turns)
  }

  /** The raw turns of a session, one per text, or the error of the first that fails. */
  function Run(n: Net, s: Service, texts: seq<Bytes>): SessionResult
    decreases |texts|
  {
    if texts == [] then SessionResult(None, [], n)
    else
      var (cancelled, n1) := Poll(n);
      if cancelled then SessionResult(Some(Cancelled), [], n1)
      else
        var open := Open(n1, s, 0);
        if open.status.Some? then SessionResult(open.status, [], open.net)
        else
          var turn := RunTurn(open.net, s, texts[0], open.id);
          if turn.status.Some? then SessionResult(turn.status, [], Close(turn.net))
          else WithTurns([turn.events], Run(Close(turn.net), s, texts[1..]))
  }

  /** The sum over the turns of their largest raw end. */
  function Total(turns: seq<seq<TtsChunk>>): (t: int)
    ensures t >= 0
  {
    if turns == [] then 0 else Total(turns[..|turns| - 1]) + MaxEnd(turns[|turns| - 1])
  }

  /** The turns in order, each shifted by the total of the turns before it. */
  function Assemble(turns: seq<seq<TtsChunk>>): seq<TtsChunk> {
    if turns == [] then []
    else Assemble(turns[..|turns| - 1]) + Shift(turns[|turns| - 1], Total(turns[..|turns| - 1]))
  }

  // ---- The session code ----------------------------------------------------------------------

  /** One received frame: its events up to a `turn.end`, shifted and appended; the rest is dropped. */
  method TakeMessages(msgs: seq<IncomingMessage>, offsetCompensation: int, before: seq<TtsChunk>, audioBefore: bool, endBefore: int)
    returns (done: bool, chunks: seq<TtsChunk>, audioReceived: bool, boundaryEnd: int)
    requires endBefore >= 0
    ensures done == BeforeTurnEnd(msgs).1
    ensures chunks == before + Shift(BeforeTurnEnd(msgs).0, offsetCompensation)
    ensures audioReceived <==> audioBefore || HasAudio(BeforeTurnEnd(msgs).0)
    ensures boundaryEnd == Max(endBefore, MaxEnd(BeforeTurnEnd(msgs).0))
  {
    done, chunks, audioReceived, boundaryEnd := false, before, audioBefore, endBefore;
    hide BeforeTurnEnd, HasAudio, MaxEnd;
    ghost var taken: seq<TtsChunk> := [];
    assert before + [] == before && msgs[0..] == msgs;
    NothingYet(before, offsetCompensation);
    var i := 0;
    while i < |msgs| && !done
      invariant i <= |msgs|
      invariant done ==> BeforeTurnEnd(msgs).0 == taken && BeforeTurnEnd(msgs).1
      invariant !done ==> BeforeTurnEnd(msgs).0 == taken + BeforeTurnEnd(msgs[i..]).0
      invariant !done ==> BeforeTurnEnd(msgs).1 == BeforeTurnEnd(msgs[i..]).1
      invariant chunks == before + Shift(taken, offsetCompensation)
      invariant audioReceived <==> audioBefore || HasAudio(taken)
      invariant boundaryEnd == Max(endBefore, MaxEnd(taken))
    {
      BeforeTurnEndStep(msgs, i);
      match msgs[i] {
        case TurnEnd =>
          done := true;
          assert taken + [] == taken;
        case Ignored =>
        case Event(chunk) =>
          EventAppended(taken, chunk, offsetCompensation);
          match chunk {
            case Audio(_) =>
              audioReceived := true;
              chunks := chunks + [chunk];
            case Mark(bc) =>
              var rawEnd := bc.offset + bc.duration;
              if rawEnd > boundaryEnd {
                boundaryEnd := rawEnd;
              }
              var shifted := bc.(offset := bc.offset + offsetCompensation);
              chunks := chunks + [Mark(shifted)];
          }
          taken := taken + [chunk];
      }
      i := i + 1;
    }
    BeforeTurnEndDone(msgs);
    assert taken + [] == taken;
  }

  method RunOneChunk(env: Environment, s: Service, text: Bytes, id: nat, offsetCompensation: int, before: seq<TtsChunk>)
    returns (status: Option<ErrorCode>, boundaryEnd: int, chunks: seq<TtsChunk>)
    modifies env
    ensures var r := RunTurn(old(env.net), s, text, id);
            && status == r.status
            && env.net == r.net
            && boundaryEnd == MaxEnd(r.events)
            && chunks == before + Shift(r.events, offsetCompensation)
  {
    hide Events, HasAudio, MaxEnd, BeforeTurnEnd, Drain, Shift;
    boundaryEnd, chunks := 0, before;
    NothingYet(before, offsetCompensation);

    var send1 := env.SendConfigText(id);
    if send1.Some? {
      return send1, boundaryEnd, chunks;
    }
    var ssmlFrame := s.ssml(text);
    if ssmlFrame.Err? {
      return Some(ssmlFrame.code), boundaryEnd, chunks;
    }
    var send2 := env.SendSsmlText(id, ssmlFrame.value);
    if send2.Some? {
      return send2, boundaryEnd, chunks;
    }

    var audioReceived;
    status, audioReceived, boundaryEnd, chunks := ReceiveTurn(env, s, offsetCompensation, before);
    if status.None? && !audioReceived {
      status := Some(ServiceError);
    }
  }

  /** The receive loop, up to `turn.end`. */
  method ReceiveTurn(env: Environment, s: Service, offsetCompensation: int, before: seq<TtsChunk>)
    returns (status: Option<ErrorCode>, audioReceived: bool, boundaryEnd: int, chunks: seq<TtsChunk>)
    modifies env
    ensures var r := Drain(old(env.net), s);
            && status == r.status
            && env.net == r.net
            && audioReceived == HasAudio(r.events)
            && boundaryEnd == MaxEnd(r.events)
            && chunks == before + Shift(r.events, offsetCompensation)
  {
    hide Events, HasAudio, MaxEnd, BeforeTurnEnd, Shift, Drain, Poll, Receive, WithEvents;
    audioReceived, boundaryEnd, chunks := false, 0, before;
    NothingYet(before, offsetCompensation);
    ghost var events: seq<TtsChunk> := [];
    WithNoEvents(Drain(env.net, s));
    while true
      invariant Drain(old(env.net), s) == WithEvents(events, Drain(env.net, s))
      invariant boundaryEnd == MaxEnd(events) && audioReceived == HasAudio(events)
      invariant chunks == before + Shift(events, offsetCompensation)
      decreases |env.net.frames|
    {
      DrainStep(events, env.net, s);
      ReceiveShrinks(env.net);
      var cancelled := env.IsCancelled();
      if cancelled {
        return Some(Cancelled), audioReceived, boundaryEnd, chunks;
      }
      var recv := env.ReceiveFrame();
      if recv.Err? {
        return Some(recv.code), audioReceived, boundaryEnd, chunks;
      }
      var parsed := ParseIncoming(s.meta, recv.value);
      if parsed.Err? {
        return Some(parsed.code), audioReceived, boundaryEnd, chunks;
      }
      var done;
      done, chunks, audioReceived, boundaryEnd :=
        TakeMessages(parsed.value, offsetCompensation, chunks, audioReceived, boundaryEnd);
      ghost var taken := BeforeTurnEnd(parsed.value).0;
      EventsAppended(events, taken, offsetCompensation);
      ShiftAppended(before, events, taken, offsetCompensation);
      events := events + taken;
      if done {
        return None, audioReceived, boundaryEnd, chunks;
      }
    }
  }

  lemma ReceiveShrinks(n: Net)
    ensures var (_, n1) := Poll(n);
            Receive(n1).0.Ok? ==> |Receive(n1).1.frames| < |n.frames|
  {}

  lemma ShiftAppended(before: seq<TtsChunk>, a: seq<TtsChunk>, b: seq<TtsChunk>, delta: int)
    ensures before + Shift(a, delta) + Shift(b, delta) == before + Shift(a + b, delta)
  {}

  /** One round of the receive loop after `events`. */
  lemma DrainStep(events: seq<TtsChunk>, n: Net, s: Service)
    ensures var (cancelled, n1) := Poll(n);
            var (recv, n2) := Receive(n1);
            var r := WithEvents(events, Drain(n, s));
            if cancelled then r == TurnResult(Some(Cancelled), events, n1)
            else if recv.Err? then r == TurnResult(Some(recv.code), events, n2)
            else
              match Events(s.meta, recv.value)
              case Err(code) => r == TurnResult(Some(code), events, n2)
              case Ok(msgs) =>
                var (taken, done) := BeforeTurnEnd(msgs);
                if done then r == TurnResult(None, events + taken, n2)
                else r == WithEvents(events + taken, Drain(n2, s))
  {
    hide Events, BeforeTurnEnd;
    assert events + [] == events;
  }

  lemma NothingYet(before: seq<TtsChunk>, delta: int)
    ensures before + Shift([], delta) == before && MaxEnd([]) == 0 && !HasAudio([])
  {}

  lemma WithNoEvents(r: TurnResult)
    ensures WithEvents([], r) == r
  {
    assert [] + r.events == r.events;
  }

  lemma BeforeTurnEndStep(msgs: seq<IncomingMessage>, i: nat)
    requires i < |msgs|
    ensures BeforeTurnEnd(msgs[i..]) ==
            (match msgs[i]
             case TurnEnd => ([], true)
             case Ignored => BeforeTurnEnd(msgs[i + 1..])
             case Event(c) => ([c] + BeforeTurnEnd(msgs[i + 1..]).0, BeforeTurnEnd(msgs[i + 1..]).1))
  {
    assert msgs[i..][1..] == msgs[i + 1..];
  }

  lemma BeforeTurnEndDone(msgs: seq<IncomingMessage>)
    ensures BeforeTurnEnd(msgs[|msgs|..]) == ([], false)
  {}

  lemma EventAppended(events: seq<TtsChunk>, c: TtsChunk, delta: int)
    ensures MaxEnd(events + [c]) == Max(MaxEnd(events), RawEnd(c))
    ensures HasAudio(events + [c]) <==> HasAudio(events) || c.Audio?
    ensures Shift(events + [c], delta) == Shift(events, delta) + [ShiftOne(c, delta)]
  {
    assert (events + [c])[..|events|] == events;
    assert c.Audio? ==> (events + [c])[|events|].Audio?;
    assert forall k :: 0 <= k < |events| ==> (events + [c])[k] == events[k];
  }

  lemma {:induction false} MaxEndAppend(a: seq<TtsChunk>, b: seq<TtsChunk>)
    ensures MaxEnd(a + b) == Max(MaxEnd(a), MaxEnd(b))
    decreases |b|
  {
    hide MaxEnd, RawEnd;
    if b == [] {
      assert a + b == a;
      NothingYet([], 0);
    } else {
      var init, last := b[..|b| - 1], b[|b| - 1];
      assert b == init + [last] && a + b == a + init + [last];
      MaxEndAppend(a, init);
      MaxEndSnoc(a + init, last);
      MaxEndSnoc(init, last);
    }
  }

  lemma MaxEndSnoc(events: seq<TtsChunk>, c: TtsChunk)
    ensures MaxEnd(events + [c]) == Max(MaxEnd(events), RawEnd(c))
  {
    assert (events + [c])[..|events|] == events;
  }

  lemma HasAudioAppend(a: seq<TtsChunk>, b: seq<TtsChunk>)
    ensures HasAudio(a + b) <==> HasAudio(a) || HasAudio(b)
  {
    assert forall k :: 0 <= k < |a| ==> (a + b)[k] == a[k];
    assert forall k :: 0 <= k < |b| ==> (a + b)[|a| + k] == b[k];
  }

  lemma EventsAppended(a: seq<TtsChunk>, b: seq<TtsChunk>, delta: int)
    ensures MaxEnd(a + b) == Max(MaxEnd(a), MaxEnd(b))
    ensures HasAudio(a + b) <==> HasAudio(a) || HasAudio(b)
    ensures Shift(a + b, delta) == Shift(a, delta) + Shift(b, delta)
  {
    hide MaxEnd, HasAudio;
    MaxEndAppend(a, b);
    HasAudioAppend(a, b);
  }

  method Synthesize(env: Environment, s: Service, texts: seq<Bytes>) returns (r: Result<seq<TtsChunk>>)
    modifies env
    ensures var run := Run(old(env.net), s, texts);
            && env.net == run.net
            && r == if run.status.Some? then Err(run.status.value) else Ok(Assemble(run.turns))
  {
    hide RunTurn, Shift, MaxEnd;
    var allChunks: seq<TtsChunk> := [];
    var cumulativeTicks := 0;
    ghost var turns: seq<seq<TtsChunk>> := [];
    WithTurnsTwice([], [], Run(env.net, s, texts));
    for i := 0 to |texts|
      invariant Run(old(env.net), s, texts) == WithTurns(turns, Run(env.net, s, texts[i..]))
      invariant allChunks == Assemble(turns) && cumulativeTicks == Total(turns)
    {
      assert texts[i..][1..] == texts[i + 1..] && texts[i..][0] == texts[i];
      var cancelled := env.IsCancelled();
      if cancelled {
        return Err(Cancelled);
      }
      var offsetCompensation := cumulativeTicks;
      ghost var start := env.net;
      var attempt := 0;
      var id: nat;
      while true
        invariant Open(start, s, 0) == Open(env.net, s, attempt)
        decreases s.maxRetries - attempt
      {
        id := env.CreateMetadata();
        var gec := env.SecMsGec();
        if gec.Some? {
          return Err(gec.value);
        }
        var conn := env.ConnectTo(id);
        if conn.None? {
          break;
        }
        if !ShouldRetry(conn.value, attempt, s.maxRetries) {
          return Err(conn.value);
        }
        attempt := attempt + 1;
      }
      var status, boundaryEnd;
      ghost var turn := RunTurn(env.net, s, texts[i], id);
      status, boundaryEnd, allChunks := RunOneChunk(env, s, texts[i], id, offsetCompensation, allChunks);
      env.CloseSocket();
      if status.Some? {
        return Err(status.value);
      }
      WithTurnsTwice(turns, [turn.events], Run(env.net, s, texts[i + 1..]));
      TurnAppended(turns, turn.events);
      turns := turns + [turn.events];
      cumulativeTicks := cumulativeTicks + boundaryEnd;
    }
    assert Run(env.net, s, texts[|texts|..]) == SessionResult(None, [], env.net);
    assert turns + [] == turns;
    return Ok(allChunks);
  }

  lemma WithTurnsTwice(a: seq<seq<TtsChunk>>, b: seq<seq<TtsChunk>>, r: SessionResult)
    ensures WithTurns(a, WithTurns(b, r)) == WithTurns(a + b, r)
    ensures WithTurns([], r) == r
  {
    assert a + (b + r.turns) == a + b + r.turns && [] + r.turns == r.turns;
  }

  lemma TurnAppended(turns: seq<seq<TtsChunk>>, events: seq<TtsChunk>)
    ensures Assemble(turns + [events]) == Assemble(turns) + Shift(events, Total(turns))
    ensures Total(turns + [events]) == Total(turns) + MaxEnd(events)
  {
    assert (turns + [events])[..|turns|] == turns;
  }
}
