/** What every run of a session keeps: a closed form of its output and the shape of its trace. */
module SessionProperties {
  import opened Bytes
  import opened Chunks
  import opened Incoming
  import opened Session

  // ---- The frames alone determine the output -------------------------------------------

  /** The events before the first `turn.end` of the frames, and the frames after it. */
  function TurnFrom(frames: seq<Result<WebSocketMessage>>, meta: MetadataParser)
    : (r: Option<(seq<TtsChunk>, seq<Result<WebSocketMessage>>)>)
    ensures r.Some? ==> |r.value.1| < |frames| && r.value.1 == frames[|frames| - |r.value.1|..]
  {
    if frames == [] || frames[0].Err? then None
    else
      var msgs := Events(meta, frames[0].value);
      if msgs.Err? then None
      else
        var (events, done) := BeforeTurnEnd(msgs.value);
        if done then Some((events, frames[1..]))
        else
          match TurnFrom(frames[1..], meta)
          case None => None
          case Some((more, rest)) => Some((events + more, rest))
  }

  function TurnsFrom(frames: seq<Result<WebSocketMessage>>, meta: MetadataParser, n: nat): Option<seq<seq<TtsChunk>>>
    decreases n
  {
    if n == 0 then Some([])
    else
      match TurnFrom(frames, meta)
      case None => None
      case Some((events, rest)) =>
        match TurnsFrom(rest, meta, n - 1)
        case None => None
        case Some(more) => Some([events] + more)
  }

  ghost predicate AllAudible(turns: seq<seq<TtsChunk>>) {
    forall t :: t in turns ==> HasAudio(t)
  }

  /** The receive loop ends well only on a turn of the frames, and always does unless cancelled. */
  lemma {:induction false} DrainReadsTurn(n: Net, s: Service)
    ensures var r := Drain(n, s);
            var t := TurnFrom(n.frames, s.meta);
            && (r.status == None ==> t == Some((r.events, r.net.frames)))
            && (n.quiet == None ==> (r.status == None <==> t.Some?) && r.net.quiet == None)
    decreases |n.frames|
  {
    hide Events, BeforeTurnEnd;
    var (cancelled, n1) := Poll(n);
    if !cancelled {
      var (recv, n2) := Receive(n1);
      if recv.Ok? && Events(s.meta, recv.value).Ok? {
        var (events, done) := BeforeTurnEnd(Events(s.meta, recv.value).value);
        if !done {
          DrainReadsTurn(n2, s);
        }
      }
    }
  }

  lemma {:induction false} OpenKeepsFrames(n: Net, s: Service, attempt: nat)
    ensures var r := Open(n, s, attempt);
            r.net.frames == n.frames && r.net.quiet == n.quiet && r.net.sends == n.sends
    decreases s.maxRetries - attempt
  {
    var (id, n1) := MakeId(n);
    var (token, n2) := Token(n1);
    var (conn, n3) := Connect(n2, id);
    if token.None? && conn.Some? && ShouldRetry(conn.value, attempt, s.maxRetries) {
      OpenKeepsFrames(n3, s, attempt + 1);
    }
  }

  /**
    * The turns of a successful session are read off the received frames alone: retries,
    * tokens and connection ids leave no mark on them.
    */
  lemma {:induction false} SuccessReadsFrames(n: Net, s: Service, texts: seq<Bytes>)
    requires Run(n, s, texts).status == None
    ensures TurnsFrom(n.frames, s.meta, |texts|) == Some(Run(n, s, texts).turns)
    ensures |Run(n, s, texts).turns| == |texts| && AllAudible(Run(n, s, texts).turns)
    decreases |texts|
  {
    hide Drain, HasAudio, TurnFrom, RunTurn, Open;
    if texts != [] {
      var (_, n1) := Poll(n);
      OpenKeepsFrames(n1, s, 0);
      var open := Open(n1, s, 0);
      var turn := RunTurn(open.net, s, texts[0], open.id);
      TurnReadsFrames(open.net, s, texts[0], open.id);
      SuccessReadsFrames(Close(turn.net), s, texts[1..]);
      AudibleCons(turn.events, Run(Close(turn.net), s, texts[1..]).turns);
    }
  }

  lemma AudibleCons(events: seq<TtsChunk>, turns: seq<seq<TtsChunk>>)
    ensures AllAudible([events] + turns) <==> HasAudio(events) && AllAudible(turns)
  {
    var all := [events] + turns;
    assert all[0] == events && all[1..] == turns;
    assert forall t :: t in turns ==> t in all;
  }

  lemma TurnReadsFrames(n: Net, s: Service, text: Bytes, id: nat)
    requires RunTurn(n, s, text, id).status == None
    ensures var r := RunTurn(n, s, text, id);
            TurnFrom(n.frames, s.meta) == Some((r.events, r.net.frames)) && HasAudio(r.events)
  {
    hide HasAudio;
    var n2 := SendSsml(SendConfig(n, id).1, id, s.ssml(text).value).1;
    DrainReadsTurn(n2, s);
  }

  /**
    * How many connection attempts `turns` connections take, the first at retry `attempt`, or `None`
    * if some failure is final. Connects succeed once the script has run out.
    */
  function Attempts(connects: seq<Option<ErrorCode>>, maxRetries: int, attempt: nat, turns: nat): (r: Option<nat>)
    ensures r.Some? ==> r.value >= turns
    decreases |connects|
  {
    if connects == [] || turns == 0 then Some(turns)
    else
      var rest :- if connects[0].None? then Attempts(connects[1..], maxRetries, 0, turns - 1)
                  else if connects[0].value == DrmError && attempt < maxRetries then
                    Attempts(connects[1..], maxRetries, attempt + 1, turns)
                  else None;
      Some(rest + 1)
  }

  /** The next `n` outcomes are all successes. */
  predicate Clear(script: seq<Option<ErrorCode>>, n: nat) {
    forall k :: 0 <= k < n && k < |script| ==> script[k] == None
  }

  lemma ClearStep(script: seq<Option<ErrorCode>>, n: nat)
    ensures Clear(script, n + 1) <==> Head(script) == None && Clear(Tail(script), n)
  {
    if script != [] {
      assert forall k :: 0 <= k < |script| - 1 ==> Tail(script)[k] == script[k + 1];
    }
  }

  /** The flag stays down for the next `n` checks. */
  predicate Undisturbed(quiet: Option<nat>, n: nat) {
    quiet.Some? ==> n <= quiet.value
  }

  function AfterChecks(quiet: Option<nat>, n: nat): Option<nat>
    requires Undisturbed(quiet, n)
  {
    if quiet.Some? then Some(quiet.value - n) else None
  }

  /** How many frames the first `n` turns take. */
  function FramesUsed(frames: seq<Result<WebSocketMessage>>, meta: MetadataParser, n: nat): nat
    decreases n
  {
    if n == 0 then 0
    else
      match TurnFrom(frames, meta)
      case None => 0
      case Some((_, rest)) => |frames| - |rest| + FramesUsed(rest, meta, n - 1)
  }

  /** Every connect, and the token before it, that `turns` connections take succeeds or is retried. */
  predicate OpensSuffice(n: Net, s: Service, attempt: nat, turns: nat) {
    var attempts := Attempts(n.connects, s.maxRetries, attempt, turns);
    attempts.Some? && Clear(n.tokens, attempts.value)
  }

  /** The number of DRM errors before any other outcome. */
  function DrmErrors(connects: seq<Option<ErrorCode>>): (d: nat)
    ensures d <= |connects| && forall k :: 0 <= k < d ==> connects[k] == Some(DrmError)
    ensures d < |connects| ==> connects[d] != Some(DrmError)
  {
    if connects == [] || connects[0] != Some(DrmError) then 0 else 1 + DrmErrors(connects[1..])
  }

  function Min(a: nat, b: nat): nat {
    if a < b then a else b
  }

  function At(script: seq<Option<ErrorCode>>, k: nat): Option<ErrorCode> {
    if k < |script| then script[k] else None
  }

  /** The first error among the next `n` outcomes. */
  function FirstError(script: seq<Option<ErrorCode>>, n: nat): (r: Option<ErrorCode>)
    ensures r == None <==> Clear(script, n)
    ensures r.Some? ==> exists j :: 0 <= j < n && Clear(script, j) && At(script, j) == r
  {
    if n == 0 then None
    else if Clear(script, n - 1) then At(script, n - 1)
    else FirstError(script, n - 1)
  }

  lemma {:induction false} FirstErrorStep(script: seq<Option<ErrorCode>>, n: nat)
    ensures FirstError(script, n + 1) == if Head(script).Some? then Head(script) else FirstError(Tail(script), n)
  {
    hide Clear;
    ClearStep(script, n);
    if n == 0 {
      ClearNone(script);
      ClearNone(Tail(script));
    } else {
      ClearStep(script, n - 1);
      FirstErrorStep(script, n - 1);
    }
  }

  /**
    * Opening retries as often as the DRM errors at the front call for and the limit allows. The first
    * token that fails on the way is the outcome, and otherwise the connect after the retries is.
    */
  lemma OpenOutcome(n: Net, s: Service)
    ensures var retries := Min(DrmErrors(n.connects), RetryBound(s));
            var token := FirstError(n.tokens, retries + 1);
            Open(n, s, 0).status == if token.Some? then token else At(n.connects, retries)
  {
    hide Open, FirstError, DrmErrors;
    OpenOutcomeFrom(n, s, 0);
  }

  lemma {:induction false} OpenOutcomeFrom(n: Net, s: Service, attempt: nat)
    requires attempt <= RetryBound(s)
    ensures var retries := Min(DrmErrors(n.connects), RetryBound(s) - attempt);
            var token := FirstError(n.tokens, retries + 1);
            Open(n, s, attempt).status == if token.Some? then token else At(n.connects, retries)
    decreases s.maxRetries - attempt
  {
    hide Clear, FirstError, Open, DrmErrors;
    var m := AfterAttempt(n);
    OpenStep(n, s, attempt);
    RetriesStep(n.connects, RetryBound(s) - attempt);
    var retries := Min(DrmErrors(n.connects), RetryBound(s) - attempt);
    FirstErrorStep(n.tokens, retries);
    if Head(n.connects) == Some(DrmError) && attempt < RetryBound(s) {
      OpenOutcomeFrom(m, s, attempt + 1);
    } else {
      NoError(m.tokens);
    }
  }

  /** The world after one token and one connect. */
  function AfterAttempt(n: Net): Net {
    Connect(Token(MakeId(n).1).1, n.nextId).1
  }

  lemma OpenStep(n: Net, s: Service, attempt: nat)
    requires attempt <= RetryBound(s)
    ensures Open(n, s, attempt).status ==
            if Head(n.tokens).Some? then Head(n.tokens)
            else if Head(n.connects) == Some(DrmError) && attempt < RetryBound(s) then
              Open(AfterAttempt(n), s, attempt + 1).status
            else Head(n.connects)
  {}

  lemma RetriesStep(connects: seq<Option<ErrorCode>>, left: nat)
    ensures var retries := Min(DrmErrors(connects), left);
            if Head(connects) == Some(DrmError) && left > 0 then
              retries == Min(DrmErrors(Tail(connects)), left - 1) + 1 && At(connects, retries) == At(Tail(connects), retries - 1)
            else retries == 0 && At(connects, retries) == Head(connects)
  {}

  lemma NoError(script: seq<Option<ErrorCode>>)
    ensures FirstError(script, 0) == None
  {}

  /**
    * A connection opens exactly when the DRM errors at the front are no more than the retries allowed,
    * the outcome after them is a success, and every attempt gets its token.
    */
  lemma OpensIff(n: Net, s: Service)
    ensures var d := DrmErrors(n.connects);
            Open(n, s, 0).status == None <==>
            d <= RetryBound(s) && At(n.connects, d) == None && Clear(n.tokens, d + 1)
  {
    hide Open, Clear;
    OpenOutcome(n, s);
  }

  lemma {:induction false} OpenIff(n: Net, s: Service, attempt: nat, turns: nat)
    requires turns > 0
    ensures var r := Open(n, s, attempt);
            OpensSuffice(n, s, attempt, turns) <==> r.status == None && OpensSuffice(r.net, s, 0, turns - 1)
    decreases s.maxRetries - attempt
  {
    hide Clear;
    var (id, n1) := MakeId(n);
    var (token, n2) := Token(n1);
    var (conn, n3) := Connect(n2, id);
    var attempts := Attempts(n.connects, s.maxRetries, attempt, turns);
    if attempts.Some? {
      ClearStep(n.tokens, attempts.value - 1);
    }
    if token.None? && conn.Some? && ShouldRetry(conn.value, attempt, s.maxRetries) {
      OpenIff(n3, s, attempt + 1, turns);
    }
  }

  lemma {:induction false} DrainIff(n: Net, s: Service)
    ensures var r := Drain(n, s);
            var t := TurnFrom(n.frames, s.meta);
            && (r.status == None <==> t.Some? && Undisturbed(n.quiet, |n.frames| - |t.value.1|))
            && (r.status == None ==> r.net.quiet == AfterChecks(n.quiet, |n.frames| - |t.value.1|))
    decreases |n.frames|
  {
    hide Events, BeforeTurnEnd, Undisturbed, AfterChecks, Drain, TurnFrom;
    DrainReadsTurn(n, s);
    var (cancelled, n1) := Poll(n);
    var (recv, n2) := Receive(n1);
    var t := TurnFrom(n.frames, s.meta);
    TurnFromStep(n.frames, s.meta);
    DrainQuiet(n, s);
    NoMoreChecks(n1.quiet);
    if t.Some? {
      UndisturbedStep(n, |n.frames| - |t.value.1| - 1);
    }
    if !cancelled && recv.Ok? && Events(s.meta, recv.value).Ok? && !BeforeTurnEnd(Events(s.meta, recv.value).value).1 {
      DrainIff(n2, s);
    }
  }

  /** What one round of the receive loop does to the status and the flag. */
  lemma DrainQuiet(n: Net, s: Service)
    ensures var (cancelled, n1) := Poll(n);
            var (recv, n2) := Receive(n1);
            var r := Drain(n, s);
            if cancelled then r.status == Some(Cancelled)
            else if recv.Err? || Events(s.meta, recv.value).Err? then r.status.Some?
            else if BeforeTurnEnd(Events(s.meta, recv.value).value).1 then r.status == None && r.net.quiet == n1.quiet
            else r.status == Drain(n2, s).status && r.net.quiet == Drain(n2, s).net.quiet
  {
    hide Events, BeforeTurnEnd;
  }

  lemma TurnFromStep(frames: seq<Result<WebSocketMessage>>, meta: MetadataParser)
    ensures var t := TurnFrom(frames, meta);
            if frames == [] || frames[0].Err? || Events(meta, frames[0].value).Err? then t == None
            else
              var (events, done) := BeforeTurnEnd(Events(meta, frames[0].value).value);
              var rest := TurnFrom(frames[1..], meta);
              if done then t == Some((events, frames[1..]))
              else t.Some? == rest.Some? && (t.Some? ==> t.value.1 == rest.value.1)
  {
    hide Events, BeforeTurnEnd;
  }

  lemma UndisturbedStep(n: Net, k: nat)
    ensures var (cancelled, n1) := Poll(n);
            && (Undisturbed(n.quiet, k + 1) <==> !cancelled && Undisturbed(n1.quiet, k))
            && (Undisturbed(n.quiet, k + 1) ==> AfterChecks(n.quiet, k + 1) == AfterChecks(n1.quiet, k))
  {}

  lemma NoMoreChecks(quiet: Option<nat>)
    ensures Undisturbed(quiet, 0) && AfterChecks(quiet, 0) == quiet
  {}

  lemma TurnIff(n: Net, s: Service, text: Bytes, id: nat)
    ensures var r := RunTurn(n, s, text, id);
            var t := TurnFrom(n.frames, s.meta);
            && (r.status == None <==>
                && Clear(n.sends, 2) && s.ssml(text).Ok? && t.Some? && HasAudio(t.value.0)
                && Undisturbed(n.quiet, |n.frames| - |t.value.1|))
            && (r.status == None ==>
                && t == Some((r.events, r.net.frames)) && r.net.quiet == AfterChecks(n.quiet, |n.frames| - |t.value.1|)
                && r.net.sends == Tail(Tail(n.sends)) && r.net.tokens == n.tokens && r.net.connects == n.connects)
  {
    hide HasAudio, Clear, TurnFrom, Drain, Events, Undisturbed, AfterChecks;
    ClearStep(n.sends, 1);
    ClearStep(Tail(n.sends), 0);
    assert Clear(Tail(Tail(n.sends)), 0) by {
      ClearNone(Tail(Tail(n.sends)));
    }
    if s.ssml(text).Ok? {
      var n2 := SendSsml(SendConfig(n, id).1, id, s.ssml(text).value).1;
      DrainReadsTurn(n2, s);
      DrainIff(n2, s);
      DrainKeepsScripts(n2, s);
    }
  }

  lemma ClearNone(script: seq<Option<ErrorCode>>)
    ensures Clear(script, 0)
  {}

  /** Everything a session of these texts needs of the outside world. */
  ghost predicate Succeeds(n: Net, s: Service, texts: seq<Bytes>) {
    var turns := TurnsFrom(n.frames, s.meta, |texts|);
    && OpensSuffice(n, s, 0, |texts|)
    && Clear(n.sends, 2 * |texts|)
    && (forall t :: t in texts ==> s.ssml(t).Ok?)
    && turns.Some? && AllAudible(turns.value)
    && Undisturbed(n.quiet, |texts| + FramesUsed(n.frames, s.meta, |texts|))
  }

  /**
    * Over all scripts, a session succeeds exactly when: the retries carry every connect, with a token
    * for each attempt; two sends per text succeed, and every text can be built; the frames hold an
    * audible turn per text; and the flag stays down for one check per text and one per frame read.
    */
  lemma {:induction false} SuccessIff(n: Net, s: Service, texts: seq<Bytes>)
    ensures Run(n, s, texts).status == None <==> Succeeds(n, s, texts)
    decreases |texts|
  {
    hide Drain, HasAudio, TurnFrom, RunTurn, Open, OpensSuffice, Clear, AllAudible;
    if texts == [] {
      NothingNeeded(n, s);
    } else {
      var (cancelled, n1) := Poll(n);
      OpenKeepsFrames(n1, s, 0);
      OpenIff(n1, s, 0, |texts|);
      OpensIgnoreQuiet(n, n1, s, |texts|);
      var open := Open(n1, s, 0);
      if !cancelled && open.status == None {
        var turn := RunTurn(open.net, s, texts[0], open.id);
        TurnIff(open.net, s, texts[0], open.id);
        ClearTwice(n.sends, 2 * (|texts| - 1));
        assert texts == [texts[0]] + texts[1..];
        var first := TurnFrom(n.frames, s.meta);
        if first.Some? && TurnsFrom(first.value.1, s.meta, |texts| - 1).Some? {
          AudibleCons(first.value.0, TurnsFrom(first.value.1, s.meta, |texts| - 1).value);
        }
        if turn.status == None {
          SuccessIff(Close(turn.net), s, texts[1..]);
          OpensIgnoreQuiet(open.net, Close(turn.net), s, |texts| - 1);
        }
      }
    }
  }

  lemma NothingNeeded(n: Net, s: Service)
    ensures Succeeds(n, s, [])
  {}

  lemma OpensIgnoreQuiet(n: Net, m: Net, s: Service, turns: nat)
    requires n.connects == m.connects && n.tokens == m.tokens
    ensures OpensSuffice(n, s, 0, turns) <==> OpensSuffice(m, s, 0, turns)
  {}

  lemma ClearTwice(script: seq<Option<ErrorCode>>, n: nat)
    ensures Clear(script, n + 2) <==> Clear(script, 2) && Clear(Tail(Tail(script)), n)
  {
    hide Clear;
    ClearStep(script, n + 1);
    ClearStep(Tail(script), n);
    ClearStep(script, 1);
    ClearStep(Tail(script), 0);
    ClearNone(Tail(Tail(script)));
  }

  lemma {:induction false} DrainKeepsScripts(n: Net, s: Service)
    ensures var r := Drain(n, s).net;
            r.connects == n.connects && r.tokens == n.tokens && r.sends == n.sends && r.nextId == n.nextId
    decreases |n.frames|
  {
    hide Events, BeforeTurnEnd;
    var (cancelled, n1) := Poll(n);
    if !cancelled {
      var (recv, n2) := Receive(n1);
      if recv.Ok? {
        DrainKeepsScripts(n2, s);
      }
    }
  }

  // ---- Which error a session returns -------------------------------------------------------------

  /** A frame that arrives, decodes and does not end the turn. */
  ghost predicate GoesOn(f: Result<WebSocketMessage>, meta: MetadataParser) {
    f.Ok? && Events(meta, f.value).Ok? && TurnEnd !in Events(meta, f.value).value
  }

  /** The number of such frames at the front. */
  ghost function FramesOn(frames: seq<Result<WebSocketMessage>>, meta: MetadataParser): (k: nat)
    ensures k <= |frames|
  {
    hide GoesOn;
    if frames == [] || !GoesOn(frames[0], meta) then 0 else 1 + FramesOn(frames[1..], meta)
  }

  /** All frames before that number go on, and the frame at it does not. */
  lemma {:induction false} FramesBefore(frames: seq<Result<WebSocketMessage>>, meta: MetadataParser, j: nat)
    requires j <= FramesOn(frames, meta) && j < |frames|
    ensures GoesOn(frames[j], meta) <==> j < FramesOn(frames, meta)
  {
    hide GoesOn;
    if j > 0 {
      FramesBefore(frames[1..], meta, j - 1);
    }
  }

  lemma {:induction false} TurnEndSeen(msgs: seq<IncomingMessage>)
    ensures BeforeTurnEnd(msgs).1 <==> TurnEnd in msgs
  {
    if msgs != [] {
      TurnEndSeen(msgs[1..]);
      assert msgs == [msgs[0]] + msgs[1..];
    }
  }

  /**
    * How receiving ends if the flag stays down for `checks` checks: with the first frame that does
    * not go on, but the flag is looked at before each frame.
    */
  ghost function ReceiveError(frames: seq<Result<WebSocketMessage>>, meta: MetadataParser, checks: Option<nat>): Option<ErrorCode> {
    var k := FramesOn(frames, meta);
    if checks.Some? && checks.value <= k then Some(Cancelled)
    else if k == |frames| then Some(NetworkError)
    else if frames[k].Err? then Some(frames[k].code)
    else if Events(meta, frames[k].value).Err? then Some(ProtocolError)
    else None
  }

  lemma {:induction false} DrainError(n: Net, s: Service)
    ensures Drain(n, s).status == ReceiveError(n.frames, s.meta, n.quiet)
    decreases |n.frames|
  {
    hide Events, BeforeTurnEnd;
    var (cancelled, n1) := Poll(n);
    if !cancelled {
      var (recv, n2) := Receive(n1);
      if recv.Ok? {
        var parsed := Events(s.meta, recv.value);
        DeliveredKinds(s.meta, recv.value);
        if parsed.Ok? {
          TurnEndSeen(parsed.value);
          if !BeforeTurnEnd(parsed.value).1 {
            DrainError(n2, s);
          }
        }
      }
    }
  }

  /** The error of one text's turn, from its first check of the flag to the end of receiving. */
  ghost function TurnError(n: Net, s: Service, text: Bytes): Option<ErrorCode> {
    var retries := Min(DrmErrors(n.connects), RetryBound(s));
    var token := FirstError(n.tokens, retries + 1);
    var turn := TurnFrom(n.frames, s.meta);
    var received := ReceiveError(n.frames, s.meta, if n.quiet.Some? && n.quiet.value > 0 then Some(n.quiet.value - 1) else None);
    if n.quiet == Some(0) then Some(Cancelled)
    else if token.Some? then token
    else if At(n.connects, retries).Some? then At(n.connects, retries)
    else if At(n.sends, 0).Some? then At(n.sends, 0)
    else if s.ssml(text).Err? then Some(s.ssml(text).code)
    else if At(n.sends, 1).Some? then At(n.sends, 1)
    else if received.Some? then received
    else if turn.Some? && HasAudio(turn.value.0) then None
    else Some(ServiceError)
  }

  /** A session of one text fails with the first of its errors, in the order of its steps. */
  lemma OneTextError(n: Net, s: Service, text: Bytes)
    ensures Run(n, s, [text]).status == TurnError(n, s, text)
  {
    hide Open, Drain, Events, TurnFrom, HasAudio, FirstError, Clear, ReceiveError, DrmErrors;
    var (cancelled, n1) := Poll(n);
    OpenOutcome(n1, s);
    OpenKeepsFrames(n1, s, 0);
    var open := Open(n1, s, 0);
    var n3 := SendSsml(SendConfig(open.net, open.id).1, open.id, if s.ssml(text).Ok? then s.ssml(text).value else []).1;
    DrainError(n3, s);
    DrainReadsTurn(n3, s);
    NothingAfter(text);
  }

  lemma NothingAfter(text: Bytes)
    ensures [text][1..] == []
  {}

  /** A session fails with the error of the first text that fails, in the world its predecessors leave. */
  lemma {:induction false} FirstErrorDecides(n: Net, s: Service, texts: seq<Bytes>) returns (i: nat)
    requires Run(n, s, texts).status.Some?
    ensures i < |texts| && Run(n, s, texts[..i]).status == None
    ensures Run(n, s, texts).status == TurnError(Run(n, s, texts[..i]).net, s, texts[i])
    decreases |texts|
  {
    hide Open, RunTurn, TurnError;
    i := 0;
    OneTextError(n, s, texts[0]);
    assert texts[..0] == [];
    NothingAfter(texts[0]);
    var first := Run(n, s, [texts[0]]);
    if first.status == None {
      i := FirstErrorDecides(first.net, s, texts[1..]);
      assert texts[..i + 1][1..] == texts[1..][..i] && texts[..i + 1][0] == texts[0];
      i := i + 1;
    }
  }

  // ---- Offsets -----------------------------------------------------------------------------

  /** Turn `i` shifted by the total of the turns before it. */
  function ShiftedTurns(turns: seq<seq<TtsChunk>>): (r: seq<seq<TtsChunk>>)
    ensures |r| == |turns|
    ensures forall i :: 0 <= i < |r| ==> r[i] == Shift(turns[i], Total(turns[..i]))
  {
    seq(|turns|, i requires 0 <= i < |turns| => Shift(turns[i], Total(turns[..i])))
  }

  /** The output is the turns in order, each shifted by the sum of the largest raw ends before it. */
  lemma {:induction false} AssembleClosedForm(turns: seq<seq<TtsChunk>>)
    ensures Assemble(turns) == Flatten(ShiftedTurns(turns))
  {
    hide Shift, Total;
    if turns != [] {
      var init, last := turns[..|turns| - 1], turns[|turns| - 1];
      AssembleClosedForm(init);
      forall i | 0 <= i < |init|
        ensures ShiftedTurns(turns)[i] == ShiftedTurns(init)[i]
      {
        assert turns[..i] == init[..i];
      }
      assert ShiftedTurns(turns) == ShiftedTurns(init) + [Shift(last, Total(init))];
      FlattenSnoc(ShiftedTurns(init), Shift(last, Total(init)));
    }
  }

  /** The latest raw end: no boundary ends after it, and one ends there unless it is zero. */
  lemma {:induction false} LatestEnd(events: seq<TtsChunk>)
    ensures var m := MaxEnd(events);
            && m >= 0
            && (forall k :: 0 <= k < |events| && events[k].Mark? ==> events[k].boundary.offset + events[k].boundary.duration <= m)
            && (m == 0 || exists k :: 0 <= k < |events| && events[k].Mark?
                                      && m == events[k].boundary.offset + events[k].boundary.duration)
  {
    if events != [] {
      var n := |events| - 1;
      var init := events[..n];
      LatestEnd(init);
      assert forall k :: 0 <= k < n ==> init[k] == events[k];
      if MaxEnd(events) != 0 && MaxEnd(events) == MaxEnd(init) {
        var k :| 0 <= k < n && init[k].Mark? && MaxEnd(init) == init[k].boundary.offset + init[k].boundary.duration;
        assert events[k].Mark?;
      }
    }
  }

  /** Each boundary starts later by the sum of the latest ends of the turns before its own; nothing else changes. */
  lemma TurnOffsets(turns: seq<seq<TtsChunk>>, i: nat, j: nat)
    requires i < |turns| && j < |turns[i]|
    ensures Total(turns[..0]) == 0 && Total(turns[..i + 1]) == Total(turns[..i]) + MaxEnd(turns[i])
    ensures ShiftedTurns(turns)[i][j] ==
            match turns[i][j]
            case Audio(data) => Audio(data)
            case Mark(Boundary(kind, text, offset, duration)) => Mark(Boundary(kind, text, offset + Total(turns[..i]), duration))
  {
    assert turns[..i + 1][..i] == turns[..i];
  }

  lemma {:induction false} TotalGrows(turns: seq<seq<TtsChunk>>, i: nat, k: nat)
    requires i < k <= |turns|
    ensures Total(turns[..i]) + MaxEnd(turns[i]) <= Total(turns[..k])
    decreases k
  {
    assert turns[..k][..k - 1] == turns[..k - 1];
    if i < k - 1 {
      TotalGrows(turns, i, k - 1);
    }
  }

  ghost predicate NonNegativeOffsets(turns: seq<seq<TtsChunk>>) {
    forall i, j :: 0 <= i < |turns| && 0 <= j < |turns[i]| && turns[i][j].Mark? ==> turns[i][j].boundary.offset >= 0
  }

  /** Every boundary of an earlier turn ends no later than any boundary of a later one starts. */
  lemma TurnsDoNotOverlap(turns: seq<seq<TtsChunk>>, i: nat, j: nat, k: nat, l: nat)
    requires NonNegativeOffsets(turns) && i < k < |turns| && j < |turns[i]| && l < |turns[k]|
    requires turns[i][j].Mark? && turns[k][l].Mark?
    ensures ShiftedTurns(turns)[i][j].boundary.End() <= ShiftedTurns(turns)[k][l].boundary.offset
  {
    TotalGrows(turns, i, k);
    MaxEndCovers(turns[i], j);
  }

  // ---- Audio payloads do not matter for timing ------------------------------------------------

  function AsMarks(boundaries: seq<Boundary>): (r: seq<TtsChunk>)
    ensures |r| == |boundaries| && forall k :: 0 <= k < |r| ==> r[k] == Mark(boundaries[k])
  {
    seq(|boundaries|, k requires 0 <= k < |boundaries| => Mark(boundaries[k]))
  }

  /** Dropping the audio of a turn changes neither its largest end nor its shifted boundaries. */
  lemma {:induction false} AudioIsTransparent(events: seq<TtsChunk>, delta: int)
    ensures MaxEnd(events) == MaxEnd(AsMarks(MarksOf(events)))
    ensures MarksOf(Shift(events, delta)) == MarksOf(Shift(AsMarks(MarksOf(events)), delta))
  {
    hide MaxEnd, Shift, MarksOf, AsMarks;
    if events == [] {
      NoMarks();
    } else {
      var init, last := events[..|events| - 1], events[|events| - 1];
      assert events == init + [last];
      AudioIsTransparent(init, delta);
      MarksSnoc(init, last);
      EventAppended(init, last, delta);
      MarksSnoc(Shift(init, delta), ShiftOne(last, delta));
      if last.Mark? {
        var marks := AsMarks(MarksOf(init));
        EventAppended(marks, last, delta);
        MarksSnoc(Shift(marks, delta), ShiftOne(last, delta));
      }
    }
  }

  lemma NoMarks()
    ensures AsMarks(MarksOf([])) == []
  {}

  lemma MarksSnoc(events: seq<TtsChunk>, last: TtsChunk)
    ensures last.Audio? ==> MarksOf(events + [last]) == MarksOf(events)
    ensures last.Mark? ==> MarksOf(events + [last]) == MarksOf(events) + [last.boundary]
    ensures last.Mark? ==> AsMarks(MarksOf(events + [last])) == AsMarks(MarksOf(events)) + [last]
  {
    MarksOfAppend(events, [last]);
    assert MarksOf([last]) == (if last.Mark? then [last.boundary] else []) + MarksOf([]);
  }

  ghost predicate SameMarks(a: seq<seq<TtsChunk>>, b: seq<seq<TtsChunk>>) {
    |a| == |b| && forall i :: 0 <= i < |a| ==> MarksOf(a[i]) == MarksOf(b[i])
  }

  /** Sessions whose turns differ only in their audio report the same boundaries. */
  lemma {:induction false} BoundariesIgnoreAudio(a: seq<seq<TtsChunk>>, b: seq<seq<TtsChunk>>)
    requires SameMarks(a, b)
    ensures MarksOf(Assemble(a)) == MarksOf(Assemble(b)) && Total(a) == Total(b)
    decreases |a|
  {
    hide MarksOf, Shift, MaxEnd;
    if a != [] {
      var n := |a| - 1;
      BoundariesIgnoreAudio(a[..n], b[..n]);
      AudioIsTransparent(a[n], Total(a[..n]));
      AudioIsTransparent(b[n], Total(a[..n]));
      MarksOfAppend(Assemble(a[..n]), Shift(a[n], Total(a[..n])));
      MarksOfAppend(Assemble(b[..n]), Shift(b[n], Total(b[..n])));
    }
  }

  // ---- Altering audio payloads alters no boundary ------------------------------------------------

  /** The same frame, or two audio frames with the same header whose bodies differ. */
  ghost predicate AudioAltered(f: Result<WebSocketMessage>, g: Result<WebSocketMessage>) {
    f == g ||
    (f.Ok? && g.Ok? && f.value.Binary? && g.value.Binary? &&
     exists header: Bytes, a: Bytes, b: Bytes ::
       a != [] && b != [] && AudioFrame(f.value.binary, header, a) && AudioFrame(g.value.binary, header, b))
  }

  ghost predicate PayloadsAltered(fs: seq<Result<WebSocketMessage>>, gs: seq<Result<WebSocketMessage>>) {
    |fs| == |gs| && forall k :: 0 <= k < |fs| ==> AudioAltered(fs[k], gs[k])
  }

  lemma AlteredMessage(f: Result<WebSocketMessage>, g: Result<WebSocketMessage>, meta: MetadataParser)
    requires AudioAltered(f, g)
    ensures f.Ok? == g.Ok?
    ensures f.Ok? ==>
              || Events(meta, f.value) == Events(meta, g.value)
              || exists a: Bytes, b: Bytes ::
                   Events(meta, f.value) == Ok([Event(Audio(a))]) && Events(meta, g.value) == Ok([Event(Audio(b))])
  {
    hide BinaryEvents, TextEvents, AudioFrame;
    if f != g {
      var header: Bytes, a: Bytes, b: Bytes :|
        a != [] && b != [] && AudioFrame(f.value.binary, header, a) && AudioFrame(g.value.binary, header, b);
      BinaryAudioIff(f.value.binary, a);
      BinaryAudioIff(g.value.binary, b);
    }
  }

  /** Events with the same marks, and audio in both or in neither. */
  ghost predicate SameButAudio(a: seq<TtsChunk>, b: seq<TtsChunk>) {
    MarksOf(a) == MarksOf(b) && HasAudio(a) == HasAudio(b)
  }

  lemma SameButAudioAppend(a: seq<TtsChunk>, b: seq<TtsChunk>, c: seq<TtsChunk>, d: seq<TtsChunk>)
    requires SameButAudio(a, b) && SameButAudio(c, d)
    ensures SameButAudio(a + c, b + d)
  {
    hide HasAudio;
    MarksOfAppend(a, c);
    MarksOfAppend(b, d);
    EventsAppended(a, c, 0);
    EventsAppended(b, d, 0);
  }

  lemma OneAudio(a: Bytes)
    ensures BeforeTurnEnd([Event(Audio(a))]) == ([Audio(a)], false)
    ensures MarksOf([Audio(a)]) == [] && HasAudio([Audio(a)])
  {
    assert [Event(Audio(a))][1..] == [] && BeforeTurnEnd([]) == ([], false);
    assert [Audio(a)] + [] == [Audio(a)] && [Audio(a)][0].Audio? && [Audio(a)][1..] == [];
  }

  lemma {:induction false} AlteredTurn(fs: seq<Result<WebSocketMessage>>, gs: seq<Result<WebSocketMessage>>, meta: MetadataParser)
    requires PayloadsAltered(fs, gs)
    ensures var f, g := TurnFrom(fs, meta), TurnFrom(gs, meta);
            && f.Some? == g.Some?
            && (f.Some? ==> SameButAudio(f.value.0, g.value.0) && PayloadsAltered(f.value.1, g.value.1))
    decreases |fs|
  {
    hide Events, BeforeTurnEnd, HasAudio, MarksOf, AudioAltered;
    if fs != [] {
      AlteredMessage(fs[0], gs[0], meta);
      if fs[0].Ok? && Events(meta, fs[0].value).Ok? {
        if Events(meta, fs[0].value) != Events(meta, gs[0].value) {
          var a: Bytes, b: Bytes :|
            Events(meta, fs[0].value) == Ok([Event(Audio(a))]) && Events(meta, gs[0].value) == Ok([Event(Audio(b))]);
          OneAudio(a);
          OneAudio(b);
        }
        assert PayloadsAltered(fs[1..], gs[1..]);
        var events, events' := BeforeTurnEnd(Events(meta, fs[0].value).value).0, BeforeTurnEnd(Events(meta, gs[0].value).value).0;
        assert SameButAudio(events, events');
        AlteredTurn(fs[1..], gs[1..], meta);
        var f, g := TurnFrom(fs[1..], meta), TurnFrom(gs[1..], meta);
        if f.Some? {
          SameButAudioAppend(events, events', f.value.0, g.value.0);
        }
      }
    }
  }

  lemma {:induction false} AlteredTurns(fs: seq<Result<WebSocketMessage>>, gs: seq<Result<WebSocketMessage>>, meta: MetadataParser,
                                        n: nat)
    requires PayloadsAltered(fs, gs)
    ensures var f, g := TurnsFrom(fs, meta, n), TurnsFrom(gs, meta, n);
            && f.Some? == g.Some? && FramesUsed(fs, meta, n) == FramesUsed(gs, meta, n)
            && (f.Some? ==> SameMarks(f.value, g.value) && (AllAudible(f.value) <==> AllAudible(g.value)))
    decreases n
  {
    hide TurnFrom, HasAudio, MarksOf, AllAudible, AudioAltered;
    if n == 0 {
    } else {
      AlteredTurn(fs, gs, meta);
      var f, g := TurnFrom(fs, meta), TurnFrom(gs, meta);
      if f.Some? {
        AlteredTurns(f.value.1, g.value.1, meta, n - 1);
        var fr, gr := TurnsFrom(f.value.1, meta, n - 1), TurnsFrom(g.value.1, meta, n - 1);
        if fr.Some? {
          AudibleCons(f.value.0, fr.value);
          AudibleCons(g.value.0, gr.value);
        }
      }
    }
  }

  /**
    * Altering the payloads of received audio frames, to anything but nothing, changes neither whether
    * a session succeeds nor any boundary it reports.
    */
  lemma PayloadsDoNotMatter(n: Net, frames: seq<Result<WebSocketMessage>>, s: Service, texts: seq<Bytes>)
    requires PayloadsAltered(n.frames, frames)
    ensures var a, b := Run(n, s, texts), Run(n.(frames := frames), s, texts);
            && (a.status == None <==> b.status == None)
            && (a.status == None ==> MarksOf(Assemble(a.turns)) == MarksOf(Assemble(b.turns)))
  {
    hide Run, Assemble, MarksOf, AllAudible, PayloadsAltered, TurnsFrom, FramesUsed, SameMarks, Clear;
    var m := n.(frames := frames);
    AlteredTurns(n.frames, frames, s.meta, |texts|);
    SuccessIff(n, s, texts);
    SuccessIff(m, s, texts);
    if Run(n, s, texts).status == None {
      SuccessReadsFrames(n, s, texts);
      SuccessReadsFrames(m, s, texts);
      BoundariesIgnoreAudio(Run(n, s, texts).turns, Run(m, s, texts).turns);
    }
  }

  // ---- The shape of the trace -------------------------------------------------------------------

  /** `count` connects rejected by the token check, with consecutive fresh connection ids. */
  function DrmFailures(from: nat, count: nat): (r: seq<Step>)
    ensures |r| == count && forall k :: 0 <= k < count ==> r[k] == ConnectFailed(from + k, DrmError)
  {
    seq(count, k requires 0 <= k < count => ConnectFailed(from + k, DrmError))
  }

  function Receives(count: nat): (r: seq<Step>)
    ensures |r| == count && forall k :: 0 <= k < count ==> r[k] == Received(true)
  {
    seq(count, k => Received(true))
  }

  /** A completed turn: rejected connects, one connection, the two frames, receives, one close. */
  function TurnTrace(payload: Bytes, from: nat, fails: nat, received: nat): seq<Step> {
    var id := from + fails;
    DrmFailures(from, fails) + [Connected(id), SentConfig(id, true), SentSsml(id, payload, true)]
    + Receives(received) + [Closed]
  }

  /** How a turn that fails stops. */
  datatype Ending =
    | NotConnected                              // cancelled, or no token
    | Refused(code: ErrorCode)                  // a connect that is not retried
    | ConfigRejected
    | SsmlNotBuilt
    | SsmlRejected(payload: Bytes)
    | Broken(payload: Bytes, received: nat, failed: bool) // after some receives; `failed` if one failed too

  function EndingTrace(id: nat, e: Ending): seq<Step> {
    match e
    case NotConnected => []
    case Refused(code) => [ConnectFailed(id, code)]
    case ConfigRejected => [Connected(id), SentConfig(id, false), Closed]
    case SsmlNotBuilt => [Connected(id), SentConfig(id, true), Closed]
    case SsmlRejected(payload) => [Connected(id), SentConfig(id, true), SentSsml(id, payload, false), Closed]
    case Broken(payload, received, failed) =>
      [Connected(id), SentConfig(id, true), SentSsml(id, payload, true)] + Receives(received)
      + (if failed then [Received(false)] else []) + [Closed]
  }

  function FailedTrace(from: nat, fails: nat, e: Ending): seq<Step> {
    DrmFailures(from, fails) + EndingTrace(from + fails, e)
  }

  function RetryBound(s: Service): nat {
    if s.maxRetries < 0 then 0 else s.maxRetries
  }

  /**
    * A session trace is a completed turn per text, in order, each sending its own text's SSML on
    * a connection id never used before; a failing one stops inside a turn, closed if it connected.
    */
  ghost predicate SessionTrace(tr: seq<Step>, s: Service, texts: seq<Bytes>, from: nat, ok: bool)
    decreases |texts|
  {
    if texts == [] then ok && tr == []
    else
      || (exists fails: nat, received: nat :: CompletesFirst(tr, s, texts, from, ok, fails, received))
      || (!ok && exists fails: nat, e: Ending :: FailsFirst(tr, s, from, fails, e))
  }

  ghost predicate CompletesFirst(tr: seq<Step>, s: Service, texts: seq<Bytes>, from: nat, ok: bool, fails: nat, received: nat)
    requires texts != []
    decreases |texts|, 0
  {
    && fails <= RetryBound(s) && received > 0
    && s.ssml(texts[0]).Ok?
    && var turn := TurnTrace(s.ssml(texts[0]).value, from, fails, received);
    && turn <= tr
    && SessionTrace(tr[|turn|..], s, texts[1..], from + fails + 1, ok)
  }

  ghost predicate FailsFirst(tr: seq<Step>, s: Service, from: nat, fails: nat, e: Ending) {
    fails <= RetryBound(s) && (e == Refused(DrmError) ==> fails == RetryBound(s)) && tr == FailedTrace(from, fails, e)
  }

  lemma FailedFirst(tr: seq<Step>, from: nat, count: nat, rest: seq<Step>)
    ensures tr + [ConnectFailed(from, DrmError)] + (DrmFailures(from + 1, count) + rest)
            == tr + (DrmFailures(from, count + 1) + rest)
  {
    hide DrmFailures;
    assert tr + [ConnectFailed(from, DrmError)] + (DrmFailures(from + 1, count) + rest)
        == tr + ([ConnectFailed(from, DrmError)] + (DrmFailures(from + 1, count) + rest));
  }

  /** What the last attempt leaves in the trace. */
  function Opened(r: OpenResult, e: Ending): seq<Step> {
    if r.status == None then [Connected(r.id)] else EndingTrace(r.id, e)
  }

  lemma OpenedIs(r: OpenResult, e: Ending)
    ensures r.status == None ==> Opened(r, e) == [Connected(r.id)]
    ensures r.status.Some? && e.Refused? ==> Opened(r, e) == [ConnectFailed(r.id, e.code)]
    ensures r.status.Some? && e.NotConnected? ==> Opened(r, e) == []
  {}

  lemma {:induction false} OpenTrace(n: Net, s: Service, attempt: nat) returns (fails: nat, e: Ending)
    requires attempt <= RetryBound(s)
    ensures attempt + fails <= RetryBound(s)
    ensures e == NotConnected || e.Refused?
    ensures e == Refused(DrmError) ==> attempt + fails == RetryBound(s)
    ensures e.Refused? ==> Open(n, s, attempt).status == Some(e.code)
    ensures var r := Open(n, s, attempt);
            && r.id == n.nextId + fails && r.net.nextId == r.id + 1
            && r.net.trace == n.trace + (DrmFailures(n.nextId, fails) + Opened(r, e))
    decreases s.maxRetries - attempt
  {
    hide DrmFailures, EndingTrace, Opened;
    var (id, n1) := MakeId(n);
    var (token, n2) := Token(n1);
    var (conn, n3) := Connect(n2, id);
    fails, e := 0, NotConnected;
    OpenedIs(Open(n, s, attempt), if token.None? && conn.Some? then Refused(conn.value) else NotConnected);
    if token.None? {
      if conn.Some? && ShouldRetry(conn.value, attempt, s.maxRetries) {
        var later;
        later, e := OpenTrace(n3, s, attempt + 1);
        fails := later + 1;
        var r := Open(n3, s, attempt + 1);
        FailedFirst(n.trace, id, later, Opened(r, e));
      } else if conn.Some? {
        e := Refused(conn.value);
      }
    }
  }

  lemma {:induction false} DrainTrace(n: Net, s: Service) returns (received: nat, failed: bool)
    ensures var r := Drain(n, s);
            && r.net.trace == n.trace + (Receives(received) + if failed then [Received(false)] else [])
            && (r.status == None ==> !failed && received > 0)
            && r.net.nextId == n.nextId
    decreases |n.frames|
  {
    hide Events, BeforeTurnEnd;
    received, failed := 0, false;
    var (cancelled, n1) := Poll(n);
    assert Receives(0) + [] == [] && n.trace + [] == n.trace;
    if !cancelled {
      var (recv, n2) := Receive(n1);
      if recv.Err? {
        failed := true;
        assert n.trace + (Receives(0) + [Received(false)]) == n.trace + [Received(false)];
      } else {
        received := 1;
        assert Receives(1) + [] == [Received(true)];
        var parsed := Events(s.meta, recv.value);
        if parsed.Ok? && !BeforeTurnEnd(parsed.value).1 {
          var more;
          more, failed := DrainTrace(n2, s);
          received := more + 1;
          var tail := if failed then [Received(false)] else [];
          assert Receives(received) == [Received(true)] + Receives(more);
          assert n2.trace + (Receives(more) + tail) == n.trace + (Receives(received) + tail);
        }
      }
    }
  }

  /** What a turn adds to the trace of a connection that has just been made, close included. */
  lemma RunTurnTrace(n: Net, s: Service, text: Bytes, id: nat) returns (e: Ending)
    ensures var r := RunTurn(n, s, text, id);
            && (r.status == None ==>
                  s.ssml(text).Ok? && e.Broken? && !e.failed && e.received > 0 && e.payload == s.ssml(text).value)
            && !e.NotConnected? && !e.Refused?
            && [Connected(id)] <= EndingTrace(id, e)
            && Close(r.net).trace == n.trace + EndingTrace(id, e)[1..]
            && r.net.nextId == n.nextId
  {
    hide Drain, HasAudio;
    var (send1, n1) := SendConfig(n, id);
    if send1.Some? {
      e := ConfigRejected;
    } else if s.ssml(text).Err? {
      e := SsmlNotBuilt;
    } else {
      var payload := s.ssml(text).value;
      var (send2, n2) := SendSsml(n1, id, payload);
      if send2.Some? {
        e := SsmlRejected(payload);
      } else {
        var received, failed := DrainTrace(n2, s);
        e := Broken(payload, received, failed);
        var tail := if failed then [Received(false)] else [];
        assert EndingTrace(id, e)[1..] ==
               [SentConfig(id, true), SentSsml(id, payload, true)] + (Receives(received) + tail) + [Closed];
        assert n2.trace == n.trace + [SentConfig(id, true), SentSsml(id, payload, true)];
      }
    }
  }

  lemma {:induction false} RunTrace(n: Net, s: Service, texts: seq<Bytes>) returns (added: seq<Step>)
    ensures var r := Run(n, s, texts);
            r.net.trace == n.trace + added && SessionTrace(added, s, texts, n.nextId, r.status == None)
    decreases |texts|
  {
    hide Open, RunTurn, EndingTrace, DrmFailures, SessionTrace;
    var r := Run(n, s, texts);
    added := [];
    assert n.trace + [] == n.trace;
    if texts == [] {
      NoTurns(s, n.nextId);
      return;
    }
    var (cancelled, n1) := Poll(n);
    if cancelled {
      StoppedEarly(s, texts, n.nextId);
      return;
    }
    var fails, e := OpenTrace(n1, s, 0);
    var open := Open(n1, s, 0);
    if open.status.Some? {
      added := FailedTrace(n.nextId, fails, e);
      FailedIsTrace(added, s, texts, n.nextId, fails, e);
      return;
    }
    e := RunTurnTrace(open.net, s, texts[0], open.id);
    var turn := RunTurn(open.net, s, texts[0], open.id);
    var first := FailedTrace(n.nextId, fails, e);
    assert EndingTrace(open.id, e) == [Connected(open.id)] + EndingTrace(open.id, e)[1..];
    assert Close(turn.net).trace == n.trace + first;
    if turn.status.Some? {
      added := first;
      FailedIsTrace(added, s, texts, n.nextId, fails, e);
      return;
    }
    BrokenIsTurn(n.nextId, fails, e);
    var rest := RunTrace(Close(turn.net), s, texts[1..]);
    added := first + rest;
    assert n.trace + first + rest == n.trace + (first + rest);
    CompletedIsTrace(first, rest, s, texts, n.nextId, r.status == None, fails, e.received);
  }

  lemma NoTurns(s: Service, from: nat)
    ensures SessionTrace([], s, [], from, true)
  {}

  lemma StoppedEarly(s: Service, texts: seq<Bytes>, from: nat)
    requires texts != []
    ensures SessionTrace([], s, texts, from, false)
  {
    assert FailsFirst([], s, from, 0, NotConnected);
  }

  lemma FailedIsTrace(tr: seq<Step>, s: Service, texts: seq<Bytes>, from: nat, fails: nat, e: Ending)
    requires texts != [] && FailsFirst(tr, s, from, fails, e)
    ensures SessionTrace(tr, s, texts, from, false)
  {}

  lemma BrokenIsTurn(from: nat, fails: nat, e: Ending)
    requires e.Broken? && !e.failed
    ensures FailedTrace(from, fails, e) == TurnTrace(e.payload, from, fails, e.received)
  {
    var id := from + fails;
    assert EndingTrace(id, e) ==
           [Connected(id), SentConfig(id, true), SentSsml(id, e.payload, true)] + Receives(e.received) + [Closed];
  }

  lemma CompletedIsTrace(turn: seq<Step>, rest: seq<Step>, s: Service, texts: seq<Bytes>, from: nat, ok: bool,
                         fails: nat, received: nat)
    requires texts != [] && fails <= RetryBound(s) && received > 0 && s.ssml(texts[0]).Ok?
    requires turn == TurnTrace(s.ssml(texts[0]).value, from, fails, received)
    requires SessionTrace(rest, s, texts[1..], from + fails + 1, ok)
    ensures SessionTrace(turn + rest, s, texts, from, ok)
  {
    assert (turn + rest)[|turn|..] == rest;
    assert CompletesFirst(turn + rest, s, texts, from, ok, fails, received);
  }

  // ---- The socket is never left open --------------------------------------------------------------

  /** Whether the socket may take the step when it is open or not, and whether it is open after it. */
  function Socket(open: bool, step: Step): Option<bool> {
    match step
    case ConnectFailed(_, _) => if open then None else Some(false)
    case Connected(_) => if open then None else Some(true)
    case SentConfig(_, _) => if open then Some(true) else None
    case SentSsml(_, _, _) => if open then Some(true) else None
    case Received(_) => if open then Some(true) else None
    case Closed => if open then Some(false) else None
  }

  /** The state of the socket after the trace; `None` if a step was taken that it did not allow. */
  function SocketAfter(open: bool, tr: seq<Step>): Option<bool>
    decreases |tr|
  {
    if tr == [] then Some(open)
    else
      match Socket(open, tr[0])
      case None => None
      case Some(next) => SocketAfter(next, tr[1..])
  }

  lemma {:induction false} SocketAppend(open: bool, a: seq<Step>, b: seq<Step>)
    ensures SocketAfter(open, a + b) ==
            match SocketAfter(open, a) { case None => None case Some(mid) => SocketAfter(mid, b) }
    decreases |a|
  {
    if a == [] {
      assert a + b == b;
    } else {
      assert (a + b)[1..] == a[1..] + b;
      if Socket(open, a[0]).Some? {
        SocketAppend(Socket(open, a[0]).value, a[1..], b);
      }
    }
  }

  lemma {:induction false} FailuresStayClosed(from: nat, count: nat)
    ensures SocketAfter(false, DrmFailures(from, count)) == Some(false)
    decreases count
  {
    if count > 0 {
      assert DrmFailures(from, count)[1..] == DrmFailures(from + 1, count - 1);
      FailuresStayClosed(from + 1, count - 1);
    }
  }

  lemma {:induction false} ReceivesStayOpen(count: nat)
    ensures SocketAfter(true, Receives(count)) == Some(true)
  {
    if count > 0 {
      assert Receives(count)[1..] == Receives(count - 1);
      ReceivesStayOpen(count - 1);
    }
  }

  lemma SocketCons(open: bool, step: Step, rest: seq<Step>)
    requires Socket(open, step).Some?
    ensures SocketAfter(open, [step] + rest) == SocketAfter(Socket(open, step).value, rest)
  {
    assert ([step] + rest)[1..] == rest;
  }

  lemma EndingCloses(id: nat, e: Ending)
    ensures SocketAfter(false, EndingTrace(id, e)) == Some(false)
  {
    hide SocketAfter;
    var tr := EndingTrace(id, e);
    SocketIdle();
    SocketCons(true, Closed, []);
    assert [Closed] + [] == [Closed];
    if e.Refused? {
      SocketCons(false, tr[0], []);
      assert tr == [tr[0]] + [];
    } else if !e.NotConnected? {
      SocketCons(false, tr[0], tr[1..]);
      SocketCons(true, tr[1], tr[2..]);
      assert tr == [tr[0]] + tr[1..] && tr[1..] == [tr[1]] + tr[2..];
      if e.SsmlRejected? {
        SocketCons(true, tr[2], [Closed]);
        assert tr[2..] == [tr[2]] + [Closed];
      } else if e.Broken? {
        var tail := if e.failed then [Received(false)] + [Closed] else [Closed];
        SocketCons(true, tr[2], Receives(e.received) + tail);
        assert tr[2..] == [tr[2]] + (Receives(e.received) + tail);
        ReceivesStayOpen(e.received);
        SocketAppend(true, Receives(e.received), tail);
        SocketCons(true, Received(false), [Closed]);
      } else {
        assert tr[2..] == [Closed];
      }
    }
  }

  lemma FailedTraceCloses(from: nat, fails: nat, e: Ending)
    ensures SocketAfter(false, FailedTrace(from, fails, e)) == Some(false)
  {
    FailuresStayClosed(from, fails);
    EndingCloses(from + fails, e);
    SocketAppend(false, DrmFailures(from, fails), EndingTrace(from + fails, e));
  }

  /** No session, however it ends, leaves the socket open or talks on a closed one. */
  lemma {:induction false} SessionClosesSocket(tr: seq<Step>, s: Service, texts: seq<Bytes>, from: nat, ok: bool)
    requires SessionTrace(tr, s, texts, from, ok)
    ensures SocketAfter(false, tr) == Some(false)
    decreases |texts|
  {
    hide SocketAfter, FailedTrace, TurnTrace;
    if tr == [] {
      SocketIdle();
    } else if exists fails: nat, received: nat :: CompletesFirst(tr, s, texts, from, ok, fails, received) {
      var fails: nat, received: nat :| CompletesFirst(tr, s, texts, from, ok, fails, received);
      var payload := s.ssml(texts[0]).value;
      var turn := TurnTrace(payload, from, fails, received);
      BrokenIsTurn(from, fails, Broken(payload, received, false));
      FailedTraceCloses(from, fails, Broken(payload, received, false));
      SessionClosesSocket(tr[|turn|..], s, texts[1..], from + fails + 1, ok);
      SocketAppend(false, turn, tr[|turn|..]);
      assert tr == turn + tr[|turn|..];
    } else {
      var fails: nat, e: Ending :| FailsFirst(tr, s, from, fails, e);
      FailedTraceCloses(from, fails, e);
    }
  }

  lemma SocketIdle()
    ensures SocketAfter(false, []) == Some(false)
  {}

  /** Every run, started on any world: its trace is a session trace, and the socket ends closed. */
  lemma RunKeepsDiscipline(n: Net, s: Service, texts: seq<Bytes>)
    ensures var r := Run(n, s, texts);
            && n.trace <= r.net.trace
            && SessionTrace(r.net.trace[|n.trace|..], s, texts, n.nextId, r.status == None)
            && SocketAfter(false, r.net.trace[|n.trace|..]) == Some(false)
  {
    hide SessionTrace, SocketAfter, Run;
    var added := RunTrace(n, s, texts);
    var r := Run(n, s, texts);
    assert r.net.trace[|n.trace|..] == added;
    SessionClosesSocket(added, s, texts, n.nextId, r.status == None);
  }
}
