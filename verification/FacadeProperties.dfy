/** What holds over whole runs of the facade: single use, event traces, cancellation, saved files. */
module FacadeProperties {
  import opened Bytes
  import opened Chunks
  import opened SpeechSynthesizer
  import opened SubtitleBuilder
  import opened SrtComposer
  import opened SrtProperties
  import opened SessionSubtitles
  import Session
  import SessionProperties
  import Utf8
  import TextChunker
  import ChunkerLoss
  import ChunkerCuts
  import Xml = XmlEscaper
  import ChunkerProperties
  import Normalizer = TextNormalizer

  // ---- Any sequence of calls on one object -------------------------------------------------

  datatype Call =
    | CallCancel
    | CallSynthesize
    | CallStream(isSet: CallbackSet)
    | CallSave(subtitles: bool, outcomes: seq<Option<ErrorCode>>)

  /** What a call returns (its error and its chunks), the callbacks it fires and what it hands to the writer. */
  datatype Reply = Reply(code: Option<ErrorCode>, chunks: seq<TtsChunk>, log: seq<Stamped>, handed: seq<Bytes>)

  const REFUSED := Reply(Some(InvalidState), [], [], [])

  /** One call, as the contracts of the class state it. */
  function Step(s: Setup, st: State, c: Call): (State, Reply) {
    if c.CallCancel? then (st.(token := st.token.Raise()), Reply(None, [], [], []))
    else if st.called then (st, REFUSED)
    else
      match c
      case CallSynthesize =>
        var r := PipelineResult(s, st.token);
        (AfterPipeline(s, st), if r.Err? then Reply(Some(r.code), [], [], []) else Reply(None, r.value, [], []))
      case CallStream(isSet) =>
        var (d, after) := Stream(s, st, isSet);
        (after, Reply(d.code, [], d.log, []))
      case CallSave(subtitles, outcomes) =>
        var saved := SaveResult(s, st.token, subtitles, outcomes);
        (AfterPipeline(s, st), Reply(saved.code, [], [], saved.handed))
  }

  /** Performing the call on an object, with fresh callbacks or a fresh writer, is `Step`. */
  method Perform(synthesizer: SpeechSynthesizer, c: Call) returns (reply: Reply)
    modifies synthesizer
    ensures (synthesizer.Now(), reply) == Step(synthesizer.setup, old(synthesizer.Now()), c)
  {
    hide PipelineResult, AfterPipeline, Stream, SaveResult;
    assert forall log: seq<Stamped> :: [] + log == log;
    assert forall files: seq<Bytes> :: [] + files == files;
    match c {
      case CallCancel =>
        synthesizer.Cancel();
        reply := Reply(None, [], [], []);
      case CallSynthesize =>
        var r := synthesizer.Synthesize();
        reply := if r.Err? then Reply(Some(r.code), [], [], []) else Reply(None, r.value, [], []);
      case CallStream(isSet) =>
        var callbacks := new StreamCallbacks(isSet);
        var r := synthesizer.SynthesizeStream(callbacks);
        reply := Reply(if r.Err? then Some(r.code) else None, [], callbacks.log, []);
      case CallSave(subtitles, outcomes) =>
        var writer := new FileWriter(outcomes);
        var r := synthesizer.Save(subtitles, writer);
        reply := Reply(if r.Err? then Some(r.code) else None, [], [], writer.handed);
    }
  }

  datatype Ran = Ran(state: State, replies: seq<Reply>)

  function RunCalls(s: Setup, st: State, calls: seq<Call>): (r: Ran)
    ensures |r.replies| == |calls|
    decreases |calls|
  {
    if calls == [] then Ran(st, [])
    else
      var (next, reply) := Step(s, st, calls[0]);
      var rest := RunCalls(s, next, calls[1..]);
      Ran(rest.state, [reply] + rest.replies)
  }

  /** Once used, an object only refuses: it never reaches the backend, fires a callback or writes. */
  lemma {:induction false} UsedObjectRefuses(s: Setup, st: State, calls: seq<Call>)
    requires st.called
    ensures RunCalls(s, st, calls).state.called && RunCalls(s, st, calls).state.requests == st.requests
    ensures forall j :: 0 <= j < |calls| && !calls[j].CallCancel? ==> RunCalls(s, st, calls).replies[j] == REFUSED
    decreases |calls|
  {
    if calls != [] {
      UsedObjectRefuses(s, Step(s, st, calls[0]).0, calls[1..]);
    }
  }

  lemma {:induction false} CancelledObjectNeverRuns(s: Setup, st: State, calls: seq<Call>)
    requires !st.called && st.token.Up()
    ensures RunCalls(s, st, calls).state.requests == st.requests
    decreases |calls|
  {
    if calls != [] {
      var next := Step(s, st, calls[0]).0;
      if calls[0].CallCancel? {
        CancelledObjectNeverRuns(s, next, calls[1..]);
      } else {
        UsedObjectRefuses(s, next, calls[1..]);
      }
    }
  }

  /**
    * Over any sequence of calls the backend runs at most once, on the chunks of the whole text. It
    * does run exactly when the first call of all is a use and nothing stops its pipeline.
    */
  lemma BackendRunsAtMostOnce(s: Setup, raised: Option<nat>, calls: seq<Call>)
    ensures RunCalls(s, Initial(raised), calls).state.requests ==
            if calls != [] && !calls[0].CallCancel? && ReachesBackend(s, Token(raised, 0)) then [TextChunks(s)] else []
  {
    hide ReachesBackend, PipelineResult, SaveResult, TextChunks;
    if calls != [] {
      var next := Step(s, Initial(raised), calls[0]).0;
      if calls[0].CallCancel? {
        CancelledObjectNeverRuns(s, next, calls[1..]);
      } else {
        UsedObjectRefuses(s, next, calls[1..]);
      }
    }
  }

  // ---- What stops a pipeline ---------------------------------------------------------------------

  /** The text has a byte that is neither a control character nor a space. */
  ghost predicate HasWord(text: Bytes) {
    exists k :: 0 <= k < |text| && text[k] > 32
  }

  /** A valid text leaves nothing to synthesize exactly when it has no such byte. */
  lemma SpeaksIff(s: Setup)
    requires Utf8.Valid(s.text)
    ensures TextChunks(s) != [] <==> HasWord(s.text)
  {
    hide Utf8.Valid, ChunkerProperties.DeleteStrip, TextChunker.IsStrip, HasWord;
    var norm := Normalizer.Clean(s.text);
    WordIsNotStripped(s.text);
    if TextChunks(s) == [] {
      BackendGetsWholeText(s);
      assert ChunkerProperties.UnescapeEach([]) == [];
      NothingLeftOver();
      KeptByte(norm);
    } else if TextChunker.AllStrip(norm) {
      EscapeBlank(norm);
      BlankSplits(norm, 4096, true, true, true);
    }
  }

  lemma NothingLeftOver()
    ensures ChunkerProperties.DeleteStrip(Flatten([])) == []
  {}

  lemma WordIsNotStripped(text: Bytes)
    ensures HasWord(text) <==> !TextChunker.AllStrip(Normalizer.Clean(text))
  {
    var norm := Normalizer.Clean(text);
    assert forall k :: 0 <= k < |text| ==> (text[k] > 32 <==> !TextChunker.IsStrip(norm[k]));
  }

  lemma {:induction false} KeptByte(t: Bytes)
    requires ChunkerProperties.DeleteStrip(t) == []
    ensures TextChunker.AllStrip(t)
  {
    if t != [] {
      KeptByte(t[1..]);
      assert forall k :: 0 < k < |t| ==> t[k] == t[1..][k - 1];
    }
  }

  lemma {:induction false} EscapeBlank(t: Bytes)
    requires TextChunker.AllStrip(t)
    ensures Xml.Escape(t) == t
  {
    if t != [] {
      EscapeBlank(t[1..]);
    }
  }

  lemma {:induction false} BlankSplits(t: Bytes, limit: nat, newline: bool, space: bool, protect: bool)
    requires TextChunker.AllStrip(t) && limit > 0
    ensures TextChunker.Split(t, limit, newline, space, protect) == []
    decreases |t|
  {
    hide TextChunker.Cut, TextChunker.Strip, TextChunker.IsStrip;
    if |t| <= limit {
      BlankStrips(t);
    } else {
      var k := TextChunker.Cut(t, limit, newline, space, protect);
      BlankStrips(t[..k]);
      BlankSplits(t[TextChunker.Advance(k)..], limit, newline, space, protect);
    }
  }

  lemma BlankStrips(t: Bytes)
    requires TextChunker.AllStrip(t)
    ensures TextChunker.Strip(t) == []
  {
    TextChunker.StripIs(t, [], []);
    assert t + [] + [] == t;
  }

  /** Nothing stops a first use: the flag is down, no proxy is set, and configuration and text are good. */
  ghost predicate Unhindered(s: Setup, raised: Option<nat>) {
    raised != Some(0) && !s.proxy && s.configError == None && Utf8.Valid(s.text) && HasWord(s.text)
  }

  /** Over any sequence of calls the backend is reached exactly if the first call is a use that nothing stops. */
  lemma BackendRunsIff(s: Setup, raised: Option<nat>, calls: seq<Call>)
    ensures var requests := RunCalls(s, Initial(raised), calls).state.requests;
            && (requests != [] <==> calls != [] && !calls[0].CallCancel? && Unhindered(s, raised))
            && (requests != [] ==> requests == [TextChunks(s)])
  {
    hide TextChunks, Utf8.Valid, HasWord;
    BackendRunsAtMostOnce(s, raised, calls);
    if Utf8.Valid(s.text) {
      SpeaksIff(s);
    }
  }

  /** The call returns the error, and its only effect is the error callback of a stream that has one. */
  predicate Fails(reply: Reply, c: Call, code: ErrorCode) {
    && reply.code == Some(code) && reply.chunks == [] && reply.handed == []
    && EventsOf(reply.log) == if c.CallStream? && c.isSet.error then [OnError(code)] else []
  }

  /** The call answers with the chunks: it returns them, streams them up to a raised flag or saves them. */
  ghost predicate Answers(reply: Reply, c: Call, chunks: seq<TtsChunk>) {
    match c
    case CallCancel => false
    case CallSynthesize => reply == Reply(None, chunks, [], [])
    case CallStream(isSet) =>
      && reply.chunks == [] && reply.handed == []
      && (reply.code == None || reply.code == Some(Cancelled))
      && exists n :: StreamsPrefix(reply, isSet, chunks, n)
    case CallSave(subtitles, outcomes) =>
      && reply.chunks == [] && reply.log == []
      && IsSaved(chunks, subtitles, outcomes, Saved(reply.code, reply.handed))
  }

  ghost predicate StreamsPrefix(reply: Reply, isSet: CallbackSet, chunks: seq<TtsChunk>, n: nat) {
    && n <= |chunks| && (reply.code == None ==> n == |chunks|)
    && EventsOf(reply.log) == Heard(isSet, ChunkEvents(chunks[..n]) + [Terminal(reply.code)])
  }

  predicate AllCancel(calls: seq<Call>) {
    forall k :: 0 <= k < |calls| ==> calls[k].CallCancel?
  }

  /**
    * The first use on an object, whatever its kind, after any number of cancellations: the first
    * obstacle there is decides the error; a text without words gives no chunks, and the backend
    * decides the rest.
    */
  lemma FirstUseReply(s: Setup, raised: Option<nat>, calls: seq<Call>, i: nat)
    requires i < |calls| && AllCancel(calls[..i]) && !calls[i].CallCancel?
    ensures var reply, c := RunCalls(s, Initial(raised), calls).replies[i], calls[i];
            if i > 0 || raised == Some(0) then Fails(reply, c, Cancelled)
            else if s.proxy then Fails(reply, c, Unsupported)
            else if s.configError.Some? then Fails(reply, c, s.configError.value)
            else if !Utf8.Valid(s.text) then Fails(reply, c, InvalidArgument)
            else if !HasWord(s.text) then Answers(reply, c, [])
            else
              match s.backend(TextChunks(s))
              case Err(code) => Fails(reply, c, code)
              case Ok(chunks) => Answers(reply, c, chunks)
  {
    hide TextChunks, Utf8.Valid, HasWord, Fails, Answers, Step;
    var st := AfterCancels(s, Initial(raised), calls, i);
    UseReply(s, st, calls[i]);
    if Utf8.Valid(s.text) {
      SpeaksIff(s);
    }
  }

  /** The state in which the first use finds an object that has only been cancelled. */
  lemma {:induction false} AfterCancels(s: Setup, st: State, calls: seq<Call>, i: nat) returns (after: State)
    requires !st.called && i < |calls| && AllCancel(calls[..i])
    ensures !after.called && (after.token.Up() <==> i > 0 || st.token.Up())
    ensures RunCalls(s, st, calls).replies[i] == Step(s, after, calls[i]).1
    decreases i
  {
    after := st;
    if i > 0 {
      assert calls[..i][0] == calls[0] && calls[1..][..i - 1] == calls[..i][1..];
      after := AfterCancels(s, Step(s, st, calls[0]).0, calls[1..], i - 1);
    }
  }

  lemma UseReply(s: Setup, st: State, c: Call)
    requires !st.called && !c.CallCancel?
    ensures var reply := Step(s, st, c).1;
            match PipelineResult(s, st.token)
            case Err(code) => Fails(reply, c, code)
            case Ok(chunks) => Answers(reply, c, chunks)
  {
    hide PipelineResult, AfterPipeline, Deliver, SaveChunks, IsSaved, Heard;
    match PipelineResult(s, st.token)
    case Err(code) =>
    case Ok(chunks) =>
      if c.CallStream? {
        var t := AfterPipeline(s, st).token;
        StreamTrace(c.isSet, chunks, t);
        assert StreamsPrefix(Step(s, st, c).1, c.isSet, chunks, Delivered(c.isSet, chunks, t));
      } else if c.CallSave? {
        SavedFiles(chunks, c.subtitles, c.outcomes);
      }
  }

  /** Whatever is called first, every later use of the object is refused. */
  lemma {:induction false} LaterUsesAreRefused(s: Setup, st: State, calls: seq<Call>, i: nat, j: nat)
    requires i < j < |calls| && !calls[i].CallCancel? && !calls[j].CallCancel?
    ensures RunCalls(s, st, calls).replies[j] == REFUSED
    decreases |calls|
  {
    hide ReachesBackend, PipelineResult, SaveResult, TextChunks, Deliver;
    var next := Step(s, st, calls[0]).0;
    if i == 0 {
      UsedObjectRefuses(s, next, calls[1..]);
    } else {
      LaterUsesAreRefused(s, next, calls[1..], i - 1, j - 1);
    }
  }

  // ---- The callbacks of a stream ---------------------------------------------------------------

  function ChunkEvents(chunks: seq<TtsChunk>): (r: seq<Event>)
    ensures |r| == |chunks| && forall k :: 0 <= k < |r| ==> r[k] == EventOf(chunks[k])
  {
    seq(|chunks|, k requires 0 <= k < |chunks| => EventOf(chunks[k]))
  }

  /** The events of a log, in order. */
  function EventsOf(log: seq<Stamped>): (r: seq<Event>)
    ensures |r| == |log| && forall k :: 0 <= k < |r| ==> r[k] == log[k].event
  {
    seq(|log|, k requires 0 <= k < |log| => log[k].event)
  }

  /** The events whose callback is set. */
  function Heard(isSet: CallbackSet, events: seq<Event>): seq<Event> {
    if events == [] then []
    else (if isSet.Hears(events[0]) then [events[0]] else []) + Heard(isSet, events[1..])
  }

  function Terminal(code: Option<ErrorCode>): Event {
    if code.Some? then OnError(code.value) else OnComplete
  }

  /** How many chunks are dispatched. */
  function Delivered(isSet: CallbackSet, chunks: seq<TtsChunk>, t: Token): (n: nat)
    ensures n <= |chunks|
    decreases |chunks|
  {
    if t.Up() || chunks == [] then 0
    else 1 + Delivered(isSet, chunks[1..], AfterFire(isSet, EventOf(chunks[0]), t.Tick()))
  }

  /**
    * The callbacks are those set among: the chunks dispatched, a prefix in order, then one terminal
    * event that says what is returned. Only cancellation stops early; completion means every chunk.
    */
  lemma {:induction false} StreamTrace(isSet: CallbackSet, chunks: seq<TtsChunk>, t: Token)
    ensures var d := Deliver(isSet, chunks, t);
            var n := Delivered(isSet, chunks, t);
            && EventsOf(d.log) == Heard(isSet, ChunkEvents(chunks[..n]) + [Terminal(d.code)])
            && (if d.code == None then n == |chunks| else d.code == Some(Cancelled))
    decreases |chunks|
  {
    hide Deliver, Fired, AfterFire, Heard;
    var d := Deliver(isSet, chunks, t);
    DeliverStep(isSet, chunks, t);
    if t.Up() || chunks == [] {
      assert ChunkEvents(chunks[..0]) + [Terminal(d.code)] == [Terminal(d.code)];
      FiredHeard(isSet, Terminal(d.code), t.Tick());
    } else {
      var e, t1 := EventOf(chunks[0]), t.Tick();
      var t2 := AfterFire(isSet, e, t1);
      var n := Delivered(isSet, chunks[1..], t2);
      StreamTrace(isSet, chunks[1..], t2);
      var rest := ChunkEvents(chunks[1..][..n]) + [Terminal(d.code)];
      assert ChunkEvents(chunks[..n + 1]) + [Terminal(d.code)] == [e] + rest;
      HeardCons(isSet, e, rest);
      FiredHeard(isSet, e, t1);
      assert EventsOf(d.log) == EventsOf(Fired(isSet, e, t1)) + EventsOf(Deliver(isSet, chunks[1..], t2).log);
    }
  }

  lemma FiredHeard(isSet: CallbackSet, e: Event, t: Token)
    ensures EventsOf(Fired(isSet, e, t)) == Heard(isSet, [e])
  {
  }

  lemma HeardCons(isSet: CallbackSet, e: Event, rest: seq<Event>)
    ensures Heard(isSet, [e] + rest) == (if isSet.Hears(e) then [e] else []) + Heard(isSet, rest)
    ensures Heard(isSet, [e] + rest) == Heard(isSet, [e]) + Heard(isSet, rest)
  {
    assert ([e] + rest)[1..] == rest;
  }

  lemma {:induction false} AllHeard(events: seq<Event>)
    ensures Heard(ALL_CALLBACKS, events) == events
  {
    if events != [] {
      AllHeard(events[1..]);
      assert events == [events[0]] + events[1..];
    }
  }

  /**
    * The trace of a first `synthesize_stream` with every callback set: a prefix of the chunks in
    * order, and exactly one terminal event, at the end, that agrees with the returned result.
    */
  lemma FirstStreamTrace(s: Setup, st: State)
    requires !st.called
    ensures var d := Stream(s, st, ALL_CALLBACKS).0;
            match PipelineResult(s, st.token)
            case Err(code) => d.code == Some(code) && EventsOf(d.log) == [OnError(code)]
            case Ok(chunks) =>
              var n := Delivered(ALL_CALLBACKS, chunks, AfterPipeline(s, st).token);
              && EventsOf(d.log) == ChunkEvents(chunks[..n]) + [Terminal(d.code)]
              && (if d.code == None then n == |chunks| else d.code == Some(Cancelled))
  {
    hide PipelineResult, AfterPipeline, Deliver;
    match PipelineResult(s, st.token)
    case Err(_) =>
    case Ok(chunks) =>
      var t := AfterPipeline(s, st).token;
      StreamTrace(ALL_CALLBACKS, chunks, t);
      var n := Delivered(ALL_CALLBACKS, chunks, t);
      AllHeard(ChunkEvents(chunks[..n]) + [Terminal(Deliver(ALL_CALLBACKS, chunks, t).code)]);
  }

  predicate IsTerminal(e: Event) {
    e.OnComplete? || e.OnError?
  }

  /** One terminal event, and it comes last. */
  predicate EndsOnce(events: seq<Event>) {
    && events != [] && IsTerminal(events[|events| - 1])
    && forall k :: 0 <= k < |events| - 1 ==> !IsTerminal(events[k])
  }

  /**
    * The header promises that one of `on_complete` and `on_error` fires last. With every callback
    * set this holds exactly for an object not used before: the refused call fires nothing.
    */
  lemma EndsOnceIffUnused(s: Setup, st: State)
    ensures EndsOnce(EventsOf(Step(s, st, CallStream(ALL_CALLBACKS)).1.log)) <==> !st.called
  {
    hide PipelineResult, AfterPipeline, Deliver;
    if !st.called {
      FirstStreamTrace(s, st);
    }
  }

  // ---- Cancellation -----------------------------------------------------------------------------

  predicate RaisedBy(t: Token, tick: nat) {
    t.raised.Some? && t.raised.value <= tick
  }

  /** The tick of the check that follows the dispatch of `chunks`. */
  function CheckTick(isSet: CallbackSet, chunks: seq<TtsChunk>, t: Token): nat {
    t.now + |chunks| + |Heard(isSet, ChunkEvents(chunks))|
  }

  lemma CheckTickCons(isSet: CallbackSet, c: TtsChunk, rest: seq<TtsChunk>, t: Token)
    ensures CheckTick(isSet, [c] + rest, t) == CheckTick(isSet, rest, AfterFire(isSet, EventOf(c), t.Tick()))
  {
    assert ChunkEvents([c] + rest) == [EventOf(c)] + ChunkEvents(rest);
    HeardCons(isSet, EventOf(c), ChunkEvents(rest));
  }

  /**
    * Dispatch stops at the first check that finds the flag up: the checks before the dispatched
    * chunks found it down, and unless the stream completes the next one finds it up.
    */
  lemma {:induction false} StopsAtFirstRaisedCheck(isSet: CallbackSet, chunks: seq<TtsChunk>, t: Token)
    ensures var n := Delivered(isSet, chunks, t);
            && (forall k :: 0 <= k < n ==> !RaisedBy(t, CheckTick(isSet, chunks[..k], t)))
            && (Deliver(isSet, chunks, t).code == None <==> !RaisedBy(t, CheckTick(isSet, chunks[..n], t)))
    decreases |chunks|
  {
    hide Heard;
    HeardNothing(isSet, t);
    assert chunks[..0] == [];
    if !t.Up() && chunks != [] {
      var c, rest := chunks[0], chunks[1..];
      var t2 := AfterFire(isSet, EventOf(c), t.Tick());
      StopsAtFirstRaisedCheck(isSet, rest, t2);
      var n := Delivered(isSet, chunks, t);
      forall k | 0 < k <= n
        ensures CheckTick(isSet, chunks[..k], t) == CheckTick(isSet, rest[..k - 1], t2)
      {
        assert chunks[..k] == [c] + rest[..k - 1];
        CheckTickCons(isSet, c, rest[..k - 1], t);
      }
    }
  }

  lemma HeardNothing(isSet: CallbackSet, t: Token)
    ensures CheckTick(isSet, [], t) == t.now
  {}

  /** After a callback that cancels, nothing fires but the error, and the stream returns it. */
  lemma {:induction false} CancelInsideCallback(isSet: CallbackSet, chunks: seq<TtsChunk>, t: Token, i: nat)
    requires var log := Deliver(isSet, chunks, t).log;
             i < |log| && !IsTerminal(log[i].event) && t.raised == Some(log[i].tick + 1)
    ensures var d := Deliver(isSet, chunks, t);
            && d.code == Some(Cancelled)
            && EventsOf(d.log[i + 1..]) == (if isSet.error then [OnError(Cancelled)] else [])
    decreases |chunks|
  {
    if !t.Up() && chunks != [] {
      var e, t1 := EventOf(chunks[0]), t.Tick();
      var t2 := AfterFire(isSet, e, t1);
      var log, rest := Deliver(isSet, chunks, t).log, Deliver(isSet, chunks[1..], t2).log;
      if !isSet.Hears(e) {
        assert log == rest;
        CancelInsideCallback(isSet, chunks[1..], t2, i);
      } else {
        assert log[1..] == rest;
        if i > 0 {
          assert log[i] == rest[i - 1] && log[i + 1..] == rest[i..];
          CancelInsideCallback(isSet, chunks[1..], t2, i - 1);
        }
      }
    }
  }

  // ---- Saving --------------------------------------------------------------------------------------

  /** The boundaries the subtitle builder takes: all of one kind, none before time zero. */
  ghost predicate Feedable(chunks: seq<TtsChunk>) {
    Uniform(None, MarksOf(chunks)) && FromZero(MarksOf(chunks))
  }

  lemma FeedableCues(chunks: seq<TtsChunk>)
    requires Feedable(chunks)
    ensures EachTimed(MarksOf(chunks)) && FedCues(None, MarksOf(chunks)) == Some(CuesOf(MarksOf(chunks)))
  {
    hide MarksOf, FedCues, Uniform;
    FeedingIff(None, MarksOf(chunks));
    FeedingAll(None, MarksOf(chunks));
  }

  /** The error of saving: a rejected boundary, or else the first write that fails. */
  ghost function SaveError(chunks: seq<TtsChunk>, subtitles: bool, media: Option<ErrorCode>, srt: Option<ErrorCode>): Option<ErrorCode> {
    if !Feedable(chunks) then Some(InvalidArgument)
    else if media.Some? then media
    else if subtitles then srt
    else None
  }

  /**
    * What saving returns and hands over: nothing for a rejected boundary, or else the audio, and
    * after it, if it is wanted and the first write succeeds, a subtitle text that shows the boundaries.
    */
  ghost predicate IsSaved(chunks: seq<TtsChunk>, subtitles: bool, outcomes: seq<Option<ErrorCode>>, saved: Saved) {
    && saved.code == SaveError(chunks, subtitles, Outcome(outcomes, 0), Outcome(outcomes, 1))
    && |saved.handed| == (if !Feedable(chunks) then 0 else if subtitles && Outcome(outcomes, 0) == None then 2 else 1)
    && (|saved.handed| > 0 ==> saved.handed[0] == AudioOf(chunks))
    && (|saved.handed| > 1 ==> SubtitlesShow(saved.handed[1], MarksOf(chunks)))
  }

  /** Which files are written, with which bytes, and what saving returns. */
  lemma SavedFiles(chunks: seq<TtsChunk>, subtitles: bool, outcomes: seq<Option<ErrorCode>>)
    ensures IsSaved(chunks, subtitles, outcomes, SaveChunks(chunks, subtitles, outcomes))
  {
    hide Feedable, FedCues, Srt, AudioOf, MarksOf, SubtitlesShow;
    FeedableIff(chunks);
    if Feedable(chunks) {
      FeedableCues(chunks);
      CuesShow(MarksOf(chunks));
    }
  }

  lemma FeedableIff(chunks: seq<TtsChunk>)
    ensures Feedable(chunks) <==> FedCues(None, MarksOf(chunks)).Some?
  {
    hide MarksOf, FedCues, Uniform, FromZero;
    FeedingIff(None, MarksOf(chunks));
  }

  /**
    * A reader of the subtitles sees, numbered and in the order of their times, the visible boundaries:
    * for every start and end in milliseconds, the lines of those whose ticks lie there, in their order.
    */
  ghost predicate SubtitlesShow(srt: Bytes, boundaries: seq<Boundary>) {
    var r := ReadSrt(srt);
    && r.Some? && WellOrdered(r.value)
    && forall start, end :: EntryLines(r.value, start, end) == BoundaryLines(boundaries, start, end)
  }

  lemma CuesShow(boundaries: seq<Boundary>)
    requires EachTimed(boundaries)
    ensures SubtitlesShow(Srt(CuesOf(boundaries)), boundaries)
  {
    hide ReadSrt, Srt, WellOrdered, EntryLines, BoundaryLines;
    ReadsBoundaries(boundaries);
  }

  function AudioOfTurns(turns: seq<seq<TtsChunk>>): (r: seq<Bytes>)
    ensures |r| == |turns| && forall i :: 0 <= i < |r| ==> r[i] == AudioOf(turns[i])
  {
    seq(|turns|, i requires 0 <= i < |turns| => AudioOf(turns[i]))
  }

  lemma {:induction false} ShiftKeepsAudio(events: seq<TtsChunk>, delta: int)
    ensures AudioOf(Session.Shift(events, delta)) == AudioOf(events)
  {
    if events != [] {
      ShiftKeepsAudio(events[1..], delta);
      assert Session.Shift(events, delta)[1..] == Session.Shift(events[1..], delta);
    }
  }

  lemma {:induction false} AssembledAudio(turns: seq<seq<TtsChunk>>)
    ensures AudioOf(Session.Assemble(turns)) == Flatten(AudioOfTurns(turns))
    decreases |turns|
  {
    if turns != [] {
      var init, last := turns[..|turns| - 1], turns[|turns| - 1];
      var shifted := Session.Shift(last, Session.Total(init));
      AssembledAudio(init);
      AudioOfAppend(Session.Assemble(init), shifted);
      ShiftKeepsAudio(last, Session.Total(init));
      assert AudioOfTurns(turns) == AudioOfTurns(init) + [AudioOf(last)];
      FlattenSnoc(AudioOfTurns(init), AudioOf(last));
    }
  }

  /** The backend gets the whole text: unescaped and joined, only strip bytes at the cuts are missing. */
  lemma BackendGetsWholeText(s: Setup)
    requires Utf8.Valid(s.text)
    ensures ChunkerProperties.DeleteStrip(Flatten(ChunkerProperties.UnescapeEach(TextChunks(s))))
            == ChunkerProperties.DeleteStrip(Normalizer.Clean(s.text))
    ensures forall c :: c in TextChunks(s) ==> c != [] && |c| <= 4096
    ensures ChunkerCuts.IsChunking(Normalizer.Clean(s.text), TextChunker.Options(4096, true, true, true), TextChunks(s))
  {
    hide Utf8.Valid, ChunkerCuts.IsChunking;
    ChunkerLoss.EnoughRoom(s.text, DEFAULT_CHUNKING);
    ChunkerCuts.ChunkingIff(s.text, DEFAULT_CHUNKING, TextChunks(s));
    ChunkerLoss.ChunkLossless(s.text, DEFAULT_CHUNKING);
    ChunkerLoss.ChunksAreWhole(s.text, DEFAULT_CHUNKING);
  }

  /** The backend ran as a successful session over the chunks of the text, raw offsets from zero on. */
  ghost predicate BackedBySession(s: Setup, t: Token, n: Session.Net, service: Session.Service) {
    var run := Session.Run(n, service, TextChunks(s));
    && ReachesBackend(s, t)
    && run.status == None
    && s.backend(TextChunks(s)) == Ok(Session.Assemble(run.turns))
    && forall turn :: turn in run.turns ==> StartsFromZero(turn)
  }

  /**
    * Text to files: when saving over a session succeeds, the media file is the audio of the turns
    * joined in order, and a reader of the subtitles sees the visible boundaries of the turns, each turn
    * shifted behind those before it, as the cues of the turns in order.
    */
  lemma SavedSessionReadsInOrder(s: Setup, t: Token, n: Session.Net, service: Session.Service,
                                 outcomes: seq<Option<ErrorCode>>)
    ensures var turns := Session.Run(n, service, TextChunks(s)).turns;
            var saved := SaveResult(s, t, true, outcomes);
            BackedBySession(s, t, n, service) && saved.code == None ==>
              && |saved.handed| == 2
              && saved.handed[0] == Flatten(AudioOfTurns(turns))
              && SubtitlesShow(saved.handed[1], MarksOf(Flatten(SessionProperties.ShiftedTurns(turns))))
              && AllTimed(Session.Assemble(turns))
              && ReadSrt(saved.handed[1]) == Some(EntriesFrom(TurnByTurn(turns), 1))
  {
    hide Session.Run, TextChunks, SaveChunks, ReadSrt, Srt, Utf8.Valid, StartsFromZero, SubtitlesShow, Feedable, FedCues, MarksOf, AudioOf;
    var turns := Session.Run(n, service, TextChunks(s)).turns;
    if BackedBySession(s, t, n, service) && SaveResult(s, t, true, outcomes).code == None {
      var chunks := Session.Assemble(turns);
      SavedFiles(chunks, true, outcomes);
      FeedableCues(chunks);
      SavedCues(chunks, outcomes);
      AssembledAudio(turns);
      SessionProperties.AssembleClosedForm(turns);
      SessionSrtReadsInOrder(n, service, TextChunks(s));
    }
  }

  lemma SavedCues(chunks: seq<TtsChunk>, outcomes: seq<Option<ErrorCode>>)
    requires Feedable(chunks) && EachTimed(MarksOf(chunks)) && Outcome(outcomes, 0) == None
    ensures SaveChunks(chunks, true, outcomes).handed == [AudioOf(chunks), Srt(CuesOf(MarksOf(chunks)))]
  {
    hide FedCues, MarksOf, AudioOf, Srt, Feedable;
    FeedableCues(chunks);
  }
}
