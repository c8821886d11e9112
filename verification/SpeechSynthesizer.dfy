/** The single-use facade with callbacks and cancellation (`api/SpeechSynthesizer`). */
module SpeechSynthesizer {
  import opened Bytes
  import opened Chunks
  import opened SubtitleBuilder
  import Composer = SrtComposer
  import TextChunker
  import Utf8

  // ---- The world around the synthesizer --------------------------------------------------

  /**
    * The cancellation flag on a clock that ticks at every check of the flag, every callback and
    * every run of the backend. `raised` is the tick before which the flag goes up, whoever raises
    * it: a callback at tick `k` that cancels makes it `k + 1`, another thread any tick at all.
    */
  datatype Token = Token(raised: Option<nat>, now: nat) {
    predicate Up() {
      raised.Some? && raised.value <= now
    }

    function Tick(): Token {
      this.(now := now + 1)
    }

    function Raise(): Token {
      if Up() then this else this.(raised := Some(now))
    }
  }

  datatype Event =
    | OnAudio(data: Bytes)
    | OnBoundary(boundary: Boundary)
    | OnComplete
    | OnError(code: ErrorCode)

  datatype Stamped = Stamped(tick: nat, event: Event)

  /** Which of the four callbacks the caller has set. */
  datatype CallbackSet = CallbackSet(audio: bool, boundary: bool, complete: bool, error: bool) {
    predicate Hears(e: Event) {
      match e
      case OnAudio(_) => audio
      case OnBoundary(_) => boundary
      case OnComplete => complete
      case OnError(_) => error
    }
  }

  const ALL_CALLBACKS := CallbackSet(true, true, true, true)

  class StreamCallbacks {
    const isSet: CallbackSet
    var log: seq<Stamped>

    constructor (isSet: CallbackSet)
      ensures this.isSet == isSet && log == []
    {
      this.isSet := isSet;
      log := [];
    }

    method Call(e: Event, tick: nat)
      modifies this
      ensures log == old(log) + [Stamped(tick, e)]
    {
      log := log + [Stamped(tick, e)];
    }
  }

  /** `handed` is what the file writer is given, in order; the writes end as `outcomes` says, then succeed. */
  class FileWriter {
    var outcomes: seq<Option<ErrorCode>>
    var handed: seq<Bytes>

    constructor (outcomes: seq<Option<ErrorCode>>)
      ensures this.outcomes == outcomes && handed == []
    {
      this.outcomes := outcomes;
      handed := [];
    }

    method Write(content: Bytes) returns (r: Option<ErrorCode>)
      modifies this
      ensures handed == old(handed) + [content]
      ensures r == Outcome(old(outcomes), 0)
      ensures outcomes == if old(outcomes) == [] then [] else old(outcomes)[1..]
    {
      handed := handed + [content];
      r := Outcome(outcomes, 0);
      outcomes := if outcomes == [] then [] else outcomes[1..];
    }
  }

  function Outcome(outcomes: seq<Option<ErrorCode>>, k: nat): Option<ErrorCode> {
    if k < |outcomes| then outcomes[k] else None
  }

  // ---- What a call does, as functions of the state -------------------------------------------

  const DEFAULT_CHUNKING := TextChunker.Options(4096, true, true, true)

  /** What the constructor fixes: the text, the verdict on the configuration, whether a proxy is set, the backend. */
  datatype Setup = Setup(
    text: Bytes,
    configError: Option<ErrorCode>,
    proxy: bool,
    backend: seq<Bytes> -> Result<seq<TtsChunk>>)

  function TextChunks(s: Setup): seq<Bytes> {
    TextChunker.Chunks(s.text, DEFAULT_CHUNKING)
  }

  /** `requests` lists what the backend has been called with. */
  datatype State = State(called: bool, token: Token, requests: seq<seq<Bytes>>)

  /** The error before the backend is reached, if any; the flag is checked first. */
  function Refusal(s: Setup, t: Token): Option<ErrorCode> {
    if t.Up() then Some(Cancelled)
    else if s.proxy then Some(Unsupported)
    else if s.configError.Some? then s.configError
    else if !Utf8.Valid(s.text) then Some(InvalidArgument)
    else None
  }

  predicate ReachesBackend(s: Setup, t: Token) {
    Refusal(s, t) == None && TextChunks(s) != []
  }

  function PipelineResult(s: Setup, t: Token): Result<seq<TtsChunk>> {
    if Refusal(s, t).Some? then Err(Refusal(s, t).value)
    else if TextChunks(s) == [] then Ok([])
    else s.backend(TextChunks(s))
  }

  /** The state after the guard and the pipeline of a first call. */
  function AfterPipeline(s: Setup, st: State): State {
    if ReachesBackend(s, st.token) then State(true, st.token.Tick().Tick(), st.requests + [TextChunks(s)])
    else State(true, st.token.Tick(), st.requests)
  }

  /** An event fires only if its callback is set; firing takes a tick. */
  function Fired(isSet: CallbackSet, e: Event, t: Token): seq<Stamped> {
    if isSet.Hears(e) then [Stamped(t.now, e)] else []
  }

  function AfterFire(isSet: CallbackSet, e: Event, t: Token): Token {
    if isSet.Hears(e) then t.Tick() else t
  }

  function EventOf(c: TtsChunk): Event {
    match c
    case Audio(data) => OnAudio(data)
    case Mark(b) => OnBoundary(b)
  }

  datatype Delivery = Delivery(code: Option<ErrorCode>, log: seq<Stamped>, token: Token)

  function Preceded(log: seq<Stamped>, d: Delivery): Delivery {
    d.(log := log + d.log)
  }

  /** Streaming the chunks from a state of the clock. */
  function Deliver(isSet: CallbackSet, chunks: seq<TtsChunk>, t: Token): Delivery
    decreases |chunks|
  {
    var t1 := t.Tick();
    if t.Up() then
      Delivery(Some(Cancelled), Fired(isSet, OnError(Cancelled), t1), AfterFire(isSet, OnError(Cancelled), t1))
    else if chunks == [] then
      Delivery(None, Fired(isSet, OnComplete, t1), AfterFire(isSet, OnComplete, t1))
    else
      var e := EventOf(chunks[0]);
      Preceded(Fired(isSet, e, t1), Deliver(isSet, chunks[1..], AfterFire(isSet, e, t1)))
  }

  function Stream(s: Setup, st: State, isSet: CallbackSet): (Delivery, State)
    requires !st.called
  {
    var after := AfterPipeline(s, st);
    match PipelineResult(s, st.token)
    case Err(code) =>
      var t := AfterFire(isSet, OnError(code), after.token);
      (Delivery(Some(code), Fired(isSet, OnError(code), after.token), t), after.(token := t))
    case Ok(chunks) =>
      var d := Deliver(isSet, chunks, after.token);
      (d, after.(token := d.token))
  }

  datatype Saved = Saved(code: Option<ErrorCode>, handed: seq<Bytes>)

  /** What saving hands to the writer: nothing, the audio, or the audio and the subtitles. */
  function SaveChunks(chunks: seq<TtsChunk>, subtitles: bool, outcomes: seq<Option<ErrorCode>>): Saved {
    var cues := FedCues(None, MarksOf(chunks));
    if cues == None then Saved(Some(InvalidArgument), [])
    else if Outcome(outcomes, 0).Some? || !subtitles then Saved(Outcome(outcomes, 0), [AudioOf(chunks)])
    else Saved(Outcome(outcomes, 1), [AudioOf(chunks), Composer.Srt(cues.value)])
  }

  function SaveResult(s: Setup, t: Token, subtitles: bool, outcomes: seq<Option<ErrorCode>>): Saved {
    match PipelineResult(s, t)
    case Err(code) => Saved(Some(code), [])
    case Ok(chunks) => SaveChunks(chunks, subtitles, outcomes)
  }

  // ---- The class --------------------------------------------------------------------------------

  class SpeechSynthesizer {
    const setup: Setup
    var called: bool
    var token: Token
    var requests: seq<seq<Bytes>>

    function Now(): State
      reads this
    {
      State(called, token, requests)
    }

    constructor (setup: Setup, raised: Option<nat>)
      ensures this.setup == setup && Now() == Initial(raised)
    {
      this.setup := setup;
      called, token, requests := false, Token(raised, 0), [];
    }

    method Cancel()
      modifies this
      ensures Now() == old(Now()).(token := old(token).Raise())
    {
      token := token.Raise();
    }

    method IsCancelled() returns (up: bool)
      modifies this`token
      ensures up == old(token).Up() && token == old(token).Tick()
    {
      up := token.Up();
      token := token.Tick();
    }

    method RunPipeline() returns (r: Result<seq<TtsChunk>>)
      requires called
      modifies this
      ensures r == PipelineResult(setup, old(token))
      ensures Now() == AfterPipeline(setup, old(Now()))
    {
      hide Utf8.Valid, TextChunker.Chunks;
      var up := IsCancelled();
      if up {
        return Err(Cancelled);
      }
      if setup.proxy {
        return Err(Unsupported);
      }
      if setup.configError.Some? {
        return Err(setup.configError.value);
      }
      var chunked := TextChunker.Chunk(setup.text, DEFAULT_CHUNKING);
      if chunked.value.Err? {
        return Err(chunked.value.code);
      }
      var textChunks := chunked.value.value;
      if textChunks == [] {
        return Ok([]);
      }
      requests := requests + [textChunks];
      token := token.Tick();
      return setup.backend(textChunks);
    }

    method Synthesize() returns (r: Result<seq<TtsChunk>>)
      modifies this
      ensures old(called) ==> r == Err(InvalidState) && Now() == old(Now())
      ensures !old(called) ==> r == PipelineResult(setup, old(token)) && Now() == AfterPipeline(setup, old(Now()))
    {
      hide PipelineResult, Refusal, ReachesBackend;
      if called {
        return Err(InvalidState);
      }
      called := true;
      r := RunPipeline();
    }

    method Notify(callbacks: StreamCallbacks, e: Event)
      modifies this`token, callbacks
      ensures callbacks.log == old(callbacks.log) + Fired(callbacks.isSet, e, old(token))
      ensures token == AfterFire(callbacks.isSet, e, old(token))
    {
      if callbacks.isSet.Hears(e) {
        callbacks.Call(e, token.now);
        token := token.Tick();
      }
    }

    method SynthesizeStream(callbacks: StreamCallbacks) returns (r: Result<()>)
      modifies this, callbacks
      ensures old(called) ==> r == Err(InvalidState) && Now() == old(Now()) && callbacks.log == old(callbacks.log)
      ensures !old(called) ==>
                var (d, st) := Stream(setup, old(Now()), callbacks.isSet);
                && r == (if d.code.Some? then Err(d.code.value) else Ok(()))
                && callbacks.log == old(callbacks.log) + d.log
                && Now() == st
    {
      hide PipelineResult, Refusal, ReachesBackend, Fired, AfterFire, Deliver;
      if called {
        return Err(InvalidState);
      }
      called := true;
      var synthesis := RunPipeline();
      if synthesis.Err? {
        Notify(callbacks, OnError(synthesis.code));
        return Err(synthesis.code);
      }
      var code := Dispatch(callbacks, synthesis.value);
      return if code.Some? then Err(code.value) else Ok(());
    }

    /** The delivery of the chunks, up to and including the last callback. */
    method Dispatch(callbacks: StreamCallbacks, chunks: seq<TtsChunk>) returns (code: Option<ErrorCode>)
      modifies this`token, callbacks
      ensures var d := Deliver(callbacks.isSet, chunks, old(token));
              code == d.code && callbacks.log == old(callbacks.log) + d.log && token == d.token
    {
      hide Fired, AfterFire, Deliver;
      for i := 0 to |chunks|
        invariant Preceded(old(callbacks.log), Deliver(callbacks.isSet, chunks, old(token)))
               == Preceded(callbacks.log, Deliver(callbacks.isSet, chunks[i..], token))
      {
        DeliverAt(callbacks.isSet, chunks, i, token, callbacks.log);
        var up := IsCancelled();
        if up {
          Notify(callbacks, OnError(Cancelled));
          return Some(Cancelled);
        }
        match chunks[i] {
          case Audio(data) => Notify(callbacks, OnAudio(data));
          case Mark(boundary) => Notify(callbacks, OnBoundary(boundary));
        }
      }
      DeliverStep(callbacks.isSet, chunks[|chunks|..], token);
      var up := IsCancelled();
      if up {
        Notify(callbacks, OnError(Cancelled));
        return Some(Cancelled);
      }
      Notify(callbacks, OnComplete);
      return None;
    }

    method Save(subtitles: bool, writer: FileWriter) returns (r: Result<()>)
      modifies this, writer
      ensures old(called) ==> r == Err(InvalidState) && Now() == old(Now()) && writer.handed == old(writer.handed)
      ensures !old(called) ==>
                var saved := SaveResult(setup, old(token), subtitles, old(writer.outcomes));
                && r == (if saved.code.Some? then Err(saved.code.value) else Ok(()))
                && writer.handed == old(writer.handed) + saved.handed
                && Now() == AfterPipeline(setup, old(Now()))
    {
      hide PipelineResult, Refusal, ReachesBackend, FedCues, Composer.Srt, MarksOf, AudioOf, Accepts, CueOf, After;
      if called {
        return Err(InvalidState);
      }
      called := true;
      var synthesis := RunPipeline();
      if synthesis.Err? {
        return Err(synthesis.code);
      }
      var chunks := synthesis.value;
      var audioBytes: Bytes := [];
      var submaker := new Builder();
      AfterNothing(FedCues(None, MarksOf(chunks)));
      for i := 0 to |chunks|
        modifies submaker
        invariant AudioOf(chunks) == audioBytes + AudioOf(chunks[i..])
        invariant FedCues(None, MarksOf(chunks)) == After(submaker.cues, FedCues(submaker.kind, MarksOf(chunks[i..])))
      {
        EventsStep(chunks, i);
        match chunks[i] {
          case Audio(data) => audioBytes := audioBytes + data;
          case Mark(boundary) =>
            FedStep(submaker.cues, submaker.kind, boundary, MarksOf(chunks[i + 1..]));
            var fed := submaker.Feed(boundary);
            if fed.Err? {
              return Err(fed.code);
            }
        }
      }
      assert chunks[|chunks|..] == [] && audioBytes + [] == audioBytes;
      NothingLeft(submaker.cues, submaker.kind);
      assert AudioOf(chunks) == audioBytes && FedCues(None, MarksOf(chunks)) == Some(submaker.cues);
      var media := writer.Write(audioBytes);
      if media.Some? {
        return Err(media.value);
      }
      if subtitles {
        var srt := submaker.ToSrt();
        var written := writer.Write(srt);
        if written.Some? {
          return Err(written.value);
        }
      }
      return Ok(());
    }
  }

  function Initial(raised: Option<nat>): State {
    State(false, Token(raised, 0), [])
  }

  lemma DeliverStep(isSet: CallbackSet, chunks: seq<TtsChunk>, t: Token)
    ensures var t1 := t.Tick();
            && (t.Up() ==>
                  Deliver(isSet, chunks, t)
                  == Delivery(Some(Cancelled), Fired(isSet, OnError(Cancelled), t1), AfterFire(isSet, OnError(Cancelled), t1)))
            && (!t.Up() && chunks == [] ==>
                  Deliver(isSet, chunks, t) == Delivery(None, Fired(isSet, OnComplete, t1), AfterFire(isSet, OnComplete, t1)))
            && (!t.Up() && chunks != [] ==>
                  Deliver(isSet, chunks, t)
                  == Preceded(Fired(isSet, EventOf(chunks[0]), t1), Deliver(isSet, chunks[1..], AfterFire(isSet, EventOf(chunks[0]), t1))))
  {
    hide Fired, AfterFire;
  }

  lemma DeliverAt(isSet: CallbackSet, chunks: seq<TtsChunk>, i: nat, t: Token, sofar: seq<Stamped>)
    requires i < |chunks|
    ensures var t1 := t.Tick();
            var e := if t.Up() then OnError(Cancelled) else EventOf(chunks[i]);
            var t2 := AfterFire(isSet, e, t1);
            var log := sofar + Fired(isSet, e, t1);
            Preceded(sofar, Deliver(isSet, chunks[i..], t))
            == if t.Up() then Delivery(Some(Cancelled), log, t2) else Preceded(log, Deliver(isSet, chunks[i + 1..], t2))
  {
    hide Fired, AfterFire, Deliver;
    DeliverStep(isSet, chunks[i..], t);
    if !t.Up() {
      var e, t1 := EventOf(chunks[i]), t.Tick();
      assert chunks[i..][1..] == chunks[i + 1..];
    }
  }

  /** The cues fed so far in front of those still to come. */
  function After(cues: seq<Composer.Cue>, rest: Option<seq<Composer.Cue>>): Option<seq<Composer.Cue>> {
    if rest == None then None else Some(cues + rest.value)
  }

  lemma AfterNothing(rest: Option<seq<Composer.Cue>>)
    ensures After([], rest) == rest
  {
    if rest.Some? {
      assert [] + rest.value == rest.value;
    }
  }

  lemma AfterTwice(a: seq<Composer.Cue>, b: seq<Composer.Cue>, rest: Option<seq<Composer.Cue>>)
    ensures After(a, After(b, rest)) == After(a + b, rest)
  {
    if rest.Some? {
      assert a + (b + rest.value) == (a + b) + rest.value;
    }
  }

  lemma EventsStep(events: seq<TtsChunk>, i: nat)
    requires i < |events|
    ensures events[i].Audio? ==>
              AudioOf(events[i..]) == events[i].data + AudioOf(events[i + 1..]) && MarksOf(events[i..]) == MarksOf(events[i + 1..])
    ensures events[i].Mark? ==>
              AudioOf(events[i..]) == AudioOf(events[i + 1..]) && MarksOf(events[i..]) == [events[i].boundary] + MarksOf(events[i + 1..])
  {
    assert events[i..][1..] == events[i + 1..];
  }

  /** Feeding the next boundary after `cues`. */
  lemma FedStep(cues: seq<Composer.Cue>, kind: Option<BoundaryType>, b: Boundary, rest: seq<Boundary>)
    ensures After(cues, FedCues(kind, [b] + rest)) ==
            if Accepts(kind, b) then After(cues + [CueOf(b)], FedCues(Some(b.kind), rest)) else None
  {
    assert ([b] + rest)[1..] == rest;
    if Accepts(kind, b) {
      AfterTwice(cues, [CueOf(b)], FedCues(Some(b.kind), rest));
    }
  }

  lemma NothingLeft(cues: seq<Composer.Cue>, kind: Option<BoundaryType>)
    ensures AudioOf([]) == [] && After(cues, FedCues(kind, MarksOf([]))) == Some(cues)
  {
    assert cues + [] == cues;
  }
}
