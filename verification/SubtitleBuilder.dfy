/** Collecting boundary events into cues (`subtitles/SubtitleBuilder`). */
module SubtitleBuilder {
  import opened Bytes
  import opened Chunks
  import opened SubtitleTime
  import opened SrtComposer

  /** A boundary that can be fed after boundaries of type `kind`. */
  predicate Accepts(kind: Option<BoundaryType>, b: Boundary) {
    (kind == None || kind == Some(b.kind)) && Timed(b)
  }

  predicate Timed(b: Boundary) {
    b.offset >= 0 && b.End() >= 0
  }

  function CueOf(b: Boundary): Cue
    requires Timed(b)
  {
    Cue(Time(b.offset / 10000), Time(b.End() / 10000), b.text)
  }

  /** The cue has the text of the boundary, and its times are the whole milliseconds of its ticks. */
  predicate Shows(c: Cue, b: Boundary) {
    && 10000 * c.start.millis <= b.offset < 10000 * (c.start.millis + 1)
    && 10000 * c.end.millis <= b.offset + b.duration < 10000 * (c.end.millis + 1)
    && c.text == b.text
  }

  /** A timed boundary has exactly one cue that shows it; no other boundary has any. */
  lemma ShowsIff(c: Cue, b: Boundary)
    ensures Shows(c, b) <==> Timed(b) && c == CueOf(b)
  {}

  predicate EachTimed(boundaries: seq<Boundary>) {
    forall k :: 0 <= k < |boundaries| ==> Timed(boundaries[k])
  }

  function CuesOf(boundaries: seq<Boundary>): (r: seq<Cue>)
    requires EachTimed(boundaries)
    ensures |r| == |boundaries| && forall k :: 0 <= k < |r| ==> r[k] == CueOf(boundaries[k])
  {
    seq(|boundaries|, k requires 0 <= k < |boundaries| => CueOf(boundaries[k]))
  }

  class Builder {
    var cues: seq<Cue>
    var kind: Option<BoundaryType>

    constructor ()
      ensures cues == [] && kind == None
    {
      cues, kind := [], None;
    }

    /** A rejected boundary leaves the builder as it was; the first accepted one fixes the type. */
    method Feed(b: Boundary) returns (r: Result<()>)
      modifies this
      ensures r == if Accepts(old(kind), b) then Ok(()) else Err(InvalidArgument)
      ensures r.Ok? ==> cues == old(cues) + [CueOf(b)] && kind == Some(b.kind) && Shows(CueOf(b), b)
      ensures r.Err? ==> cues == old(cues) && kind == old(kind)
    {
      if kind.Some? && kind.value != b.kind {
        return Err(InvalidArgument);
      }
      var start := FromEdgeTicks(b.offset);
      if start.Err? {
        return Err(start.code);
      }
      var endTicks := b.offset + b.duration;
      var end := FromEdgeTicks(endTicks);
      if end.Err? {
        return Err(end.code);
      }
      if kind.None? {
        kind := Some(b.kind);
      }
      cues := cues + [Cue(start.value, end.value, b.text)];
      return Ok(());
    }

    method ToSrt() returns (srt: Bytes)
      ensures srt == Srt(cues)
    {
      srt := Compose(cues);
    }

    method Clear()
      modifies this
      ensures cues == [] && kind == None
    {
      cues, kind := [], None;
    }
  }

  // ---- Feeding a whole sequence ----------------------------------------------------------

  /** The cues a builder locked to `kind` gains from the boundaries, or `None` at the first rejection. */
  function FedCues(kind: Option<BoundaryType>, boundaries: seq<Boundary>): Option<seq<Cue>>
    decreases |boundaries|
  {
    if boundaries == [] then Some([])
    else if !Accepts(kind, boundaries[0]) then None
    else
      var rest :- FedCues(Some(boundaries[0].kind), boundaries[1..]);
      Some([CueOf(boundaries[0])] + rest)
  }

  /** All of one type, and of the locked type if there is one. */
  ghost predicate Uniform(kind: Option<BoundaryType>, boundaries: seq<Boundary>) {
    exists k :: OfKind(k, boundaries) && (kind == None || kind == Some(k))
  }

  ghost predicate OfKind(k: BoundaryType, boundaries: seq<Boundary>) {
    forall i :: 0 <= i < |boundaries| ==> boundaries[i].kind == k
  }

  /** The cues that show the boundaries, one each, in order. */
  predicate ShowsAll(cues: seq<Cue>, boundaries: seq<Boundary>) {
    |cues| == |boundaries| && forall k :: 0 <= k < |cues| ==> Shows(cues[k], boundaries[k])
  }

  predicate FromZero(boundaries: seq<Boundary>) {
    forall k :: 0 <= k < |boundaries| ==> boundaries[k].offset >= 0 && boundaries[k].offset + boundaries[k].duration >= 0
  }

  /**
    * Feeding succeeds exactly on boundaries of one type that start and end from zero on, and then
    * the cues show them in order.
    */
  lemma FeedingIff(kind: Option<BoundaryType>, boundaries: seq<Boundary>)
    ensures FedCues(kind, boundaries).Some? <==> Uniform(kind, boundaries) && FromZero(boundaries)
    ensures FedCues(kind, boundaries).Some? ==> ShowsAll(FedCues(kind, boundaries).value, boundaries)
  {
    hide Uniform, FedCues;
    FeedingAll(kind, boundaries);
    assert EachTimed(boundaries) == FromZero(boundaries);
  }

  lemma {:induction false} FeedingAll(kind: Option<BoundaryType>, boundaries: seq<Boundary>)
    ensures FedCues(kind, boundaries).Some? <==> Uniform(kind, boundaries) && EachTimed(boundaries)
    ensures FedCues(kind, boundaries).Some? ==> FedCues(kind, boundaries).value == CuesOf(boundaries)
    decreases |boundaries|
  {
    if boundaries == [] {
      NothingUniform(kind);
    } else {
      hide Uniform, EachTimed, Timed;
      var b, rest := boundaries[0], boundaries[1..];
      assert boundaries == [b] + rest;
      UniformCons(kind, b, rest);
      if Accepts(kind, b) {
        FeedingAll(Some(b.kind), rest);
      }
    }
  }

  lemma NothingUniform(kind: Option<BoundaryType>)
    ensures Uniform(kind, [])
  {
    var k := if kind.Some? then kind.value else WordBoundary;
    assert OfKind(k, []);
  }

  lemma EachTimedAppend(a: seq<Boundary>, b: seq<Boundary>)
    ensures EachTimed(a + b) <==> EachTimed(a) && EachTimed(b)
    ensures EachTimed(a + b) ==> CuesOf(a + b) == CuesOf(a) + CuesOf(b)
  {
    assert forall k :: 0 <= k < |a| ==> (a + b)[k] == a[k];
    assert forall k :: 0 <= k < |b| ==> (a + b)[|a| + k] == b[k];
  }

  lemma OfKindCons(k: BoundaryType, b: Boundary, rest: seq<Boundary>)
    ensures OfKind(k, [b] + rest) <==> b.kind == k && OfKind(k, rest)
  {
    var all := [b] + rest;
    assert all[0] == b && forall i :: 0 <= i < |rest| ==> all[i + 1] == rest[i];
  }

  lemma TimedCons(b: Boundary, rest: seq<Boundary>)
    ensures EachTimed([b] + rest) <==> Timed(b) && EachTimed(rest)
    ensures EachTimed([b] + rest) ==> CuesOf([b] + rest) == [CueOf(b)] + CuesOf(rest)
  {
    hide Timed, CueOf;
    var all := [b] + rest;
    assert all[0] == b && forall i :: 0 <= i < |rest| ==> all[i + 1] == rest[i];
    if EachTimed(all) {
      assert CuesOf(all) == [CueOf(b)] + CuesOf(rest);
    }
  }

  lemma UniformCons(kind: Option<BoundaryType>, b: Boundary, rest: seq<Boundary>)
    ensures Uniform(kind, [b] + rest) <==> (kind == None || kind == Some(b.kind)) && Uniform(Some(b.kind), rest)
    ensures EachTimed([b] + rest) <==> Timed(b) && EachTimed(rest)
    ensures EachTimed([b] + rest) ==> CuesOf([b] + rest) == [CueOf(b)] + CuesOf(rest)
  {
    hide OfKind, Timed, EachTimed, CuesOf;
    TimedCons(b, rest);
    forall k
      ensures OfKind(k, [b] + rest) <==> b.kind == k && OfKind(k, rest)
    {
      OfKindCons(k, b, rest);
    }
    assert OfKind(b.kind, [b] + rest) <==> OfKind(b.kind, rest);
  }
}
