/** Subtitles of a whole session: the turns never interleave in the SRT text. */
module SessionSubtitles {
  import opened Bytes
  import opened Chunks
  import opened Session
  import opened SessionProperties
  import opened SubtitleTime
  import opened SrtComposer
  import opened SrtProperties
  import opened SubtitleBuilder

  ghost predicate AllTimed(events: seq<TtsChunk>) {
    EachTimed(MarksOf(events))
  }

  /** The cues a list of events feeds into the builder. */
  ghost function EventCues(events: seq<TtsChunk>): seq<Cue>
    requires AllTimed(events)
  {
    CuesOf(MarksOf(events))
  }

  lemma {:induction false} MarksAreEvents(events: seq<TtsChunk>, b: Boundary)
    ensures b in MarksOf(events) <==> Mark(b) in events
  {
    if events != [] {
      MarksAreEvents(events[1..], b);
      assert events == [events[0]] + events[1..];
    }
  }

  /** No boundary of the assembled turns ends after their total. */
  lemma {:induction false} AssembledEnds(turns: seq<seq<TtsChunk>>)
    ensures forall b :: Mark(b) in Assemble(turns) ==> b.End() <= Total(turns)
  {
    if turns != [] {
      var init, last := turns[..|turns| - 1], turns[|turns| - 1];
      AssembledEnds(init);
      var shifted := Shift(last, Total(init));
      forall b | Mark(b) in shifted
        ensures b.End() <= Total(turns)
      {
        var k :| 0 <= k < |shifted| && shifted[k] == Mark(b);
        MaxEndCovers(last, k);
      }
    }
  }

  ghost predicate StartsFromZero(events: seq<TtsChunk>) {
    forall k :: 0 <= k < |events| && events[k].Mark? ==> events[k].boundary.offset >= 0
  }

  /** The kept cues of the turns, sorted turn by turn. */
  ghost function TurnByTurn(turns: seq<seq<TtsChunk>>): seq<Cue>
    requires AllTimed(Assemble(turns))
    decreases |turns|
  {
    if turns == [] then []
    else
      var init, last := turns[..|turns| - 1], turns[|turns| - 1];
      TimedParts(Assemble(init), Shift(last, Total(init)));
      TurnByTurn(init) + Kept(Sorted(EventCues(Shift(last, Total(init)))))
  }

  lemma TimedParts(a: seq<TtsChunk>, b: seq<TtsChunk>)
    ensures AllTimed(a + b) <==> AllTimed(a) && AllTimed(b)
  {
    hide EachTimed;
    MarksOfAppend(a, b);
    EachTimedAppend(MarksOf(a), MarksOf(b));
  }

  lemma CuesApart(a: seq<TtsChunk>, b: seq<TtsChunk>, border: int)
    requires AllTimed(a) && AllTimed(b)
    requires forall x :: Mark(x) in a ==> x.End() <= border
    requires forall y :: Mark(y) in b ==> y.offset >= border
    ensures forall x, y :: x in Kept(EventCues(a)) && y in Kept(EventCues(b)) ==> !Less(y, x)
  {
    KeptMembers(EventCues(a));
    KeptMembers(EventCues(b));
    forall x, y | x in Kept(EventCues(a)) && y in Kept(EventCues(b))
      ensures !Less(y, x)
    {
      var i :| 0 <= i < |EventCues(a)| && EventCues(a)[i] == x;
      var j :| 0 <= j < |EventCues(b)| && EventCues(b)[j] == y;
      var p, q := MarksOf(a)[i], MarksOf(b)[j];
      MarksAreEvents(a, p);
      MarksAreEvents(b, q);
      assert p.End() <= q.offset;
      assert p.End() / 10000 <= q.offset / 10000;
    }
  }

  /**
    * With raw offsets from zero on, sorting the cues of the whole session is sorting each turn's
    * cues and putting the turns one after the other.
    */
  lemma {:induction false} SessionCuesInOrder(turns: seq<seq<TtsChunk>>)
    requires AllTimed(Assemble(turns)) && forall t :: t in turns ==> StartsFromZero(t)
    ensures Kept(Sorted(EventCues(Assemble(turns)))) == TurnByTurn(turns)
    decreases |turns|
  {
    hide Sorted, Kept, Shift, Total, MarksOf;
    if turns == [] {
      NoCues();
    } else {
      var init, last := turns[..|turns| - 1], turns[|turns| - 1];
      var before, after := Assemble(init), Shift(last, Total(init));
      assert last in turns && forall t :: t in init ==> t in turns;
      assert Assemble(turns) == before + after;
      TimedParts(before, after);
      SessionCuesInOrder(init);
      AssembledEnds(init);
      CuesApart(before, after, Total(init));
      var a, b := EventCues(before), EventCues(after);
      EventCuesAppend(before, after);
      KeptSorted(a + b);
      KeptAppend(a, b);
      SortedApart(Kept(a), Kept(b));
      KeptSorted(a);
      KeptSorted(b);
    }
  }

  lemma NoCues()
    ensures AllTimed(Assemble([])) && Kept(Sorted(EventCues(Assemble([])))) == []
  {
    assert MarksOf([]) == [] && CuesOf([]) == [];
  }

  lemma EventCuesAppend(a: seq<TtsChunk>, b: seq<TtsChunk>)
    requires AllTimed(a) && AllTimed(b)
    ensures AllTimed(a + b) && EventCues(a + b) == EventCues(a) + EventCues(b)
  {
    hide EachTimed;
    MarksOfAppend(a, b);
    EachTimedAppend(MarksOf(a), MarksOf(b));
  }

  // ---- From boundaries to what is read -----------------------------------------------------------

  /** The boundary starts in millisecond `start` and ends in millisecond `end`, one of 10000 ticks each. */
  predicate During(b: Boundary, start: Time, end: Time) {
    && 10000 * start.millis <= b.offset < 10000 * (start.millis + 1)
    && 10000 * end.millis <= b.offset + b.duration < 10000 * (end.millis + 1)
  }

  /** The lines of the visible boundaries with these times, boundary by boundary. */
  function BoundaryLines(boundaries: seq<Boundary>, start: Time, end: Time): seq<seq<Bytes>> {
    if boundaries == [] then []
    else
      var b := boundaries[0];
      (if During(b, start, end) && start.millis < end.millis && HasVisibleByte(b.text) then [Lines(b.text)] else [])
      + BoundaryLines(boundaries[1..], start, end)
  }

  lemma {:induction false} ShownBoundaries(boundaries: seq<Boundary>, start: Time, end: Time)
    requires EachTimed(boundaries)
    ensures ShownLines(CuesOf(boundaries), start, end) == BoundaryLines(boundaries, start, end)
  {
    hide Lines, HasVisibleByte;
    if boundaries != [] {
      var b := boundaries[0];
      assert Timed(b);
      ShowsIff(Cue(start, end, b.text), b);
      TimedCons(b, boundaries[1..]);
      assert boundaries == [b] + boundaries[1..];
      assert CuesOf(boundaries)[1..] == CuesOf(boundaries[1..]);
      ShownBoundaries(boundaries[1..], start, end);
    }
  }

  /**
    * What a reader of the subtitles of timed boundaries sees, numbered and in the order of their times:
    * for every start and end in milliseconds, the lines of the visible boundaries whose ticks lie there.
    */
  lemma ReadsBoundaries(boundaries: seq<Boundary>)
    requires EachTimed(boundaries)
    ensures var r := ReadSrt(Srt(CuesOf(boundaries)));
            && r.Some? && WellOrdered(r.value)
            && forall start, end :: EntryLines(r.value, start, end) == BoundaryLines(boundaries, start, end)
  {
    hide ReadSrt, Srt, WellOrdered, EntryLines, ShownLines, BoundaryLines, EachTimed;
    ReadsShownCues(CuesOf(boundaries));
    forall start, end
      ensures ShownLines(CuesOf(boundaries), start, end) == BoundaryLines(boundaries, start, end)
    {
      ShownBoundaries(boundaries, start, end);
    }
  }

  /** What a reader of the subtitles of a successful session sees: the turns in order, numbered through. */
  lemma SessionSrtReadsInOrder(n: Net, s: Service, texts: seq<Bytes>)
    requires Run(n, s, texts).status == None
    requires var turns := Run(n, s, texts).turns;
             AllTimed(Assemble(turns)) && forall t :: t in turns ==> StartsFromZero(t)
    ensures var turns := Run(n, s, texts).turns;
            ReadSrt(Srt(EventCues(Assemble(turns)))) == Some(EntriesFrom(TurnByTurn(turns), 1))
  {
    hide Run, Srt, ReadSrt;
    var turns := Run(n, s, texts).turns;
    SessionCuesInOrder(turns);
    ReadInvertsCompose(EventCues(Assemble(turns)));
  }
}
