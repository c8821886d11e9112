/** Sorting, filtering, cleaning and printing of subtitle cues (`subtitles/SrtComposer`). */
module SrtComposer {
  import opened Bytes
  import opened SubtitleTime

  datatype Cue = Cue(start: Time, end: Time, text: Bytes)

  // ---- Text lines -------------------------------------------------------------------

  /** The maximal runs of bytes other than a newline. */
  function Lines(t: Bytes): (r: seq<Bytes>)
    ensures forall l :: l in r ==> IsLine(l)
    ensures t != [] && t[|t| - 1] != LF ==> r != []
  {
    if t == [] then []
    else
      var n := |t| - 1;
      var before := Lines(t[..n]);
      if t[n] == LF then before
      else if n == 0 || t[n - 1] == LF then before + [[t[n]]]
      else ExtendLast(before, t[n])
  }

  /** The last line with one more byte. */
  function ExtendLast(lines: seq<Bytes>, c: byte): (r: seq<Bytes>)
    requires lines != [] && c != LF && forall l :: l in lines ==> IsLine(l)
    ensures r == lines[..|lines| - 1] + [lines[|lines| - 1] + [c]]
    ensures forall l :: l in r ==> IsLine(l)
  {
    var last := lines[|lines| - 1];
    assert last in lines;
    assert IsLine(last) && IsLine(last + [c]);
    lines[..|lines| - 1] + [last + [c]]
  }

  predicate IsLine(l: Bytes) {
    l != [] && LF !in l
  }

  /** The lines with one newline between neighbours. */
  function Join(lines: seq<Bytes>): Bytes {
    if lines == [] then []
    else if |lines| == 1 then lines[0]
    else Join(lines[..|lines| - 1]) + [LF] + lines[|lines| - 1]
  }

  /** Newlines stripped at the ends and collapsed inside: the non-empty lines of the text. */
  function LegalContent(text: Bytes): Bytes {
    Join(Lines(text))
  }

  lemma {:induction false} LinesAfterNewlines(z: Bytes, t: Bytes)
    requires forall k :: 0 <= k < |z| ==> z[k] == LF
    ensures Lines(z + t) == Lines(t)
    decreases |t|
  {
    hide Lines, ExtendLast;
    if t == [] {
      LinesBeforeNewlines([], z);
      assert z + t == z == [] + z;
    } else {
      var init, c := t[..|t| - 1], t[|t| - 1];
      LinesAfterNewlines(z, init);
      assert t == init + [c] && z + t == z + init + [c];
      LinesSnoc(init, c);
      LinesSnoc(z + init, c);
    }
  }

  lemma {:induction false} LinesBeforeNewlines(t: Bytes, z: Bytes)
    requires forall k :: 0 <= k < |z| ==> z[k] == LF
    ensures Lines(t + z) == Lines(t)
    decreases |z|
  {
    if z == [] {
      assert t + z == t;
    } else {
      assert (t + z)[..|t + z| - 1] == t + z[..|z| - 1];
      LinesBeforeNewlines(t, z[..|z| - 1]);
    }
  }

  lemma LinesSnoc(t: Bytes, c: byte)
    ensures c == LF ==> Lines(t + [c]) == Lines(t)
    ensures c != LF && (t == [] || t[|t| - 1] == LF) ==> Lines(t + [c]) == Lines(t) + [[c]]
    ensures c != LF && t != [] && t[|t| - 1] != LF ==>
              Lines(t + [c]) == ExtendLast(Lines(t), c)
  {
    assert (t + [c])[..|t|] == t;
  }

  lemma JoinSnoc(lines: seq<Bytes>, l: Bytes)
    requires lines != []
    ensures Join(lines + [l]) == Join(lines) + [LF] + l
  {
    assert (lines + [l])[..|lines|] == lines;
  }

  lemma JoinGrow(lines: seq<Bytes>, c: byte)
    requires lines != [] && c != LF && forall l :: l in lines ==> IsLine(l)
    ensures Join(ExtendLast(lines, c)) == Join(lines) + [c]
  {
    assert ExtendLast(lines, c)[..|lines| - 1] == lines[..|lines| - 1];
  }

  /** The text between its first and its last byte that is not a newline. */
  method StripNewlines(text: Bytes) returns (stripped: Bytes)
    ensures Lines(stripped) == Lines(text)
    ensures stripped != [] ==> stripped[0] != LF && stripped[|stripped| - 1] != LF
  {
    hide Lines;
    var first := 0;
    while first < |text| && text[first] == LF
      invariant first <= |text| && forall k :: 0 <= k < first ==> text[k] == LF
    {
      first := first + 1;
    }
    if first == |text| {
      OnlyNewlines(text);
      return [];
    }
    var last := |text| - 1;
    while text[last] == LF
      invariant first <= last < |text| && forall k :: last < k < |text| ==> text[k] == LF
      decreases last
    {
      last := last - 1;
    }
    stripped := text[first..last + 1];
    NewlinesAround(text, first, last + 1);
  }

  lemma OnlyNewlines(text: Bytes)
    requires forall k :: 0 <= k < |text| ==> text[k] == LF
    ensures Lines(text) == Lines([])
  {
    hide Lines;
    LinesAfterNewlines(text, []);
    assert text + [] == text;
  }

  lemma NewlinesAround(text: Bytes, first: nat, end: nat)
    requires first <= end <= |text|
    requires forall k :: 0 <= k < first ==> text[k] == LF
    requires forall k :: end <= k < |text| ==> text[k] == LF
    ensures Lines(text[first..end]) == Lines(text)
  {
    hide Lines;
    NewlinesAfter(text, end);
    NewlinesBefore(text[..end], first);
    assert text[..end][first..] == text[first..end];
  }

  lemma NewlinesBefore(text: Bytes, first: nat)
    requires first <= |text| && forall k :: 0 <= k < first ==> text[k] == LF
    ensures Lines(text[first..]) == Lines(text)
  {
    hide Lines;
    LinesAfterNewlines(text[..first], text[first..]);
    assert text == text[..first] + text[first..];
  }

  lemma NewlinesAfter(text: Bytes, end: nat)
    requires end <= |text| && forall k :: end <= k < |text| ==> text[k] == LF
    ensures Lines(text[..end]) == Lines(text)
  {
    hide Lines;
    LinesBeforeNewlines(text[..end], text[end..]);
    assert text == text[..end] + text[end..];
  }

  method MakeLegalContent(text: Bytes) returns (out: Bytes)
    ensures out == LegalContent(text)
  {
    hide Join, Lines, ExtendLast;
    var stripped := StripNewlines(text);
    out := [];
    var prevNl := false;
    JoinNothing();
    for i := 0 to |stripped|
      invariant prevNl <==> i > 0 && stripped[i - 1] == LF
      invariant i > 0 ==> Lines(stripped[..i]) != []
      invariant out == Join(Lines(stripped[..i])) + if prevNl then [LF] else []
    {
      var c := stripped[i];
      CollapseStep(stripped[..i], c);
      assert stripped[..i + 1] == stripped[..i] + [c];
      if c == LF {
        if !prevNl {
          out := out + [c];
        }
        prevNl := true;
      } else {
        prevNl := false;
        out := out + [c];
      }
    }
    assert stripped[..|stripped|] == stripped;
  }

  /** One more byte: a newline adds no line, any other byte starts a line or extends the last one. */
  lemma CollapseStep(seen: Bytes, c: byte)
    requires seen != [] ==> Lines(seen) != []
    requires seen == [] ==> c != LF
    ensures Lines(seen + [c]) != []
    ensures c == LF ==> Join(Lines(seen + [c])) == Join(Lines(seen))
    ensures c != LF && seen == [] ==> Join(Lines(seen + [c])) == [c] && Join(Lines(seen)) == []
    ensures c != LF && seen != [] && seen[|seen| - 1] == LF ==>
              Join(Lines(seen + [c])) == Join(Lines(seen)) + [LF] + [c]
    ensures c != LF && seen != [] && seen[|seen| - 1] != LF ==>
              Join(Lines(seen + [c])) == Join(Lines(seen)) + [c]
  {
    hide Join, Lines, ExtendLast;
    LinesSnoc(seen, c);
    if c != LF {
      if seen == [] {
        JoinNothing();
        JoinOne([c]);
        assert Lines(seen) + [[c]] == [[c]];
      } else if seen[|seen| - 1] == LF {
        JoinSnoc(Lines(seen), [c]);
      } else {
        JoinGrow(Lines(seen), c);
      }
    }
  }

  lemma JoinNothing()
    ensures Lines([]) == [] && Join([]) == []
  {}

  lemma JoinOne(l: Bytes)
    ensures Join([l]) == l
  {}

  predicate IsBlankByte(c: byte) {
    c == SPACE || c == TAB || c == CR || c == LF
  }

  predicate IsBlank(text: Bytes) {
    forall k :: 0 <= k < |text| ==> IsBlankByte(text[k])
  }

  // ---- Sorting -----------------------------------------------------------------------

  predicate Less(a: Cue, b: Cue) {
    a.start.millis < b.start.millis || (a.start.millis == b.start.millis && a.end.millis < b.end.millis)
  }

  /** `x` goes behind every element it is not less than. */
  function Insert(sorted: seq<Cue>, x: Cue): seq<Cue> {
    if sorted == [] || !Less(x, sorted[|sorted| - 1]) then sorted + [x]
    else Insert(sorted[..|sorted| - 1], x) + [sorted[|sorted| - 1]]
  }

  function Sorted(cues: seq<Cue>): (r: seq<Cue>)
  {
    if cues == [] then [] else Insert(Sorted(cues[..|cues| - 1]), cues[|cues| - 1])
  }

  /** The cues an index sequence selects. */
  function Select(cues: seq<Cue>, order: seq<nat>): (r: seq<Cue>)
    requires forall k :: 0 <= k < |order| ==> order[k] < |cues|
    ensures |r| == |order| && forall k :: 0 <= k < |r| ==> r[k] == cues[order[k]]
  {
    seq(|order|, k requires 0 <= k < |order| => cues[order[k]])
  }

  /**
    * A stable in-place sort of the index array by the key of the cue at each index; it stands for
    * `std::stable_sort`, whose contract fixes the result (lemma `StableSortUnique`).
    */
  method StableSort(order: array<nat>, cues: seq<Cue>)
    requires forall k :: 0 <= k < order.Length ==> order[k] < |cues|
    modifies order
    ensures forall k :: 0 <= k < order.Length ==> order[k] < |cues|
    ensures Select(cues, order[..]) == Sorted(Select(cues, old(order[..])))
  {
    hide Sorted, Insert, Less;
    ghost var input := Select(cues, order[..]);
    SortedNothing();
    for i := 0 to order.Length
      invariant forall k :: 0 <= k < order.Length ==> order[k] < |cues|
      invariant Select(cues, order[..i]) == Sorted(input[..i])
      invariant order[i..] == old(order[i..])
    {
      assert cues[order[i]] == input[i];
      SortedStep(input, i);
      InsertInPlace(order, i, cues);
    }
    assert order[..order.Length] == order[..] && input[..order.Length] == input;
  }

  /** Moves the element at `i` down into the sorted stretch below it. */
  method InsertInPlace(order: array<nat>, i: nat, cues: seq<Cue>)
    requires i < order.Length && forall k :: 0 <= k < order.Length ==> order[k] < |cues|
    modifies order
    ensures forall k :: 0 <= k < order.Length ==> order[k] < |cues|
    ensures Select(cues, order[..i + 1]) == Insert(Select(cues, old(order[..i])), cues[old(order[i])])
    ensures order[i + 1..] == old(order[i + 1..])
  {
    hide Insert, Less;
    ghost var before := order[..];
    ghost var sorted := Select(cues, before[..i]);
    var x := order[i];
    var j := i;
    InsertNothing(sorted, cues[x]);
    while j > 0 && Less(cues[x], cues[order[j - 1]])
      invariant j <= i
      invariant forall k :: 0 <= k <= j ==> order[k] == before[k]
      invariant forall k :: j < k <= i ==> order[k] == before[k - 1]
      invariant forall k :: i < k < order.Length ==> order[k] == before[k]
      invariant Insert(sorted, cues[x]) == Insert(sorted[..j], cues[x]) + sorted[j..]
    {
      InsertStep(sorted, j, cues[x]);
      order[j] := order[j - 1];
      j := j - 1;
    }
    InsertStep(sorted, j, cues[x]);
    SelectPlaced(cues, before[..i], j, x);
    order[j] := x;
    PlacedIs(before, order[..], i, j, x);
  }

  lemma PlacedIs(before: seq<nat>, after: seq<nat>, i: nat, j: nat, x: nat)
    requires |before| == |after| && j <= i < |before| && after[j] == x
    requires forall k :: 0 <= k < j ==> after[k] == before[k]
    requires forall k :: j < k <= i ==> after[k] == before[k - 1]
    requires forall k :: i < k < |before| ==> after[k] == before[k]
    ensures after[..i + 1] == before[..i][..j] + [x] + before[..i][j..]
    ensures after[i + 1..] == before[i + 1..]
  {}

  lemma SelectPlaced(cues: seq<Cue>, order: seq<nat>, j: nat, x: nat)
    requires j <= |order| && x < |cues| && forall k :: 0 <= k < |order| ==> order[k] < |cues|
    ensures Select(cues, order[..j] + [x] + order[j..]) ==
            Select(cues, order)[..j] + [cues[x]] + Select(cues, order)[j..]
  {}

  lemma SortedNothing()
    ensures Sorted([]) == []
  {}

  lemma SortedStep(cues: seq<Cue>, i: nat)
    requires i < |cues|
    ensures Sorted(cues[..i + 1]) == Insert(Sorted(cues[..i]), cues[i])
  {
    assert cues[..i + 1][..i] == cues[..i];
  }

  lemma InsertNothing(sorted: seq<Cue>, x: Cue)
    ensures Insert(sorted, x) == Insert(sorted[..|sorted|], x) + sorted[|sorted|..]
  {
    assert sorted[..|sorted|] == sorted;
  }

  lemma InsertStep(sorted: seq<Cue>, j: nat, x: Cue)
    requires j <= |sorted|
    ensures j == 0 || !Less(x, sorted[j - 1]) ==>
              Insert(sorted[..j], x) + sorted[j..] == sorted[..j] + [x] + sorted[j..]
    ensures j > 0 && Less(x, sorted[j - 1]) ==>
              Insert(sorted[..j], x) + sorted[j..] == Insert(sorted[..j - 1], x) + sorted[j - 1..]
  {
    if j > 0 && Less(x, sorted[j - 1]) {
      assert sorted[..j][..j - 1] == sorted[..j - 1];
      assert Insert(sorted[..j], x) == Insert(sorted[..j - 1], x) + [sorted[j - 1]];
      assert sorted[j - 1..] == [sorted[j - 1]] + sorted[j..];
    }
  }

  // ---- Composing ------------------------------------------------------------------------

  predicate IsKept(c: Cue) {
    c.start.millis < c.end.millis && !IsBlank(c.text)
  }

  function Kept(cues: seq<Cue>): seq<Cue> {
    if cues == [] then []
    else (if IsKept(cues[0]) then [cues[0]] else []) + Kept(cues[1..])
  }

  const ARROW: Bytes := [32, 45, 45, 62, 32] // " --> "
  const BLANK_LINE: Bytes := [10, 10]

  function Block(idx: nat, c: Cue): Bytes {
    Decimal(idx) + [LF] + Timestamp(c.start) + ARROW + Timestamp(c.end) + [LF] + LegalContent(c.text) + BLANK_LINE
  }

  function Blocks(cues: seq<Cue>, idx: nat): Bytes {
    if cues == [] then [] else Block(idx, cues[0]) + Blocks(cues[1..], idx + 1)
  }

  /** The SRT text of the cues. */
  function Srt(cues: seq<Cue>): Bytes {
    Blocks(Kept(Sorted(cues)), 1)
  }

  method Compose(cues: seq<Cue>) returns (out: Bytes)
    ensures out == Srt(cues)
  {
    hide Sorted, Kept, Blocks, Block, LegalContent, Timestamp, Decimal;
    var order := new nat[|cues|];
    for k := 0 to |cues|
      invariant forall j :: 0 <= j < k ==> order[j] == j
    {
      order[k] := k;
    }
    assert Select(cues, order[..]) == cues;
    StableSort(order, cues);
    ghost var sorted := Select(cues, order[..]);

    out := [];
    var idx := 1;
    assert sorted[0..] == sorted;
    for k := 0 to order.Length
      invariant idx >= 1
      invariant forall j :: 0 <= j < order.Length ==> order[j] < |cues|
      invariant sorted == Select(cues, order[..])
      invariant out + Blocks(Kept(sorted[k..]), idx) == Srt(cues)
    {
      var cue := cues[order[k]];
      KeptStep(sorted, k);
      if cue.start.millis >= cue.end.millis {
        continue;
      }
      if IsBlank(cue.text) {
        continue;
      }
      BlocksStep(cue, Kept(sorted[k + 1..]), idx);
      var content := MakeLegalContent(cue.text);
      ghost var before := out;
      out := out + Decimal(idx);
      out := out + [LF];
      out := out + Timestamp(cue.start);
      out := out + ARROW;
      out := out + Timestamp(cue.end);
      out := out + [LF];
      out := out + content;
      out := out + BLANK_LINE;
      BlockIs(before, out, idx, cue);
      idx := idx + 1;
    }
    KeptDone(sorted, idx);
  }

  lemma KeptStep(cues: seq<Cue>, k: nat)
    requires k < |cues|
    ensures Kept(cues[k..]) == (if IsKept(cues[k]) then [cues[k]] else []) + Kept(cues[k + 1..])
    ensures !IsKept(cues[k]) ==> Kept(cues[k..]) == Kept(cues[k + 1..])
  {
    assert cues[k..][1..] == cues[k + 1..];
  }

  lemma KeptDone(cues: seq<Cue>, idx: nat)
    ensures Blocks(Kept(cues[|cues|..]), idx) == []
  {}

  lemma BlocksStep(c: Cue, rest: seq<Cue>, idx: nat)
    ensures Blocks([c] + rest, idx) == Block(idx, c) + Blocks(rest, idx + 1)
  {
    assert ([c] + rest)[1..] == rest;
  }

  lemma BlockIs(before: Bytes, after: Bytes, idx: nat, c: Cue)
    requires after == before + Decimal(idx) + [LF] + Timestamp(c.start) + ARROW + Timestamp(c.end) + [LF]
                      + LegalContent(c.text) + BLANK_LINE
    ensures after == before + Block(idx, c)
  {
    hide Decimal, Timestamp, LegalContent;
  }
}
