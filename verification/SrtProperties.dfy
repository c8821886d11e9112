/** The sort is the stable sort, and a reader inverts the printed text. */
module SrtProperties {
  import opened Bytes
  import opened SubtitleTime
  import opened SrtComposer

  // ---- The sort is ordered and stable, and no other arrangement is ------------------------

  predicate SameKey(a: Cue, b: Cue) {
    a.start == b.start && a.end == b.end
  }

  ghost predicate Ordered(cues: seq<Cue>) {
    forall i, j :: 0 <= i < j < |cues| ==> !Less(cues[j], cues[i])
  }

  /** The cues with the same start and end as `key`, in order. */
  function WithKey(cues: seq<Cue>, key: Cue): seq<Cue> {
    if cues == [] then []
    else (if SameKey(cues[0], key) then [cues[0]] else []) + WithKey(cues[1..], key)
  }

  /** `b` rearranges `a` without reordering cues of the same start and end. */
  ghost predicate StablePermutation(a: seq<Cue>, b: seq<Cue>) {
    forall key :: WithKey(a, key) == WithKey(b, key)
  }

  lemma {:induction false} WithKeyAppend(a: seq<Cue>, b: seq<Cue>, key: Cue)
    ensures WithKey(a + b, key) == WithKey(a, key) + WithKey(b, key)
  {
    if a == [] {
      assert a + b == b;
    } else {
      assert (a + b)[1..] == a[1..] + b && (a + b)[0] == a[0];
      WithKeyAppend(a[1..], b, key);
    }
  }

  lemma {:induction false} InsertIsStable(sorted: seq<Cue>, x: Cue, key: Cue)
    requires Ordered(sorted)
    ensures WithKey(Insert(sorted, x), key) == WithKey(sorted, key) + WithKey([x], key)
  {
    if sorted == [] || !Less(x, sorted[|sorted| - 1]) {
      WithKeyAppend(sorted, [x], key);
    } else {
      var init, last := sorted[..|sorted| - 1], sorted[|sorted| - 1];
      InsertIsStable(init, x, key);
      assert sorted == init + [last];
      WithKeyAppend(init, [last], key);
      WithKeyAppend(Insert(init, x), [last], key);
    }
  }

  lemma {:induction false} InsertMembers(sorted: seq<Cue>, x: Cue)
    ensures forall c :: c in Insert(sorted, x) <==> c in sorted || c == x
  {
    if sorted != [] && Less(x, sorted[|sorted| - 1]) {
      InsertMembers(sorted[..|sorted| - 1], x);
      assert sorted == sorted[..|sorted| - 1] + [sorted[|sorted| - 1]];
    }
  }

  lemma {:induction false} InsertIsOrdered(sorted: seq<Cue>, x: Cue)
    requires Ordered(sorted)
    ensures Ordered(Insert(sorted, x))
  {
    if sorted == [] || !Less(x, sorted[|sorted| - 1]) {
    } else {
      var init, last := sorted[..|sorted| - 1], sorted[|sorted| - 1];
      InsertIsOrdered(init, x);
      InsertMembers(init, x);
      OrderedSnoc(Insert(init, x), last);
    }
  }

  lemma OrderedSnoc(cues: seq<Cue>, last: Cue)
    requires Ordered(cues) && forall c :: c in cues ==> !Less(last, c)
    ensures Ordered(cues + [last])
  {}

  lemma {:induction false} SortedIsStableSort(cues: seq<Cue>)
    ensures Ordered(Sorted(cues)) && StablePermutation(cues, Sorted(cues))
  {
    if cues != [] {
      var init, last := cues[..|cues| - 1], cues[|cues| - 1];
      SortedIsStableSort(init);
      InsertIsOrdered(Sorted(init), last);
      forall key
        ensures WithKey(cues, key) == WithKey(Sorted(cues), key)
      {
        InsertIsStable(Sorted(init), last, key);
        assert cues == init + [last];
        WithKeyAppend(init, [last], key);
      }
    }
  }

  lemma HeadHasKey(cues: seq<Cue>)
    ensures cues == [] || WithKey(cues, cues[0]) != []
  {}

  lemma {:induction false} WithKeyMember(cues: seq<Cue>, key: Cue)
    requires WithKey(cues, key) != []
    ensures exists c :: c in cues && SameKey(c, key)
  {
    if SameKey(cues[0], key) {
      assert cues[0] in cues;
    } else {
      WithKeyMember(cues[1..], key);
    }
  }

  lemma HeadNotAbove(a: seq<Cue>, b: seq<Cue>)
    requires a != [] && b != [] && Ordered(b) && WithKey(a, a[0]) == WithKey(b, a[0])
    ensures !Less(a[0], b[0])
  {
    WithKeyMember(b, a[0]);
    var c :| c in b && SameKey(c, a[0]);
    var k :| 0 <= k < |b| && b[k] == c;
    assert k > 0 ==> !Less(b[k], b[0]);
  }

  /** Order and stability leave one result: any stable sort gives this arrangement. */
  lemma {:induction false} StableSortUnique(a: seq<Cue>, b: seq<Cue>)
    requires Ordered(a) && Ordered(b) && StablePermutation(a, b)
    ensures a == b
    decreases |a|
  {
    if a == [] {
      HeadHasKey(b);
    } else {
      assert WithKey(a, a[0]) == WithKey(b, a[0]);
      assert b != [];
      assert WithKey(a, b[0]) == WithKey(b, b[0]);
      HeadNotAbove(a, b);
      HeadNotAbove(b, a);
      assert SameKey(a[0], b[0]);
      assert a[0] == WithKey(a, a[0])[0] == WithKey(b, a[0])[0] == b[0];
      forall key
        ensures WithKey(a[1..], key) == WithKey(b[1..], key)
      {
        var first := if SameKey(a[0], key) then [a[0]] else [];
        assert WithKey(a, key) == first + WithKey(a[1..], key);
        assert WithKey(b, key) == first + WithKey(b[1..], key);
        assert WithKey(a[1..], key) == WithKey(a, key)[|first|..];
        assert WithKey(b[1..], key) == WithKey(b, key)[|first|..];
      }
      StableSortUnique(a[1..], b[1..]);
    }
  }

  // ---- Filtering commutes with sorting ------------------------------------------------------

  lemma {:induction false} KeptAppend(a: seq<Cue>, b: seq<Cue>)
    ensures Kept(a + b) == Kept(a) + Kept(b)
  {
    if a == [] {
      assert a + b == b;
    } else {
      hide IsKept;
      assert (a + b)[1..] == a[1..] + b && (a + b)[0] == a[0];
      KeptAppend(a[1..], b);
      var first := if IsKept(a[0]) then [a[0]] else [];
      assert Kept(a + b) == first + Kept(a[1..] + b) && Kept(a) == first + Kept(a[1..]);
    }
  }

  lemma {:induction false} KeptMembers(cues: seq<Cue>)
    ensures forall c :: c in Kept(cues) <==> c in cues && IsKept(c)
  {
    if cues != [] {
      KeptMembers(cues[1..]);
      assert cues == [cues[0]] + cues[1..];
    }
  }

  lemma {:induction false} KeptWithKey(cues: seq<Cue>, key: Cue)
    ensures WithKey(Kept(cues), key) == Kept(WithKey(cues, key))
  {
    if cues != [] {
      KeptWithKey(cues[1..], key);
      var keep := if IsKept(cues[0]) then [cues[0]] else [];
      var same := if SameKey(cues[0], key) then [cues[0]] else [];
      WithKeyAppend(keep, Kept(cues[1..]), key);
      KeptAppend(same, WithKey(cues[1..], key));
      assert Kept([cues[0]]) == keep by {
        assert Kept([cues[0]][1..]) == [];
      }
    }
  }

  lemma {:induction false} KeptOrdered(cues: seq<Cue>)
    requires Ordered(cues)
    ensures Ordered(Kept(cues))
  {
    if cues != [] {
      KeptOrdered(cues[1..]);
      KeptMembers(cues[1..]);
      assert forall c :: c in cues[1..] ==> !Less(c, cues[0]);
    }
  }

  /** It does not matter whether cues are dropped before or after sorting. */
  lemma KeptSorted(cues: seq<Cue>)
    ensures Kept(Sorted(cues)) == Sorted(Kept(cues))
  {
    hide Kept, Sorted, WithKey, Ordered;
    SortedIsStableSort(cues);
    SortedIsStableSort(Kept(cues));
    KeptOrdered(Sorted(cues));
    forall key
      ensures WithKey(Kept(Sorted(cues)), key) == WithKey(Sorted(Kept(cues)), key)
    {
      KeptWithKey(Sorted(cues), key);
      KeptWithKey(cues, key);
      assert WithKey(cues, key) == WithKey(Sorted(cues), key);
      assert WithKey(Kept(cues), key) == WithKey(Sorted(Kept(cues)), key);
    }
    StableSortUnique(Kept(Sorted(cues)), Sorted(Kept(cues)));
  }

  lemma {:induction false} SortedMembers(cues: seq<Cue>)
    ensures forall c :: c in Sorted(cues) <==> c in cues
  {
    if cues != [] {
      var init, last := cues[..|cues| - 1], cues[|cues| - 1];
      SortedMembers(init);
      InsertMembers(Sorted(init), last);
      assert cues == init + [last];
    }
  }

  /** When no cue of `b` comes before a cue of `a`, sorting them together sorts them apart. */
  lemma SortedApart(a: seq<Cue>, b: seq<Cue>)
    requires forall x, y :: x in a && y in b ==> !Less(y, x)
    ensures Sorted(a + b) == Sorted(a) + Sorted(b)
  {
    hide Sorted, WithKey;
    SortedIsStableSort(a + b);
    SortedIsStableSort(a);
    SortedIsStableSort(b);
    SortedMembers(a);
    SortedMembers(b);
    var c := Sorted(a) + Sorted(b);
    forall key
      ensures WithKey(Sorted(a + b), key) == WithKey(c, key)
    {
      WithKeyAppend(a, b, key);
      WithKeyAppend(Sorted(a), Sorted(b), key);
      assert WithKey(a + b, key) == WithKey(Sorted(a + b), key);
    }
    StableSortUnique(Sorted(a + b), c);
  }

  // ---- Cleaned text --------------------------------------------------------------------------

  ghost predicate NoBlankLine(t: Bytes) {
    forall k :: 0 <= k < |t| - 1 ==> !(t[k] == LF && t[k + 1] == LF)
  }

  ghost predicate Legal(t: Bytes) {
    t != [] && t[0] != LF && t[|t| - 1] != LF && NoBlankLine(t)
  }

  lemma {:induction false} JoinIsLegal(lines: seq<Bytes>)
    requires lines != [] && forall l :: l in lines ==> IsLine(l)
    ensures Legal(Join(lines))
  {
    var last := lines[|lines| - 1];
    assert IsLine(last);
    if |lines| == 1 {
    } else {
      var init := lines[..|lines| - 1];
      assert forall l :: l in init ==> l in lines;
      JoinIsLegal(init);
      var t := Join(init) + [LF] + last;
      forall k | 0 <= k < |t| - 1
        ensures !(t[k] == LF && t[k + 1] == LF)
      {
        if k > |Join(init)| {
          assert t[k] == last[k - |Join(init)| - 1];
        } else if k == |Join(init)| {
          assert t[k + 1] == last[0];
        } else if k == |Join(init)| - 1 {
          assert t[k] == Join(init)[k];
        } else {
          assert t[k] == Join(init)[k] && t[k + 1] == Join(init)[k + 1];
        }
      }
    }
  }

  lemma {:induction false} LinesOfLine(t: Bytes, l: Bytes)
    requires IsLine(l)
    ensures t == [] ==> Lines(l) == [l]
    ensures Lines(t + [LF] + l) == Lines(t) + [l]
    decreases |l|
  {
    hide Lines, ExtendLast;
    var n := |l| - 1;
    var init, c := l[..n], l[n];
    assert l == init + [c] && c in l;
    LinesSnoc(init, c);
    LinesSnoc(t + [LF] + init, c);
    assert t + [LF] + l == t + [LF] + init + [c];
    if n == 0 {
      JoinNothing();
      assert t + [LF] + init == t + [LF];
      LinesSnoc(t, LF);
      assert [] + [[c]] == [l];
    } else {
      assert IsLine(init);
      LinesOfLine(t, init);
      assert [] + [init] == [init] && [] + [l] == [l];
    }
  }

  lemma {:induction false} LinesOfJoin(lines: seq<Bytes>)
    requires forall l :: l in lines ==> IsLine(l)
    ensures Lines(Join(lines)) == lines
  {
    hide Lines;
    if lines == [] {
      JoinNothing();
    } else {
      var init, last := lines[..|lines| - 1], lines[|lines| - 1];
      assert lines == init + [last] && last in lines && forall l :: l in init ==> l in lines;
      LinesOfJoin(init);
      LinesOfLine(Join(init), last);
      if |lines| == 1 {
        LinesOfLine([], last);
        assert lines == [last];
      }
    }
  }

  /** Cleaning keeps every non-empty line, and cleaning twice changes nothing more. */
  lemma CleaningKeepsLines(text: Bytes)
    ensures Lines(LegalContent(text)) == Lines(text)
    ensures LegalContent(LegalContent(text)) == LegalContent(text)
  {
    LinesOfJoin(Lines(text));
  }

  lemma {:induction false} NonBlankHasLine(text: Bytes)
    requires !IsBlank(text)
    ensures Lines(text) != []
  {
    hide ExtendLast;
    var n := |text| - 1;
    if text[n] == LF {
      assert !IsBlank(text[..n]) by {
        var k :| 0 <= k < |text| && !IsBlankByte(text[k]);
        assert text[..n][k] == text[k];
      }
      NonBlankHasLine(text[..n]);
    }
  }

  /** The text of a kept cue is legal once cleaned: no blank line can end its block early. */
  lemma KeptTextIsLegal(c: Cue)
    requires IsKept(c)
    ensures Legal(LegalContent(c.text))
  {
    NonBlankHasLine(c.text);
    JoinIsLegal(Lines(c.text));
  }

  // ---- Reading SRT -----------------------------------------------------------------------------

  datatype Entry = Entry(number: nat, start: Time, end: Time, text: Bytes)

  /** One block: number, time line, text up to the first blank line. */
  function ReadEntry(s: Bytes): (r: Option<(Entry, Bytes)>)
    ensures r.Some? ==> |r.value.1| < |s|
  {
    var (number, s1) :- ReadNumber(s);
    var s2 :- Expect(s1, [LF]);
    var (start, s3) :- ReadTime(s2);
    var s4 :- Expect(s3, ARROW);
    var (end, s5) :- ReadTime(s4);
    var s6 :- Expect(s5, [LF]);
    var stop := FindSub(s6, BLANK_LINE, 0);
    if stop.None? then None
    else
      ReadTimeShrinks(s2);
      ReadTimeShrinks(s4);
      Some((Entry(number, start, end, s6[..stop.value]), s6[stop.value + 2..]))
  }

  lemma ReadTimeShrinks(s: Bytes)
    ensures ReadTime(s).Some? ==> |ReadTime(s).value.1| <= |s|
  {}

  function ReadSrt(s: Bytes): Option<seq<Entry>>
    decreases |s|
  {
    if s == [] then Some([])
    else
      var (entry, rest) :- ReadEntry(s);
      var entries :- ReadSrt(rest);
      Some([entry] + entries)
  }

  /** The entry a kept cue is printed as. */
  function EntryOf(number: nat, c: Cue): Entry {
    Entry(number, c.start, c.end, LegalContent(c.text))
  }

  function EntriesFrom(cues: seq<Cue>, first: nat): (r: seq<Entry>)
    ensures |r| == |cues| && forall k :: 0 <= k < |r| ==> r[k] == EntryOf(first + k, cues[k])
  {
    seq(|cues|, k requires 0 <= k < |cues| => EntryOf(first + k, cues[k]))
  }

  lemma LegalEndsAtBlankLine(t: Bytes, rest: Bytes)
    requires Legal(t)
    ensures FindSub(t + BLANK_LINE + rest, BLANK_LINE, 0) == Some(|t|)
  {
    var s := t + BLANK_LINE + rest;
    forall k | 0 <= k < |t|
      ensures !Occurs(s, BLANK_LINE, k)
    {
      assert s[k..k + 2] == [s[k], s[k + 1]];
      assert s[k] == t[k] && (k + 1 < |t| ==> s[k + 1] == t[k + 1]);
    }
    assert s[|t|..|t| + 2] == BLANK_LINE;
    assert Occurs(s, BLANK_LINE, |t|);
  }

  lemma ReadBlock(number: nat, c: Cue, rest: Bytes)
    requires IsKept(c)
    ensures ReadEntry(Block(number, c) + rest) == Some((EntryOf(number, c), rest))
  {
    hide ReadNumber, ReadTime, Timestamp, FindSub, LegalContent, Decimal, Block, Legal;
    var s6 := LegalContent(c.text) + BLANK_LINE + rest;
    var s5 := [LF] + s6;
    var s3 := ARROW + (Timestamp(c.end) + s5);
    var s1 := [LF] + (Timestamp(c.start) + s3);
    BlockParts(number, c, rest);
    ReadPadded(number, 0, s1);
    ReadTimestamp(c.start, s3);
    ReadTimestamp(c.end, s5);
    KeptTextIsLegal(c);
    LegalEndsAtBlankLine(LegalContent(c.text), rest);
    TextSplits(LegalContent(c.text), rest);
  }

  lemma BlockParts(number: nat, c: Cue, rest: Bytes)
    ensures Block(number, c) + rest ==
            Padded(number, 0) + ([LF] + (Timestamp(c.start) + (ARROW + (Timestamp(c.end) +
            ([LF] + (LegalContent(c.text) + BLANK_LINE + rest))))))
  {
    hide Timestamp, LegalContent, Decimal;
    assert Padded(number, 0) == Decimal(number);
  }

  lemma TextSplits(text: Bytes, rest: Bytes)
    ensures (text + BLANK_LINE + rest)[..|text|] == text
    ensures (text + BLANK_LINE + rest)[|text| + 2..] == rest
  {}

  lemma {:induction false} ReadBlocks(cues: seq<Cue>, first: nat)
    requires forall c :: c in cues ==> IsKept(c)
    ensures ReadSrt(Blocks(cues, first)) == Some(EntriesFrom(cues, first))
  {
    hide ReadEntry, Block, ReadSrt, EntriesFrom;
    if cues == [] {
      ReadNothing();
    } else {
      assert cues[0] in cues && forall c :: c in cues[1..] ==> c in cues;
      ReadBlock(first, cues[0], Blocks(cues[1..], first + 1));
      ReadBlocks(cues[1..], first + 1);
      EntriesCons(cues, first);
      ReadSrtStep(Block(first, cues[0]) + Blocks(cues[1..], first + 1));
    }
  }

  lemma EntriesCons(cues: seq<Cue>, first: nat)
    requires cues != []
    ensures EntriesFrom(cues, first) == [EntryOf(first, cues[0])] + EntriesFrom(cues[1..], first + 1)
  {}

  lemma ReadNothing()
    ensures ReadSrt([]) == Some([])
  {}

  lemma ReadSrtStep(s: Bytes)
    ensures ReadEntry(s).Some? && ReadSrt(ReadEntry(s).value.1).Some? ==>
              ReadSrt(s) == Some([ReadEntry(s).value.0] + ReadSrt(ReadEntry(s).value.1).value)
  {}

  /**
    * Reading the composed text gives exactly the kept cues in stable order of start and end,
    * numbered from one, with their times to the millisecond and their cleaned text.
    */
  lemma ReadInvertsCompose(cues: seq<Cue>)
    ensures ReadSrt(Srt(cues)) == Some(EntriesFrom(Kept(Sorted(cues)), 1))
  {
    KeptMembers(Sorted(cues));
    ReadBlocks(Kept(Sorted(cues)), 1);
  }

  // ---- Which cues are read back, and in which order ---------------------------------------------

  predicate HasVisibleByte(text: Bytes) {
    exists k :: 0 <= k < |text| && text[k] != 32 && text[k] != 9 && text[k] != 13 && text[k] != 10
  }

  /** The cue ends after it starts and has a byte other than space, tab, CR and LF. */
  predicate Shown(c: Cue) {
    c.start.millis < c.end.millis && HasVisibleByte(c.text)
  }

  /** The lines of the shown cues with these times, cue by cue. */
  function ShownLines(cues: seq<Cue>, start: Time, end: Time): seq<seq<Bytes>> {
    if cues == [] then []
    else
      var c := cues[0];
      (if Shown(c) && c.start == start && c.end == end then [Lines(c.text)] else []) + ShownLines(cues[1..], start, end)
  }

  function EntryLines(entries: seq<Entry>, start: Time, end: Time): seq<seq<Bytes>> {
    if entries == [] then []
    else
      var e := entries[0];
      (if e.start == start && e.end == end then [Lines(e.text)] else []) + EntryLines(entries[1..], start, end)
  }

  /** Numbered from one, ordered by start and then by end, with no blank line in any text. */
  ghost predicate WellOrdered(entries: seq<Entry>) {
    && (forall k :: 0 <= k < |entries| ==> entries[k].number == k + 1 && Legal(entries[k].text))
    && (forall i, j :: 0 <= i < j < |entries| ==>
          || entries[i].start.millis < entries[j].start.millis
          || (entries[i].start == entries[j].start && entries[i].end.millis <= entries[j].end.millis))
  }

  /**
    * A reader of the printed text sees, numbered and in the order of their times, exactly the shown
    * cues: for every start and end, the entries have the lines of those cues, each once, in the order fed.
    */
  lemma ReadsShownCues(cues: seq<Cue>)
    ensures var r := ReadSrt(Srt(cues));
            && r.Some? && WellOrdered(r.value)
            && forall start, end :: EntryLines(r.value, start, end) == ShownLines(cues, start, end)
  {
    hide ReadSrt, Srt, Sorted, Kept, EntryLines, ShownLines, WithKey;
    ReadInvertsCompose(cues);
    SortedIsStableSort(cues);
    KeptOrdered(Sorted(cues));
    KeptMembers(Sorted(cues));
    var kept := Kept(Sorted(cues));
    EntriesWellOrdered(kept);
    forall start, end
      ensures EntryLines(EntriesFrom(kept, 1), start, end) == ShownLines(cues, start, end)
    {
      var key := Cue(start, end, []);
      assert WithKey(cues, key) == WithKey(Sorted(cues), key);
      KeptWithKey(Sorted(cues), key);
      EntriesWithKey(kept, 1, key);
      ShownWithKey(cues, key);
    }
  }

  /** The printed text of one shown cue, byte by byte around its times and its lines. */
  lemma OneCueText(c: Cue)
    requires Shown(c)
    ensures Srt([c]) == [49, 10] + Timestamp(c.start) + [32, 45, 45, 62, 32] + Timestamp(c.end) + [10] + Join(Lines(c.text)) + [10, 10]
  {
    hide Timestamp, Join, Lines, IsKept, Shown;
    ShownIffKept(c);
    KeptOne(c);
    assert [c][..0] == [] && Sorted([c][..0]) == [];
    assert Sorted([c]) == [c];
    BlocksStep(c, [], 1);
    assert [c] + [] == [c];
    assert Decimal(1) == [49];
  }

  lemma EntriesWellOrdered(kept: seq<Cue>)
    requires Ordered(kept) && forall c :: c in kept ==> IsKept(c)
    ensures WellOrdered(EntriesFrom(kept, 1))
  {
    hide IsKept, Legal, LegalContent;
    forall k | 0 <= k < |kept|
      ensures Legal(LegalContent(kept[k].text))
    {
      assert kept[k] in kept;
      KeptTextIsLegal(kept[k]);
    }
  }

  function CueLines(cues: seq<Cue>): (r: seq<seq<Bytes>>)
    ensures |r| == |cues| && forall k :: 0 <= k < |r| ==> r[k] == Lines(cues[k].text)
  {
    seq(|cues|, k requires 0 <= k < |cues| => Lines(cues[k].text))
  }

  lemma {:induction false} EntriesWithKey(cues: seq<Cue>, first: nat, key: Cue)
    ensures EntryLines(EntriesFrom(cues, first), key.start, key.end) == CueLines(WithKey(cues, key))
  {
    hide Lines, LegalContent;
    if cues != [] {
      EntriesCons(cues, first);
      CleaningKeepsLines(cues[0].text);
      EntriesWithKey(cues[1..], first + 1, key);
      assert EntriesFrom(cues, first)[1..] == EntriesFrom(cues[1..], first + 1);
    }
  }

  lemma {:induction false} ShownWithKey(cues: seq<Cue>, key: Cue)
    ensures ShownLines(cues, key.start, key.end) == CueLines(Kept(WithKey(cues, key)))
  {
    hide Lines, IsKept, Shown;
    if cues != [] {
      ShownIffKept(cues[0]);
      ShownWithKey(cues[1..], key);
      var same := if SameKey(cues[0], key) then [cues[0]] else [];
      KeptAppend(same, WithKey(cues[1..], key));
      KeptOne(cues[0]);
    }
  }

  lemma ShownIffKept(c: Cue)
    ensures Shown(c) <==> IsKept(c)
  {}

  lemma KeptOne(c: Cue)
    ensures Kept([c]) == if IsKept(c) then [c] else []
    ensures Kept([]) == []
  {
    hide IsKept;
    assert [c][1..] == [];
  }
}
