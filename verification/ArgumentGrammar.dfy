/** The language both command lines share: its grammar, and the agreement of the two parsers on it. */
module ArgumentGrammar {
  import opened Bytes
  import opened ArgumentParsers

  // ---- Spelling items as tokens --------------------------------------------------------------

  datatype Style = LongEquals | LongSeparate | ShortJoined | ShortSeparate

  /** An item and the way it is written. */
  datatype Spelled = Spelled(item: Item, style: Style)

  function LongName(opt: Opt): string {
    match opt
    case Text => "--text"
    case File => "--file"
    case Voice => "--voice"
    case Rate => "--rate"
    case Volume => "--volume"
    case Pitch => "--pitch"
    case Proxy => "--proxy"
    case WriteMedia => "--write-media"
    case WriteSubtitles => "--write-subtitles"
  }

  function ShortName(opt: Opt): Option<char> {
    match opt
    case Text => Some('t')
    case File => Some('f')
    case Voice => Some('v')
    case _ => None
  }

  /**
    * Only some options have a short name, a separate value must not look like an option, a value can
    * be joined to a short name only if it is not empty, and a proxy has a scheme.
    */
  predicate Legal(s: Spelled) {
    match s.item
    case ListVoices => s.style.LongSeparate? || s.style.ShortSeparate?
    case Mpv => s.style.LongSeparate?
    case Set(opt, v) =>
      && (opt == Proxy ==> HasScheme(v))
      && match s.style
         case LongEquals => true
         case LongSeparate => !IsOptionToken(v)
         case ShortJoined => ShortName(opt).Some? && v != ""
         case ShortSeparate => ShortName(opt).Some? && !IsOptionToken(v)
  }

  function Render(s: Spelled): seq<string>
    requires Legal(s)
  {
    match s.item
    case ListVoices => if s.style.LongSeparate? then ["--list-voices"] else ["-l"]
    case Mpv => ["--mpv"]
    case Set(opt, v) =>
      match s.style
      case LongEquals => [LongName(opt) + "=" + v]
      case LongSeparate => [LongName(opt), v]
      case ShortJoined => [['-', ShortName(opt).value] + v]
      case ShortSeparate => [['-', ShortName(opt).value], v]
  }

  predicate AllLegal(line: seq<Spelled>) {
    forall k :: 0 <= k < |line| ==> Legal(line[k])
  }

  function RenderAll(line: seq<Spelled>): seq<string>
    requires AllLegal(line)
  {
    if line == [] then [] else Render(line[0]) + RenderAll(line[1..])
  }

  function ItemsOf(line: seq<Spelled>): (r: seq<Item>)
    ensures |r| == |line| && forall k :: 0 <= k < |r| ==> r[k] == line[k].item
  {
    seq(|line|, k requires 0 <= k < |line| => line[k].item)
  }

  // ---- Names -----------------------------------------------------------------------------------

  lemma LongNameIsRead(opt: Opt)
    ensures EdgeLong(LongName(opt)) == Some(opt)
    ensures IsLong(LongName(opt)) && '=' !in LongName(opt) && LongName(opt) != "--list-voices"
  {
    match opt
    case Text =>
    case File => assert "--file"[2] != "--text"[2];
    case Voice =>
    case Rate => assert "--rate"[2] != "--text"[2] && "--rate"[2] != "--file"[2];
    case Volume =>
    case Pitch => assert "--pitch"[2] != "--voice"[2];
    case Proxy => assert "--proxy"[2] != "--voice"[2] && "--proxy"[3] != "--pitch"[3];
    case WriteMedia => assert "--write-media"[2] != "--list-voices"[2];
    case WriteSubtitles =>
  }

  lemma LongKeyHasName(key: string)
    requires EdgeLong(key).Some?
    ensures LongName(EdgeLong(key).value) == key
  {}

  lemma FirstEquals(key: string, v: string)
    requires '=' !in key
    ensures SplitAtEquals(key + "=" + v) == Split(key, Some(v))
    ensures SplitAtEquals(key) == Split(key, None)
  {
    var tok := key + "=" + v;
    assert forall k :: 0 <= k < |key| ==> tok[k] == key[k] && tok[k] in key;
    assert tok[|key|] == '=' && tok[|key| + 1..] == v && tok[..|key|] == key;
    var p := IndexOf(tok, '=', 0);
    assert p.Some? by {
      assert '=' in tok[0..];
    }
    assert tok[0..p.value] == tok[..p.value];
    assert IndexOf(key, '=', 0).None?;
  }

  lemma SplitJoins(tok: string)
    ensures var split := SplitAtEquals(tok);
            && '=' !in split.key
            && (split.value.Some? ==> tok == split.key + "=" + split.value.value)
            && (split.value.None? ==> tok == split.key)
  {
    var p := IndexOf(tok, '=', 0);
    if p.Some? {
      assert tok[0..p.value] == tok[..p.value];
    } else if tok != [] {
      assert tok[0..] == tok;
    }
  }

  /** A proxy is accepted exactly if it contains `://`. */
  lemma SchemeIff(url: string)
    ensures HasScheme(url) <==> exists before, after :: url == before + "://" + after
  {
    if HasScheme(url) {
      var k :| 0 <= k <= |url| - 3 && url[k] == ':' && url[k + 1] == '/' && url[k + 2] == '/';
      assert url == url[..k] + "://" + url[k + 3..];
    }
    if before, after :| url == before + "://" + after {
      assert url[|before|] == ':' && url[|before| + 1] == '/' && url[|before| + 2] == '/';
    }
  }

  lemma SchemeNotEmpty()
    ensures !HasScheme("")
  {}

  lemma FlagsHaveNoEquals()
    ensures '=' !in "--list-voices" && '=' !in "--mpv" && '=' !in "--help" && '=' !in "--version"
  {}

  /** Names that only one program has, or that are asked for first, are no setting of the other. */
  lemma ReservedNames()
    ensures CommonLong("--mpv") == None && EdgeLong("--mpv") == None
    ensures CommonLong("--list-voices") == None && EdgeLong("--list-voices") == None
    ensures CommonLong("--help") == None && EdgeLong("--help") == None
    ensures CommonLong("--version") == None && EdgeLong("--version") == None
  {
    assert "--help"[2] != "--text"[2] && "--help"[2] != "--file"[2] && "--help"[2] != "--rate"[2];
    assert "--list-voices"[2] != "--write-media"[2];
  }

  lemma ReservedKeys()
    ensures SplitAtEquals("--mpv") == Split("--mpv", None)
    ensures SplitAtEquals("--list-voices") == Split("--list-voices", None)
    ensures SplitAtEquals("--help") == Split("--help", None)
    ensures SplitAtEquals("--version") == Split("--version", None)
  {
    FlagsHaveNoEquals();
    FirstEquals("--mpv", "");
    FirstEquals("--list-voices", "");
    FirstEquals("--help", "");
    FirstEquals("--version", "");
  }

  lemma LongSettings(key: string)
    ensures CommonLong(key).Some? ==> EdgeLong(key) == CommonLong(key) && IsCommon(Set(CommonLong(key).value, ""))
    ensures EdgeLong(key).Some? && IsCommon(Set(EdgeLong(key).value, "")) ==> CommonLong(key) == EdgeLong(key)
  {}

  // ---- Reading is the inverse of spelling -------------------------------------------------------

  lemma ReadsSpelled(s: Spelled, rest: seq<string>)
    requires Legal(s) && s.item != Mpv
    ensures EdgeRead(Render(s) + rest) == Reads(s.item, |Render(s)|)
  {
    hide HasScheme, EdgeLong, LongName, CommonShort;
    if s.item.Set? {
      if s.style.LongEquals? || s.style.LongSeparate? {
        ReadsLong(s, rest);
      } else {
        ReadsShort(s, rest);
      }
    }
  }

  lemma ReadsLong(s: Spelled, rest: seq<string>)
    requires Legal(s) && s.item.Set? && (s.style.LongEquals? || s.style.LongSeparate?)
    ensures EdgeRead(Render(s) + rest) == Reads(s.item, |Render(s)|)
  {
    hide HasScheme, SplitAtEquals, EdgeLong, LongName, CommonShort;
    var tokens := Render(s) + rest;
    assert tokens[0] == Render(s)[0];
    var opt, v := s.item.opt, s.item.value;
    var name := LongName(opt);
    LongNameIsRead(opt);
    FirstEquals(name, v);
    SchemeNotEmpty();
    if s.style.LongEquals? {
      assert IsLong(tokens[0]) && tokens[0][2..] == name[2..] + "=" + v;
      assert tokens[0][|name|] == '=' && '=' in tokens[0];
      FlagsHaveNoEquals();
    } else {
      assert tokens[1] == v;
    }
  }

  lemma ReadsShort(s: Spelled, rest: seq<string>)
    requires Legal(s) && s.item.Set? && (s.style.ShortJoined? || s.style.ShortSeparate?)
    ensures EdgeRead(Render(s) + rest) == Reads(s.item, |Render(s)|)
  {
    hide HasScheme, SplitAtEquals, EdgeLong, LongName;
    var tokens := Render(s) + rest;
    var opt, v := s.item.opt, s.item.value;
    assert tokens[0] == Render(s)[0] && tokens[0][1] == ShortName(opt).value;
    if s.style.ShortJoined? {
      assert tokens[0][2..] == v;
    } else {
      assert tokens[1] == v;
    }
  }

  /** Whatever is read is some legal spelling of the item. */
  lemma ReadIsSpelled(tokens: seq<string>) returns (style: Style)
    requires tokens != [] && EdgeRead(tokens).Reads?
    ensures var r := EdgeRead(tokens);
            && r.item != Mpv
            && Legal(Spelled(r.item, style)) && Render(Spelled(r.item, style)) == tokens[..r.width]
  {
    hide HasScheme, SplitAtEquals, EdgeLong, LongName;
    var tok := tokens[0];
    var r := EdgeRead(tokens);
    SplitJoins(tok);
    assert tokens[..1] == [tok];
    if tok == "-l" {
      style := ShortSeparate;
    } else if tok == "--list-voices" {
      style := LongSeparate;
    } else if IsLong(tok) {
      var split := SplitAtEquals(tok);
      LongKeyHasName(split.key);
      style := if split.value.Some? then LongEquals else LongSeparate;
      if split.value.None? {
        assert tokens[..2] == [tok, tokens[1]];
      }
    } else {
      style := if |tok| > 2 then ShortJoined else ShortSeparate;
      if |tok| > 2 {
        assert tok == ['-', tok[1]] + tok[2..];
      } else {
        assert tok == ['-', tok[1]] && tokens[..2] == [tok, tokens[1]];
      }
    }
  }

  lemma LineCons(s: Spelled, rest: seq<Spelled>)
    requires Legal(s) && AllLegal(rest)
    ensures AllLegal([s] + rest) && RenderAll([s] + rest) == Render(s) + RenderAll(rest)
    ensures ItemsOf([s] + rest) == [s.item] + ItemsOf(rest)
    ensures s.item != Mpv && Mpv !in ItemsOf(rest) ==> Mpv !in ItemsOf([s] + rest)
  {
    hide Legal, Render;
    var line := [s] + rest;
    assert line[0] == s && line[1..] == rest;
    assert ItemsOf(line) == [s.item] + ItemsOf(rest);
  }

  /** Every legal spelling of a line is read back as its items. */
  lemma {:induction false} SpelledLineIsRead(line: seq<Spelled>)
    requires AllLegal(line) && Mpv !in ItemsOf(line)
    ensures EdgeItems(RenderAll(line)) == Line(ItemsOf(line))
    decreases |line|
  {
    hide EdgeRead, Legal, Render;
    if line != [] {
      var s, rest := line[0], RenderAll(line[1..]);
      var tokens := Render(s) + rest;
      assert s.item == ItemsOf(line)[0];
      ReadsSpelled(s, rest);
      assert forall item :: item in ItemsOf(line[1..]) ==> item in ItemsOf(line) by {
        assert ItemsOf(line[1..]) == ItemsOf(line)[1..];
      }
      SpelledLineIsRead(line[1..]);
      assert tokens[|Render(s)|..] == rest;
      assert ItemsOf(line) == [s.item] + ItemsOf(line[1..]);
    }
  }

  /** The parser accepts nothing else: a line it reads is a legal spelling of the items it reads. */
  lemma {:induction false} ReadLineIsSpelled(tokens: seq<string>) returns (line: seq<Spelled>)
    requires EdgeItems(tokens).Line?
    ensures AllLegal(line) && Mpv !in ItemsOf(line)
    ensures RenderAll(line) == tokens && EdgeItems(tokens) == Line(ItemsOf(line))
    decreases |tokens|
  {
    hide EdgeRead, Legal, Render, RenderAll, AllLegal, ItemsOf;
    line := [];
    if tokens == [] {
      NoLine();
    } else {
      var r := EdgeRead(tokens);
      var style := ReadIsSpelled(tokens);
      var rest := ReadLineIsSpelled(tokens[r.width..]);
      line := [Spelled(r.item, style)] + rest;
      LineCons(Spelled(r.item, style), rest);
      assert tokens == tokens[..r.width] + tokens[r.width..];
    }
  }

  lemma NoLine()
    ensures AllLegal([]) && RenderAll([]) == [] && ItemsOf([]) == []
  {}

  // ---- Help and version never hide a readable line -----------------------------------------------

  predicate IsFast(tok: string) {
    tok == "-h" || tok == "--help" || tok == "--version"
  }

  lemma NoFastTokenRead(tokens: seq<string>)
    requires tokens != []
    ensures EdgeRead(tokens).Reads? ==> forall k :: 0 <= k < EdgeRead(tokens).width ==> !IsFast(tokens[k])
    ensures PlaybackRead(tokens).Reads? ==> forall k :: 0 <= k < PlaybackRead(tokens).width ==> !IsFast(tokens[k])
  {
    hide HasScheme, SplitAtEquals, EdgeLong, CommonLong;
    ReservedKeys();
    ReservedNames();
    forall k | 0 <= k < |tokens| && IsFast(tokens[k])
      ensures IsOptionToken(tokens[k])
    {}
  }

  lemma {:induction false} LineHasNoFastToken(tokens: seq<string>)
    ensures EdgeItems(tokens).Line? || PlaybackItems(tokens).Line? ==> forall k :: 0 <= k < |tokens| ==> !IsFast(tokens[k])
    decreases |tokens|
  {
    hide EdgeRead, PlaybackRead, IsFast;
    if tokens != [] {
      NoFastTokenRead(tokens);
      var e, p := EdgeRead(tokens), PlaybackRead(tokens);
      if e.Reads? {
        LineHasNoFastToken(tokens[e.width..]);
        assert forall k :: e.width <= k < |tokens| ==> tokens[k] == tokens[e.width..][k - e.width];
      }
      if p.Reads? {
        LineHasNoFastToken(tokens[p.width..]);
        assert forall k :: p.width <= k < |tokens| ==> tokens[k] == tokens[p.width..][k - p.width];
      }
    }
  }

  lemma {:induction false} NoFastPath(tokens: seq<string>)
    requires forall k :: 0 <= k < |tokens| ==> !IsFast(tokens[k])
    ensures EdgeFastPath(tokens) == None
  {
    if tokens != [] {
      assert forall k :: 0 <= k < |tokens| - 1 ==> tokens[1..][k] == tokens[k + 1];
      NoFastPath(tokens[1..]);
    }
  }

  /** `edge-tts` synthesizes exactly the legal lines with one of text and file and no voice list. */
  lemma SynthesizesIff(tokens: seq<string>)
    ensures EdgeParse(tokens).EdgeSynthesize? <==>
            exists line :: SpellsSynthesis(line, tokens)
    ensures forall line :: SpellsSynthesis(line, tokens) ==> EdgeParse(tokens) == EdgeSynthesize(EdgeArgsOf(ItemsOf(line)))
  {
    hide EdgeItems, EdgeArgsOf;
    var items := EdgeItems(tokens);
    LineHasNoFastToken(tokens);
    if EdgeParse(tokens).EdgeSynthesize? && EdgeFastPath(tokens) == None {
      var line := ReadLineIsSpelled(tokens);
      EdgeGroup(ItemsOf(line));
      assert SpellsSynthesis(line, tokens);
    }
    forall line | SpellsSynthesis(line, tokens)
      ensures EdgeParse(tokens) == EdgeSynthesize(EdgeArgsOf(ItemsOf(line)))
    {
      SpelledLineIsRead(line);
      NoFastPath(tokens);
      EdgeGroup(ItemsOf(line));
    }
    FastPathDoesNotSynthesize(tokens);
  }

  lemma {:induction false} FastPathDoesNotSynthesize(tokens: seq<string>)
    ensures EdgeFastPath(tokens).Some? ==> EdgeFastPath(tokens).value.EdgeHelp? || EdgeFastPath(tokens).value.EdgeVersion?
  {
    if tokens != [] {
      FastPathDoesNotSynthesize(tokens[1..]);
    }
  }

  ghost predicate SpellsSynthesis(line: seq<Spelled>, tokens: seq<string>) {
    && AllLegal(line) && RenderAll(line) == tokens
    && ListVoices !in ItemsOf(line) && Mpv !in ItemsOf(line)
    && (Mentions(ItemsOf(line), Text) <==> !Mentions(ItemsOf(line), File))
  }

  ghost predicate Mentions(items: seq<Item>, opt: Opt) {
    exists k :: 0 <= k < |items| && items[k].Set? && items[k].opt == opt
  }

  lemma {:induction false} LastValueIff(items: seq<Item>, opt: Opt)
    ensures LastValue(items, opt).Some? <==> Mentions(items, opt)
    decreases |items|
  {
    if items != [] {
      var init := items[..|items| - 1];
      LastValueIff(init, opt);
      assert items[|items| - 1].Set? && items[|items| - 1].opt == opt ==> Mentions(items, opt);
      assert Mentions(init, opt) ==> Mentions(items, opt) by {
        if Mentions(init, opt) {
          var k :| 0 <= k < |init| && init[k].Set? && init[k].opt == opt;
          assert items[k] == init[k];
        }
      }
    }
  }

  lemma EdgeGroup(items: seq<Item>)
    ensures var a := EdgeArgsOf(items);
            && (a.text.Some? <==> Mentions(items, Text)) && (a.file.Some? <==> Mentions(items, File))
            && (a.listVoices <==> ListVoices in items)
            && (a.writeMedia.Some? <==> Mentions(items, WriteMedia))
            && (a.writeSubtitles.Some? <==> Mentions(items, WriteSubtitles))
  {
    hide LastValue, Mentions;
    LastValueIff(items, Text);
    LastValueIff(items, File);
    LastValueIff(items, WriteMedia);
    LastValueIff(items, WriteSubtitles);
  }

  // ---- All outcomes of edge-tts ------------------------------------------------------------------

  /** The first token that asks for help or the version is at `k`. */
  predicate FirstFastAt(tokens: seq<string>, k: nat) {
    k < |tokens| && IsFast(tokens[k]) && forall j :: 0 <= j < k ==> !IsFast(tokens[j])
  }

  ghost predicate Spells(line: seq<Spelled>, tokens: seq<string>) {
    AllLegal(line) && Mpv !in ItemsOf(line) && RenderAll(line) == tokens
  }

  ghost predicate SaysNothing(items: seq<Item>) {
    !Mentions(items, Text) && !Mentions(items, File) && ListVoices !in items
  }

  ghost predicate OnlyLists(items: seq<Item>) {
    !Mentions(items, Text) && !Mentions(items, File) && ListVoices in items
  }

  ghost predicate SaysTooMuch(items: seq<Item>) {
    || (Mentions(items, Text) && Mentions(items, File))
    || ((Mentions(items, Text) || Mentions(items, File)) && ListVoices in items)
  }

  lemma {:induction false} FastPathIs(tokens: seq<string>) returns (k: nat)
    ensures match EdgeFastPath(tokens)
            case None => forall j: nat :: !FirstFastAt(tokens, j)
            case Some(r) => FirstFastAt(tokens, k) && r == if tokens[k] == "--version" then EdgeVersion else EdgeHelp
  {
    k := 0;
    if tokens != [] && !IsFast(tokens[0]) {
      k := FastPathIs(tokens[1..]);
      FirstFastStep(tokens, k);
      forall j: nat | FirstFastAt(tokens, j)
        ensures j > 0 && FirstFastAt(tokens[1..], j - 1)
      {
        FirstFastStep(tokens, j - 1);
      }
      k := k + 1;
    }
  }

  lemma FirstFastStep(tokens: seq<string>, k: nat)
    requires tokens != [] && !IsFast(tokens[0])
    ensures FirstFastAt(tokens, k + 1) <==> FirstFastAt(tokens[1..], k)
  {
    hide IsFast;
    if k + 1 < |tokens| {
      assert tokens[1..][k] == tokens[k + 1];
      assert forall j :: 0 <= j < k ==> tokens[1..][j] == tokens[j + 1];
      if FirstFastAt(tokens[1..], k) {
        forall j | 0 <= j < k + 1
          ensures !IsFast(tokens[j])
        {
          assert j > 0 ==> tokens[j] == tokens[1..][j - 1];
        }
      }
    }
  }

  lemma OneFirst(tokens: seq<string>, j: nat, k: nat)
    requires FirstFastAt(tokens, j) && FirstFastAt(tokens, k)
    ensures j == k
  {}

  /** A line that cannot be read is not one of the group errors. */
  lemma {:induction false} BrokenLines(tokens: seq<string>)
    ensures EdgeItems(tokens) != Broken(NothingToSay) && EdgeItems(tokens) != Broken(TooMuchToSay)
    ensures PlaybackItems(tokens) != Broken(NothingToSay) && PlaybackItems(tokens) != Broken(TooMuchToSay)
    decreases |tokens|
  {
    hide EdgeRead, PlaybackRead;
    if tokens != [] {
      ReadProblems(tokens);
      var e, p := EdgeRead(tokens), PlaybackRead(tokens);
      if e.Reads? {
        BrokenLines(tokens[e.width..]);
      }
      if p.Reads? {
        BrokenLines(tokens[p.width..]);
      }
    }
  }

  lemma ReadProblems(tokens: seq<string>)
    requires tokens != []
    ensures EdgeRead(tokens) != Bad(NothingToSay) && EdgeRead(tokens) != Bad(TooMuchToSay)
    ensures PlaybackRead(tokens) != Bad(NothingToSay) && PlaybackRead(tokens) != Bad(TooMuchToSay)
  {
    hide IsLong, IsOptionToken, SplitAtEquals, Value, EdgeLong, CommonLong, HasScheme, ShortAttached;
  }

  /** A legal line is read back, and nothing on it asks for help or the version. */
  lemma SpelledIsRead(tokens: seq<string>, line: seq<Spelled>)
    requires Spells(line, tokens)
    ensures EdgeItems(tokens) == Line(ItemsOf(line)) && EdgeFastPath(tokens) == None
  {
    SpelledLineIsRead(line);
    LineHasNoFastToken(tokens);
    NoFastPath(tokens);
  }

  /**
    * Besides synthesis: the first token that asks for help or the version decides between the two;
    * without one, a legal line lists voices, says nothing or says too much as its items do.
    */
  lemma EdgeOutcomes(tokens: seq<string>)
    ensures var r := EdgeParse(tokens);
            && (r == EdgeHelp <==> exists k: nat :: FirstFastAt(tokens, k) && tokens[k] != "--version")
            && (r == EdgeVersion <==> exists k: nat :: FirstFastAt(tokens, k) && tokens[k] == "--version")
            && (r.EdgeListVoices? <==> exists line :: Spells(line, tokens) && OnlyLists(ItemsOf(line)))
            && (r == EdgeError(NothingToSay) <==> exists line :: Spells(line, tokens) && SaysNothing(ItemsOf(line)))
            && (r == EdgeError(TooMuchToSay) <==> exists line :: Spells(line, tokens) && SaysTooMuch(ItemsOf(line)))
  {
    hide EdgeItems, EdgeFastPath, EdgeArgsOf, FirstFastAt, Spells, Mentions;
    var first := FastPathIs(tokens);
    forall k: nat | FirstFastAt(tokens, first) && FirstFastAt(tokens, k)
      ensures k == first
    {
      OneFirst(tokens, first, k);
    }
    BrokenLines(tokens);
    forall line | Spells(line, tokens)
      ensures EdgeItems(tokens) == Line(ItemsOf(line)) && EdgeFastPath(tokens) == None
    {
      SpelledIsRead(tokens, line);
    }
    var items := EdgeItems(tokens);
    if items.Line? {
      EdgeGroup(items.items);
      var line := LineOf(tokens);
    }
  }

  lemma LineOf(tokens: seq<string>) returns (line: seq<Spelled>)
    requires EdgeItems(tokens).Line?
    ensures Spells(line, tokens) && EdgeItems(tokens) == Line(ItemsOf(line))
  {
    line := ReadLineIsSpelled(tokens);
  }

  /** Item `k` is the last that sets the option, to `v`. */
  predicate LastSetAt(items: seq<Item>, opt: Opt, v: string, k: nat) {
    k < |items| && items[k] == Set(opt, v) && forall j :: k < j < |items| ==> !(items[j].Set? && items[j].opt == opt)
  }

  /** The value last given for the option, or `default` if none is. */
  ghost predicate IsSetting(items: seq<Item>, opt: Opt, v: string, default: string) {
    (exists k :: LastSetAt(items, opt, v, k)) || (!Mentions(items, opt) && v == default)
  }

  ghost predicate IsOptional(items: seq<Item>, opt: Opt, v: Option<string>) {
    match v
    case Some(value) => exists k :: LastSetAt(items, opt, value, k)
    case None => !Mentions(items, opt)
  }

  lemma {:induction false} LastValueIs(items: seq<Item>, opt: Opt)
    ensures IsOptional(items, opt, LastValue(items, opt))
    decreases |items|
  {
    hide Mentions;
    LastValueIff(items, opt);
    if LastValue(items, opt).Some? {
      var n := |items| - 1;
      var v := LastValue(items, opt).value;
      if items[n].Set? && items[n].opt == opt {
        assert LastSetAt(items, opt, v, n);
      } else {
        LastValueIs(items[..n], opt);
        var k :| LastSetAt(items[..n], opt, v, k);
        assert forall j :: 0 <= j < n ==> items[..n][j] == items[j];
        assert LastSetAt(items, opt, v, k);
      }
    }
  }

  /** Each setting of the result is the value last given for its option, or the documented default. */
  lemma EdgeSettings(items: seq<Item>)
    ensures var a := EdgeArgsOf(items);
            && IsOptional(items, Text, a.text) && IsOptional(items, File, a.file) && IsOptional(items, Proxy, a.proxy)
            && IsOptional(items, WriteMedia, a.writeMedia) && IsOptional(items, WriteSubtitles, a.writeSubtitles)
            && IsSetting(items, Voice, a.voice, "en-US-EmmaMultilingualNeural")
            && IsSetting(items, Rate, a.rate, "+0%") && IsSetting(items, Volume, a.volume, "+0%")
            && IsSetting(items, Pitch, a.pitch, "+0Hz")
            && (a.listVoices <==> ListVoices in items)
  {
    hide LastValue, LastSetAt, Mentions;
    forall opt
      ensures IsOptional(items, opt, LastValue(items, opt))
    {
      LastValueIs(items, opt);
    }
  }

  // ---- The parsers agree -------------------------------------------------------------------------

  /** An item of both languages. */
  predicate IsCommon(item: Item) {
    item.Set? && !item.opt.WriteMedia? && !item.opt.WriteSubtitles?
  }

  predicate AllCommon(line: Line) {
    line.Line? && forall k :: 0 <= k < |line.items| ==> IsCommon(line.items[k])
  }

  /** Where one parser reads a common item, the other reads the same. */
  lemma ReadsAgree(tokens: seq<string>)
    requires tokens != []
    ensures EdgeRead(tokens).Reads? && IsCommon(EdgeRead(tokens).item) ==> PlaybackRead(tokens) == EdgeRead(tokens)
    ensures PlaybackRead(tokens).Reads? && PlaybackRead(tokens).item != Mpv ==> EdgeRead(tokens) == PlaybackRead(tokens)
    ensures PlaybackRead(tokens).Reads? && PlaybackRead(tokens).item != Mpv ==> IsCommon(PlaybackRead(tokens).item)
  {
    hide HasScheme, Value, ShortAttached, SplitAtEquals, EdgeLong, CommonLong;
    ReservedKeys();
    ReservedNames();
    LongSettings(SplitAtEquals(tokens[0]).key);
  }

  lemma {:induction false} ItemsAgree(tokens: seq<string>)
    ensures AllCommon(EdgeItems(tokens)) <==> AllCommon(PlaybackItems(tokens))
    ensures AllCommon(EdgeItems(tokens)) ==> EdgeItems(tokens) == PlaybackItems(tokens)
    decreases |tokens|
  {
    hide EdgeRead, PlaybackRead, IsCommon;
    if tokens != [] {
      ReadsAgree(tokens);
      var e, p := EdgeRead(tokens), PlaybackRead(tokens);
      if e.Reads? {
        ItemsAgree(tokens[e.width..]);
        CommonCons(e.item, EdgeItems(tokens[e.width..]));
      }
      if p.Reads? {
        ItemsAgree(tokens[p.width..]);
        CommonCons(p.item, PlaybackItems(tokens[p.width..]));
      }
      MpvIsNotCommon();
    }
  }

  lemma MpvIsNotCommon()
    ensures !IsCommon(Mpv)
  {}

  lemma CommonCons(item: Item, rest: Line)
    ensures AllCommon(Prefixed([item], rest)) <==> IsCommon(item) && AllCommon(rest)
  {
    if rest.Line? {
      var all := [item] + rest.items;
      assert all[0] == item && forall k :: 0 <= k < |rest.items| ==> all[k + 1] == rest.items[k];
    }
  }

  /** Every item `edge-playback` reads is its flag or common; every item `edge-tts` reads is not that flag. */
  lemma {:induction false} ItemKinds(tokens: seq<string>)
    ensures PlaybackItems(tokens).Line? ==>
              forall k :: 0 <= k < |PlaybackItems(tokens).items| ==>
                            PlaybackItems(tokens).items[k] == Mpv || IsCommon(PlaybackItems(tokens).items[k])
    ensures EdgeItems(tokens).Line? ==> forall k :: 0 <= k < |EdgeItems(tokens).items| ==> EdgeItems(tokens).items[k] != Mpv
    decreases |tokens|
  {
    hide EdgeRead, PlaybackRead, IsCommon;
    if tokens != [] {
      ReadsAgree(tokens);
      var e, p := EdgeRead(tokens), PlaybackRead(tokens);
      if e.Reads? {
        ItemKinds(tokens[e.width..]);
        var _ := ReadIsSpelled(tokens);
      }
      if p.Reads? {
        ItemKinds(tokens[p.width..]);
      }
    }
  }

  predicate WritesNothing(a: EdgeArgs) {
    a.writeMedia == None && a.writeSubtitles == None
  }

  predicate SameSettings(a: EdgeArgs, p: PlaybackArgs) {
    && a.text == p.text && a.file == p.file
    && a.voice == p.voice && a.rate == p.rate && a.volume == p.volume && a.pitch == p.pitch
    && a.proxy == p.proxy
  }

  /**
    * `edge-tts` synthesizes without write options exactly when `edge-playback` plays without mpv, and
    * then with the same settings.
    */
  lemma ParsersAgree(tokens: seq<string>)
    ensures var e, p := EdgeParse(tokens), PlaybackParse(tokens);
            && (e.EdgeSynthesize? && WritesNothing(e.args) <==> p.PlaybackPlay? && !p.args.useMpv)
            && (e.EdgeSynthesize? && WritesNothing(e.args) ==> SameSettings(e.args, p.args))
  {
    hide EdgeItems, PlaybackItems, LastValue, Mentions, IsFast;
    var e, p := EdgeItems(tokens), PlaybackItems(tokens);
    ItemsAgree(tokens);
    ItemKinds(tokens);
    LineHasNoFastToken(tokens);
    FastPathDoesNotSynthesize(tokens);
    if e.Line? || p.Line? {
      NoFastPath(tokens);
      NoHelp(tokens);
    }
    if e.Line? {
      EdgeGroup(e.items);
      CommonIff(e.items);
    }
  }

  lemma NoHelp(tokens: seq<string>)
    requires forall k :: 0 <= k < |tokens| ==> !IsFast(tokens[k])
    ensures !AsksForHelp(tokens)
  {}

  lemma CommonIff(items: seq<Item>)
    requires forall k :: 0 <= k < |items| ==> items[k] != Mpv
    ensures AllCommon(Line(items)) <==>
            ListVoices !in items && !Mentions(items, WriteMedia) && !Mentions(items, WriteSubtitles)
  {}

  // ---- All outcomes of edge-playback -------------------------------------------------------------

  /** A legal line of `edge-playback`: its own flag and settings both programs have. */
  ghost predicate SpellsPlayback(line: seq<Spelled>, tokens: seq<string>) {
    AllLegal(line) && RenderAll(line) == tokens && forall k :: 0 <= k < |line| ==> InPlayback(line[k].item)
  }

  lemma PlaybackReadsSpelled(s: Spelled, rest: seq<string>)
    requires Legal(s) && InPlayback(s.item)
    ensures PlaybackRead(Render(s) + rest) == Reads(s.item, |Render(s)|)
  {
    hide EdgeRead;
    if s.item != Mpv {
      ReadsSpelled(s, rest);
      ReadsAgree(Render(s) + rest);
    }
  }

  lemma PlaybackReadIsSpelled(tokens: seq<string>) returns (style: Style)
    requires tokens != [] && PlaybackRead(tokens).Reads?
    ensures var r := PlaybackRead(tokens);
            && InPlayback(r.item)
            && Legal(Spelled(r.item, style)) && Render(Spelled(r.item, style)) == tokens[..r.width]
  {
    hide EdgeRead, SplitAtEquals, Value, CommonLong;
    PlaybackReadsNoOther(tokens);
    ReadsAgree(tokens);
    style := LongSeparate;
    if PlaybackRead(tokens).item != Mpv {
      style := ReadIsSpelled(tokens);
    }
  }

  lemma {:induction false} PlaybackLineIsRead(line: seq<Spelled>, tokens: seq<string>)
    requires SpellsPlayback(line, tokens)
    ensures PlaybackItems(tokens) == Line(ItemsOf(line))
    decreases |line|
  {
    hide PlaybackRead, Legal, Render, InPlayback;
    if line != [] {
      var s, rest := line[0], RenderAll(line[1..]);
      PlaybackReadsSpelled(s, rest);
      PlaybackLineIsRead(line[1..], rest);
      assert tokens[|Render(s)|..] == rest;
      assert ItemsOf(line) == [s.item] + ItemsOf(line[1..]);
    }
  }

  lemma {:induction false} PlaybackLineOf(tokens: seq<string>) returns (line: seq<Spelled>)
    requires PlaybackItems(tokens).Line?
    ensures SpellsPlayback(line, tokens) && PlaybackItems(tokens) == Line(ItemsOf(line))
    decreases |tokens|
  {
    hide PlaybackRead, Legal, Render, RenderAll, AllLegal, ItemsOf, InPlayback;
    line := [];
    if tokens == [] {
      NoLine();
    } else {
      var r := PlaybackRead(tokens);
      var style := PlaybackReadIsSpelled(tokens);
      var rest := PlaybackLineOf(tokens[r.width..]);
      line := [Spelled(r.item, style)] + rest;
      LineCons(Spelled(r.item, style), rest);
      assert tokens == tokens[..r.width] + tokens[r.width..];
    }
  }

  /**
    * A token that asks for help decides. Without one, exactly the legal lines with one of text and
    * file play; those with neither or with both are refused, and no other line is for that reason.
    */
  lemma PlaybackOutcomes(tokens: seq<string>)
    ensures var r := PlaybackParse(tokens);
            && (r == PlaybackHelp <==> exists k :: 0 <= k < |tokens| && (tokens[k] == "-h" || tokens[k] == "--help"))
            && (r.PlaybackPlay? <==> exists line ::
                  SpellsPlayback(line, tokens) && (Mentions(ItemsOf(line), Text) <==> !Mentions(ItemsOf(line), File)))
            && (r == PlaybackError(NothingToSay) <==> exists line ::
                  SpellsPlayback(line, tokens) && !Mentions(ItemsOf(line), Text) && !Mentions(ItemsOf(line), File))
            && (r == PlaybackError(TooMuchToSay) <==> exists line ::
                  SpellsPlayback(line, tokens) && Mentions(ItemsOf(line), Text) && Mentions(ItemsOf(line), File))
            && (forall line :: SpellsPlayback(line, tokens) && r.PlaybackPlay? ==> r.args == PlaybackArgsOf(ItemsOf(line)))
  {
    hide PlaybackItems, SpellsPlayback, Mentions, LastValue, AsksForHelp;
    BrokenLines(tokens);
    LineHasNoFastToken(tokens);
    HelpIff(tokens);
    forall line | SpellsPlayback(line, tokens)
      ensures PlaybackItems(tokens) == Line(ItemsOf(line))
    {
      PlaybackLineIsRead(line, tokens);
    }
    var items := PlaybackItems(tokens);
    if items.Line? {
      NoHelp(tokens);
      LastValueIff(items.items, Text);
      LastValueIff(items.items, File);
      var line := PlaybackLineOf(tokens);
    }
  }

  lemma HelpIff(tokens: seq<string>)
    ensures AsksForHelp(tokens) <==> exists k :: 0 <= k < |tokens| && (tokens[k] == "-h" || tokens[k] == "--help")
  {}

  lemma PlaybackSettings(items: seq<Item>)
    ensures var a := PlaybackArgsOf(items);
            && IsOptional(items, Text, a.text) && IsOptional(items, File, a.file) && IsOptional(items, Proxy, a.proxy)
            && IsSetting(items, Voice, a.voice, "en-US-EmmaMultilingualNeural")
            && IsSetting(items, Rate, a.rate, "+0%") && IsSetting(items, Volume, a.volume, "+0%")
            && IsSetting(items, Pitch, a.pitch, "+0Hz")
            && (a.useMpv <==> Mpv in items)
  {
    hide LastValue, LastSetAt, Mentions;
    forall opt
      ensures IsOptional(items, opt, LastValue(items, opt))
    {
      LastValueIs(items, opt);
    }
  }
}
