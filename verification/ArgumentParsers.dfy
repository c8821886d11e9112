/** The two command lines: `cli/EdgeTtsArgumentParser` and `cli/PlaybackArgumentParser`. */
module ArgumentParsers {
  import opened Bytes

  // ---- Items of a command line ---------------------------------------------------------------

  /** The options that take a value. */
  datatype Opt = Text | File | Voice | Rate | Volume | Pitch | Proxy | WriteMedia | WriteSubtitles

  datatype Item = Set(opt: Opt, value: string) | ListVoices | Mpv

  /** The error messages of the parsers, by case. */
  datatype Problem =
    | MissingArgument(option: string)
    | EmptyProxy
    | ProxyWithoutScheme
    | Unrecognized(option: string)
    | NotInPlayback(option: string)
    | Positional(token: string)
    | NothingToSay
    | TooMuchToSay

  /** An item read from the front of the tokens and how many it takes, or what is wrong there. */
  datatype Reading = Reads(item: Item, width: nat) | Bad(problem: Problem)

  predicate IsOptionToken(tok: string) {
    |tok| >= 2 && tok[0] == '-'
  }

  predicate IsLong(tok: string) {
    |tok| >= 2 && tok[0] == '-' && tok[1] == '-'
  }

  function IndexOf(s: string, c: char, from: nat): (r: Option<nat>)
    ensures r.Some? ==> from <= r.value < |s| && s[r.value] == c && c !in s[from..r.value]
    ensures r.None? ==> from >= |s| || c !in s[from..]
    decreases |s| - from
  {
    if from >= |s| then None
    else if s[from] == c then Some(from)
    else IndexOf(s, c, from + 1)
  }

  /** The name in front of the first `=`, and what follows it. */
  datatype Split = Split(key: string, value: Option<string>)

  function SplitAtEquals(tok: string): Split {
    match IndexOf(tok, '=', 0)
    case None => Split(tok, None)
    case Some(p) => Split(tok[..p], Some(tok[p + 1..]))
  }

  predicate HasScheme(url: string) {
    exists k :: 0 <= k <= |url| - 3 && url[k] == ':' && url[k + 1] == '/' && url[k + 2] == '/'
  }

  /** The attached value, or else the next token unless it looks like an option; and the tokens taken. */
  function Value(tokens: seq<string>, attached: Option<string>): Option<(string, nat)>
    requires tokens != []
  {
    if attached.Some? then Some((attached.value, 1))
    else if |tokens| < 2 || IsOptionToken(tokens[1]) then None
    else Some((tokens[1], 2))
  }

  function ReadSetting(tokens: seq<string>, opt: Opt, name: string, attached: Option<string>): Reading
    requires tokens != []
  {
    match Value(tokens, attached)
    case None => Bad(MissingArgument(name))
    case Some((value, width)) =>
      if opt == Proxy && value == "" then Bad(EmptyProxy)
      else if opt == Proxy && !HasScheme(value) then Bad(ProxyWithoutScheme)
      else Reads(Set(opt, value), width)
  }

  function CommonLong(key: string): Option<Opt> {
    if key == "--text" then Some(Text)
    else if key == "--file" then Some(File)
    else if key == "--voice" then Some(Voice)
    else if key == "--rate" then Some(Rate)
    else if key == "--volume" then Some(Volume)
    else if key == "--pitch" then Some(Pitch)
    else if key == "--proxy" then Some(Proxy)
    else None
  }

  function CommonShort(flag: char): Option<Opt> {
    if flag == 't' then Some(Text)
    else if flag == 'f' then Some(File)
    else if flag == 'v' then Some(Voice)
    else None
  }

  function ShortAttached(tok: string): Option<string> {
    if |tok| > 2 then Some(tok[2..]) else None
  }

  // ---- edge-tts ----------------------------------------------------------------------------------

  function EdgeLong(key: string): Option<Opt> {
    if key == "--write-media" then Some(WriteMedia)
    else if key == "--write-subtitles" then Some(WriteSubtitles)
    else CommonLong(key)
  }

  function EdgeRead(tokens: seq<string>): (r: Reading)
    requires tokens != []
    ensures r.Reads? ==> 0 < r.width <= |tokens|
  {
    var tok := tokens[0];
    if tok == "-l" || tok == "--list-voices" then Reads(ListVoices, 1)
    else if IsLong(tok) then
      var split := SplitAtEquals(tok);
      match EdgeLong(split.key)
      case None => Bad(Unrecognized(split.key))
      case Some(opt) => ReadSetting(tokens, opt, split.key, split.value)
    else if IsOptionToken(tok) then
      match CommonShort(tok[1])
      case None => Bad(Unrecognized(tok))
      case Some(opt) => ReadSetting(tokens, opt, ['-', tok[1]], ShortAttached(tok))
    else Bad(Positional(tok))
  }

  datatype Line = Line(items: seq<Item>) | Broken(problem: Problem)

  function Prefixed(done: seq<Item>, rest: Line): Line {
    if rest.Broken? then rest else Line(done + rest.items)
  }

  function EdgeItems(tokens: seq<string>): Line
    decreases |tokens|
  {
    if tokens == [] then Line([])
    else
      match EdgeRead(tokens)
      case Bad(problem) => Broken(problem)
      case Reads(item, width) => Prefixed([item], EdgeItems(tokens[width..]))
  }

  /** The last value given for an option. */
  function LastValue(items: seq<Item>, opt: Opt): Option<string> {
    if items == [] then None
    else
      var last := items[|items| - 1];
      if last.Set? && last.opt == opt then Some(last.value) else LastValue(items[..|items| - 1], opt)
  }

  function OrElse(v: Option<string>, default: string): string {
    if v.Some? then v.value else default
  }

  const DEFAULT_VOICE := "en-US-EmmaMultilingualNeural"

  datatype EdgeArgs = EdgeArgs(
    text: Option<string>, file: Option<string>, listVoices: bool,
    voice: string, rate: string, volume: string, pitch: string,
    writeMedia: Option<string>, writeSubtitles: Option<string>, proxy: Option<string>)

  function EdgeArgsOf(items: seq<Item>): EdgeArgs {
    EdgeArgs(LastValue(items, Text), LastValue(items, File), ListVoices in items,
             OrElse(LastValue(items, Voice), DEFAULT_VOICE), OrElse(LastValue(items, Rate), "+0%"),
             OrElse(LastValue(items, Volume), "+0%"), OrElse(LastValue(items, Pitch), "+0Hz"),
             LastValue(items, WriteMedia), LastValue(items, WriteSubtitles), LastValue(items, Proxy))
  }

  datatype EdgeResult =
    | EdgeHelp
    | EdgeVersion
    | EdgeSynthesize(args: EdgeArgs)
    | EdgeListVoices(args: EdgeArgs)
    | EdgeError(problem: Problem)

  function Count(b: bool): nat {
    if b then 1 else 0
  }

  function EdgeVerdict(a: EdgeArgs): EdgeResult {
    var group := Count(a.text.Some?) + Count(a.file.Some?) + Count(a.listVoices);
    if group == 0 then EdgeError(NothingToSay)
    else if group > 1 then EdgeError(TooMuchToSay)
    else if a.listVoices then EdgeListVoices(a)
    else EdgeSynthesize(a)
  }

  predicate IsHelp(tok: string) {
    tok == "-h" || tok == "--help"
  }

  /** The first token that asks for help or the version. */
  function EdgeFastPath(tokens: seq<string>): Option<EdgeResult> {
    if tokens == [] then None
    else if IsHelp(tokens[0]) then Some(EdgeHelp)
    else if tokens[0] == "--version" then Some(EdgeVersion)
    else EdgeFastPath(tokens[1..])
  }

  function EdgeFinish(line: Line): EdgeResult {
    match line
    case Broken(problem) => EdgeError(problem)
    case Line(items) => EdgeVerdict(EdgeArgsOf(items))
  }

  function EdgeParse(tokens: seq<string>): EdgeResult {
    var fast := EdgeFastPath(tokens);
    if fast.Some? then fast.value else EdgeFinish(EdgeItems(tokens))
  }

  // ---- edge-playback -----------------------------------------------------------------------------

  function PlaybackRead(tokens: seq<string>): (r: Reading)
    requires tokens != []
    ensures r.Reads? ==> 0 < r.width <= |tokens|
  {
    var tok := tokens[0];
    if tok == "--mpv" then Reads(Mpv, 1)
    else if IsLong(tok) then
      var split := SplitAtEquals(tok);
      match CommonLong(split.key)
      case Some(opt) => ReadSetting(tokens, opt, split.key, split.value)
      case None =>
        if split.key == "--write-media" || split.key == "--write-subtitles" || split.key == "--list-voices" then
          Bad(NotInPlayback(split.key))
        else Bad(Unrecognized(split.key))
    else if IsOptionToken(tok) then
      match CommonShort(tok[1])
      case Some(opt) => ReadSetting(tokens, opt, ['-', tok[1]], ShortAttached(tok))
      case None => if tok[1] == 'l' then Bad(NotInPlayback("-l")) else Bad(Unrecognized(tok))
    else Bad(Positional(tok))
  }

  function PlaybackItems(tokens: seq<string>): Line
    decreases |tokens|
  {
    if tokens == [] then Line([])
    else
      match PlaybackRead(tokens)
      case Bad(problem) => Broken(problem)
      case Reads(item, width) => Prefixed([item], PlaybackItems(tokens[width..]))
  }

  datatype PlaybackArgs = PlaybackArgs(
    text: Option<string>, file: Option<string>,
    voice: string, rate: string, volume: string, pitch: string,
    proxy: Option<string>, useMpv: bool)

  function PlaybackArgsOf(items: seq<Item>): PlaybackArgs {
    PlaybackArgs(LastValue(items, Text), LastValue(items, File),
                 OrElse(LastValue(items, Voice), DEFAULT_VOICE), OrElse(LastValue(items, Rate), "+0%"),
                 OrElse(LastValue(items, Volume), "+0%"), OrElse(LastValue(items, Pitch), "+0Hz"),
                 LastValue(items, Proxy), Mpv in items)
  }

  datatype PlaybackResult =
    | PlaybackHelp
    | PlaybackPlay(args: PlaybackArgs)
    | PlaybackError(problem: Problem)

  function PlaybackVerdict(a: PlaybackArgs): PlaybackResult {
    var group := Count(a.text.Some?) + Count(a.file.Some?);
    if group == 0 then PlaybackError(NothingToSay)
    else if group > 1 then PlaybackError(TooMuchToSay)
    else PlaybackPlay(a)
  }

  function PlaybackFinish(line: Line): PlaybackResult {
    match line
    case Broken(problem) => PlaybackError(problem)
    case Line(items) => PlaybackVerdict(PlaybackArgsOf(items))
  }

  predicate AsksForHelp(tokens: seq<string>) {
    exists k :: 0 <= k < |tokens| && IsHelp(tokens[k])
  }

  function PlaybackParse(tokens: seq<string>): PlaybackResult {
    if AsksForHelp(tokens) then PlaybackHelp else PlaybackFinish(PlaybackItems(tokens))
  }

  // ---- The code ----------------------------------------------------------------------------------

  /** The value of the option at token `i`; `next` is the last token used. */
  method RequireValue(tokens: seq<string>, i: nat, attached: Option<string>) returns (value: Option<string>, next: nat)
    requires i < |tokens|
    ensures Value(tokens[i..], attached) == if value.Some? then Some((value.value, next + 1 - i)) else None
    ensures i <= next < |tokens|
  {
    next := i;
    if attached.Some? {
      return attached, next;
    }
    if i + 1 >= |tokens| || IsOptionToken(tokens[i + 1]) {
      return None, next;
    }
    next := next + 1;
    return Some(tokens[next]), next;
  }

  method EdgeAsksFirst(tokens: seq<string>) returns (r: Option<EdgeResult>)
    ensures r == EdgeFastPath(tokens)
  {
    for i := 0 to |tokens|
      invariant EdgeFastPath(tokens) == EdgeFastPath(tokens[i..])
    {
      var tok := tokens[i];
      assert tokens[i..][1..] == tokens[i + 1..];
      if tok == "-h" || tok == "--help" {
        return Some(EdgeHelp);
      }
      if tok == "--version" {
        return Some(EdgeVersion);
      }
    }
    return None;
  }

  /** The long options: what is wrong with the value, or the arguments with the option set. */
  method TakeLong(args: EdgeArgs, key: string, value: Option<string>) returns (problem: Option<Problem>, updated: EdgeArgs)
    ensures match EdgeLong(key)
            case None => problem == Some(Unrecognized(key))
            case Some(opt) =>
              if value.None? then problem == Some(MissingArgument(key))
              else if opt == Proxy && value.value == "" then problem == Some(EmptyProxy)
              else if opt == Proxy && !HasScheme(value.value) then problem == Some(ProxyWithoutScheme)
              else problem == None && updated == WithItem(args, Set(opt, value.value))
  {
    hide HasScheme;
    updated := args;
    if key == "--text" {
      if value.None? { return Some(MissingArgument(key)), args; }
      updated := args.(text := value);
    } else if key == "--file" {
      if value.None? { return Some(MissingArgument(key)), args; }
      updated := args.(file := value);
    } else if key == "--voice" {
      if value.None? { return Some(MissingArgument(key)), args; }
      updated := args.(voice := value.value);
    } else if key == "--rate" {
      if value.None? { return Some(MissingArgument(key)), args; }
      updated := args.(rate := value.value);
    } else if key == "--volume" {
      if value.None? { return Some(MissingArgument(key)), args; }
      updated := args.(volume := value.value);
    } else if key == "--pitch" {
      if value.None? { return Some(MissingArgument(key)), args; }
      updated := args.(pitch := value.value);
    } else if key == "--write-media" {
      if value.None? { return Some(MissingArgument(key)), args; }
      updated := args.(writeMedia := value);
    } else if key == "--write-subtitles" {
      if value.None? { return Some(MissingArgument(key)), args; }
      updated := args.(writeSubtitles := value);
    } else if key == "--proxy" {
      if value.None? { return Some(MissingArgument(key)), args; }
      if value.value == "" { return Some(EmptyProxy), args; }
      if !HasScheme(value.value) { return Some(ProxyWithoutScheme), args; }
      updated := args.(proxy := value);
    } else {
      return Some(Unrecognized(key)), args;
    }
    return None, updated;
  }

  method TakeShort(args: EdgeArgs, tok: string, value: Option<string>) returns (problem: Option<Problem>, updated: EdgeArgs)
    requires |tok| >= 2
    ensures match CommonShort(tok[1])
            case None => problem == Some(Unrecognized(tok))
            case Some(opt) =>
              if value.None? then problem == Some(MissingArgument(['-', tok[1]]))
              else problem == None && updated == WithItem(args, Set(opt, value.value))
  {
    updated := args;
    if tok[1] == 't' {
      if value.None? { return Some(MissingArgument("-t")), args; }
      updated := args.(text := value);
    } else if tok[1] == 'f' {
      if value.None? { return Some(MissingArgument("-f")), args; }
      updated := args.(file := value);
    } else if tok[1] == 'v' {
      if value.None? { return Some(MissingArgument("-v")), args; }
      updated := args.(voice := value.value);
    } else {
      return Some(Unrecognized(tok)), args;
    }
    return None, updated;
  }

  /** The mutually exclusive group. */
  method EdgeConclude(args: EdgeArgs, seenText: bool, seenFile: bool, seenListVoices: bool) returns (r: EdgeResult)
    requires seenText == args.text.Some? && seenFile == args.file.Some? && seenListVoices == args.listVoices
    ensures r == EdgeVerdict(args)
  {
    var group := Count(seenText) + Count(seenFile) + Count(seenListVoices);
    if group == 0 {
      return EdgeError(NothingToSay);
    }
    if group > 1 {
      return EdgeError(TooMuchToSay);
    }
    if seenListVoices {
      return EdgeListVoices(args);
    }
    return EdgeSynthesize(args);
  }

  lemma GroupAfter(a: EdgeArgs, item: Item)
    ensures WithItem(a, item).text.Some? <==> a.text.Some? || (item.Set? && item.opt == Text)
    ensures WithItem(a, item).file.Some? <==> a.file.Some? || (item.Set? && item.opt == File)
    ensures WithItem(a, item).listVoices <==> a.listVoices || item == ListVoices
    ensures item == ListVoices ==> WithItem(a, item) == a.(listVoices := true)
  {}

  lemma ShortTextAndFile(flag: char)
    ensures CommonShort(flag) == Some(Text) <==> flag == 't'
    ensures CommonShort(flag) == Some(File) <==> flag == 'f'
    ensures CommonShort(flag) != Some(Proxy)
  {}

  /** Only `--text` and `--file` set the text and the file. */
  lemma TextAndFile(key: string)
    ensures EdgeLong(key) == Some(Text) <==> key == "--text"
    ensures EdgeLong(key) == Some(File) <==> key == "--file"
  {
    assert "--file"[2] != "--text"[2];
  }

  method ParseEdgeTts(tokens: seq<string>) returns (r: EdgeResult)
    ensures r == EdgeParse(tokens)
  {
    hide EdgeParse, EdgeFinish, EdgeVerdict, EdgeItems, EdgeArgsOf, EdgeFastPath, HasScheme, SplitAtEquals, Value, Prefixed, LastValue, ShortAttached,
      EdgeLong, CommonShort, WithItem;
    var fast := EdgeAsksFirst(tokens);
    EdgeParseStarts(tokens);
    if fast.Some? {
      return fast.value;
    }
    var args := EdgeArgs(None, None, false, DEFAULT_VOICE, "+0%", "+0%", "+0Hz", None, None, None);
    var seenText, seenFile, seenListVoices := false, false, false;
    ghost var done: seq<Item> := [];
    NoItems();
    var i := 0;
    while i < |tokens|
      invariant i <= |tokens|
      invariant EdgeParse(tokens) == EdgeFinish(Prefixed(done, EdgeItems(tokens[i..])))
      invariant args == EdgeArgsOf(done)
      invariant seenText == args.text.Some? && seenFile == args.file.Some? && seenListVoices == args.listVoices
    {
      var tok := tokens[i];
      EdgeItemsStep(tokens, i, done);
      ghost var reading := EdgeRead(tokens[i..]);
      if reading.Reads? {
        EdgeArgsSnoc(done, reading.item);
        GroupAfter(args, reading.item);
        done := done + [reading.item];
      }
      if tok == "-l" || tok == "--list-voices" {
        seenListVoices := true;
        args := args.(listVoices := true);
        i := i + 1;
        continue;
      }
      if IsLong(tok) {
        var split := SplitAtEquals(tok);
        var value, last := RequireValue(tokens, i, split.value);
        var problem, updated := TakeLong(args, split.key, value);
        if problem.Some? {
          return EdgeError(problem.value);
        }
        args := updated;
        TextAndFile(split.key);
        if split.key == "--text" {
          seenText := true;
        } else if split.key == "--file" {
          seenFile := true;
        }
        i := last + 1;
        continue;
      }
      if |tok| >= 2 && tok[0] == '-' {
        var value, last := RequireValue(tokens, i, ShortAttached(tok));
        var problem, updated := TakeShort(args, tok, value);
        if problem.Some? {
          return EdgeError(problem.value);
        }
        args := updated;
        ShortTextAndFile(tok[1]);
        if tok[1] == 't' {
          seenText := true;
        } else if tok[1] == 'f' {
          seenFile := true;
        }
        i := last + 1;
        continue;
      }
      return EdgeError(Positional(tok));
    }
    EdgeItemsDone(tokens, done);
    r := EdgeConclude(args, seenText, seenFile, seenListVoices);
  }

  lemma NoItems()
    ensures EdgeArgsOf([]) == EdgeArgs(None, None, false, DEFAULT_VOICE, "+0%", "+0%", "+0Hz", None, None, None)
    ensures PlaybackArgsOf([]) == PlaybackArgs(None, None, DEFAULT_VOICE, "+0%", "+0%", "+0Hz", None, false)
  {}

  lemma EdgeParseStarts(tokens: seq<string>)
    ensures EdgeParse(tokens) ==
            if EdgeFastPath(tokens).Some? then EdgeFastPath(tokens).value else EdgeFinish(Prefixed([], EdgeItems(tokens[0..])))
  {
    assert tokens[0..] == tokens;
    var line := EdgeItems(tokens);
    if line.Line? {
      assert [] + line.items == line.items;
    }
  }

  lemma EdgeItemsDone(tokens: seq<string>, done: seq<Item>)
    ensures EdgeFinish(Prefixed(done, EdgeItems(tokens[|tokens|..]))) == EdgeVerdict(EdgeArgsOf(done))
  {
    assert done + [] == done;
  }

  lemma EdgeItemsStep(tokens: seq<string>, i: nat, done: seq<Item>)
    requires i < |tokens|
    ensures var result := EdgeFinish(Prefixed(done, EdgeItems(tokens[i..])));
            match EdgeRead(tokens[i..])
            case Bad(problem) => result == EdgeError(problem)
            case Reads(item, width) =>
              && i + width <= |tokens|
              && result == EdgeFinish(Prefixed(done + [item], EdgeItems(tokens[i + width..])))
  {
    hide EdgeRead, EdgeVerdict;
    match EdgeRead(tokens[i..])
    case Bad(_) =>
    case Reads(item, width) =>
      assert tokens[i..][width..] == tokens[i + width..];
      PrefixedTwice(done, [item], EdgeItems(tokens[i + width..]));
  }

  lemma PrefixedTwice(a: seq<Item>, b: seq<Item>, rest: Line)
    ensures Prefixed(a, Prefixed(b, rest)) == Prefixed(a + b, rest)
  {
    if rest.Line? {
      assert a + (b + rest.items) == (a + b) + rest.items;
    }
  }

  lemma LastValueSnoc(items: seq<Item>, item: Item, opt: Opt)
    ensures LastValue(items + [item], opt) ==
            if item.Set? && item.opt == opt then Some(item.value) else LastValue(items, opt)
  {
    assert (items + [item])[..|items|] == items;
  }

  /** The arguments with one more item taken into account. */
  function WithItem(a: EdgeArgs, item: Item): EdgeArgs {
    match item
    case ListVoices => a.(listVoices := true)
    case Mpv => a
    case Set(opt, v) =>
      match opt
      case Text => a.(text := Some(v))
      case File => a.(file := Some(v))
      case Voice => a.(voice := v)
      case Rate => a.(rate := v)
      case Volume => a.(volume := v)
      case Pitch => a.(pitch := v)
      case Proxy => a.(proxy := Some(v))
      case WriteMedia => a.(writeMedia := Some(v))
      case WriteSubtitles => a.(writeSubtitles := Some(v))
  }

  lemma EdgeArgsSnoc(items: seq<Item>, item: Item)
    ensures EdgeArgsOf(items + [item]) == WithItem(EdgeArgsOf(items), item)
  {
    hide LastValue;
    forall opt
      ensures LastValue(items + [item], opt) ==
              if item.Set? && item.opt == opt then Some(item.value) else LastValue(items, opt)
    {
      LastValueSnoc(items, item, opt);
    }
  }

  method ParsePlayback(tokens: seq<string>) returns (r: PlaybackResult)
    ensures r == PlaybackParse(tokens)
  {
    hide PlaybackParse, PlaybackFinish, PlaybackVerdict, PlaybackItems, PlaybackArgsOf, AsksForHelp, HasScheme, SplitAtEquals, Value,
      Prefixed, LastValue, ShortAttached;
    var help := PlaybackAsksHelp(tokens);
    PlaybackParseStarts(tokens);
    if help {
      return PlaybackHelp;
    }
    var args := PlaybackArgs(None, None, DEFAULT_VOICE, "+0%", "+0%", "+0Hz", None, false);
    var seenText, seenFile := false, false;
    ghost var done: seq<Item> := [];
    NoItems();
    var i := 0;
    while i < |tokens|
      invariant i <= |tokens|
      invariant PlaybackParse(tokens) == PlaybackFinish(Prefixed(done, PlaybackItems(tokens[i..])))
      invariant args == PlaybackArgsOf(done)
      invariant seenText == args.text.Some? && seenFile == args.file.Some?
    {
      var tok := tokens[i];
      PlaybackItemsStep(tokens, i, done);
      ghost var reading := PlaybackRead(tokens[i..]);
      if reading.Reads? {
        PlaybackReadsNoOther(tokens[i..]);
        PlaybackArgsSnoc(done, reading.item);
        done := done + [reading.item];
      }
      if tok == "--mpv" {
        args := args.(useMpv := true);
        i := i + 1;
        continue;
      }
      if IsLong(tok) {
        var split := SplitAtEquals(tok);
        var key := split.key;
        var value, last := RequireValue(tokens, i, split.value);
        if key == "--text" {
          if value.None? { return PlaybackError(MissingArgument(key)); }
          args := args.(text := value);
          seenText := true;
        } else if key == "--file" {
          if value.None? { return PlaybackError(MissingArgument(key)); }
          args := args.(file := value);
          seenFile := true;
        } else if key == "--voice" {
          if value.None? { return PlaybackError(MissingArgument(key)); }
          args := args.(voice := value.value);
        } else if key == "--rate" {
          if value.None? { return PlaybackError(MissingArgument(key)); }
          args := args.(rate := value.value);
        } else if key == "--volume" {
          if value.None? { return PlaybackError(MissingArgument(key)); }
          args := args.(volume := value.value);
        } else if key == "--pitch" {
          if value.None? { return PlaybackError(MissingArgument(key)); }
          args := args.(pitch := value.value);
        } else if key == "--proxy" {
          if value.None? { return PlaybackError(MissingArgument(key)); }
          if value.value == "" { return PlaybackError(EmptyProxy); }
          if !HasScheme(value.value) { return PlaybackError(ProxyWithoutScheme); }
          args := args.(proxy := value);
        } else if key == "--write-media" || key == "--write-subtitles" || key == "--list-voices" {
          return PlaybackError(NotInPlayback(key));
        } else {
          return PlaybackError(Unrecognized(key));
        }
        i := last + 1;
        continue;
      }
      if |tok| >= 2 && tok[0] == '-' {
        var value, last := RequireValue(tokens, i, ShortAttached(tok));
        if tok[1] == 't' {
          if value.None? { return PlaybackError(MissingArgument("-t")); }
          args := args.(text := value);
          seenText := true;
        } else if tok[1] == 'f' {
          if value.None? { return PlaybackError(MissingArgument("-f")); }
          args := args.(file := value);
          seenFile := true;
        } else if tok[1] == 'v' {
          if value.None? { return PlaybackError(MissingArgument("-v")); }
          args := args.(voice := value.value);
        } else if tok[1] == 'l' {
          return PlaybackError(NotInPlayback("-l"));
        } else {
          return PlaybackError(Unrecognized(tok));
        }
        i := last + 1;
        continue;
      }
      return PlaybackError(Positional(tok));
    }
    PlaybackItemsDone(tokens, done);
    PlaybackVerdictIs(args);
    var group := Count(seenText) + Count(seenFile);
    if group == 0 {
      return PlaybackError(NothingToSay);
    }
    if group > 1 {
      return PlaybackError(TooMuchToSay);
    }
    return PlaybackPlay(args);
  }

  method PlaybackAsksHelp(tokens: seq<string>) returns (help: bool)
    ensures help == AsksForHelp(tokens)
  {
    for i := 0 to |tokens|
      invariant forall k :: 0 <= k < i ==> !IsHelp(tokens[k])
    {
      var tok := tokens[i];
      if tok == "-h" || tok == "--help" {
        assert IsHelp(tokens[i]);
        return true;
      }
    }
    return false;
  }

  lemma PlaybackParseStarts(tokens: seq<string>)
    ensures PlaybackParse(tokens) ==
            if AsksForHelp(tokens) then PlaybackHelp else PlaybackFinish(Prefixed([], PlaybackItems(tokens[0..])))
  {
    assert tokens[0..] == tokens;
    var line := PlaybackItems(tokens);
    if line.Line? {
      assert [] + line.items == line.items;
    }
  }

  lemma PlaybackItemsDone(tokens: seq<string>, done: seq<Item>)
    ensures PlaybackFinish(Prefixed(done, PlaybackItems(tokens[|tokens|..]))) == PlaybackVerdict(PlaybackArgsOf(done))
  {
    assert done + [] == done;
  }

  lemma PlaybackItemsStep(tokens: seq<string>, i: nat, done: seq<Item>)
    requires i < |tokens|
    ensures var result := PlaybackFinish(Prefixed(done, PlaybackItems(tokens[i..])));
            match PlaybackRead(tokens[i..])
            case Bad(problem) => result == PlaybackError(problem)
            case Reads(item, width) =>
              && i + width <= |tokens|
              && result == PlaybackFinish(Prefixed(done + [item], PlaybackItems(tokens[i + width..])))
  {
    hide PlaybackRead, PlaybackVerdict;
    match PlaybackRead(tokens[i..])
    case Bad(_) =>
    case Reads(item, width) =>
      assert tokens[i..][width..] == tokens[i + width..];
      PrefixedTwice(done, [item], PlaybackItems(tokens[i + width..]));
  }

  lemma PlaybackVerdictIs(a: PlaybackArgs)
    ensures var group := Count(a.text.Some?) + Count(a.file.Some?);
            PlaybackVerdict(a) ==
            if group == 0 then PlaybackError(NothingToSay)
            else if group > 1 then PlaybackError(TooMuchToSay)
            else PlaybackPlay(a)
  {}

  /** The items of playback are its own flag and the settings both programs have. */
  predicate InPlayback(item: Item) {
    item.Mpv? || (item.Set? && !item.opt.WriteMedia? && !item.opt.WriteSubtitles?)
  }

  lemma PlaybackReadsNoOther(tokens: seq<string>)
    requires tokens != [] && PlaybackRead(tokens).Reads?
    ensures InPlayback(PlaybackRead(tokens).item)
  {
    hide SplitAtEquals, Value;
  }

  function WithPlaybackItem(a: PlaybackArgs, item: Item): PlaybackArgs
    requires InPlayback(item)
  {
    match item
    case Mpv => a.(useMpv := true)
    case Set(opt, v) =>
      match opt
      case Text => a.(text := Some(v))
      case File => a.(file := Some(v))
      case Voice => a.(voice := v)
      case Rate => a.(rate := v)
      case Volume => a.(volume := v)
      case Pitch => a.(pitch := v)
      case Proxy => a.(proxy := Some(v))
  }

  lemma PlaybackArgsSnoc(items: seq<Item>, item: Item)
    requires InPlayback(item)
    ensures PlaybackArgsOf(items + [item]) == WithPlaybackItem(PlaybackArgsOf(items), item)
  {
    hide LastValue;
    forall opt
      ensures LastValue(items + [item], opt) ==
              if item.Set? && item.opt == opt then Some(item.value) else LastValue(items, opt)
    {
      LastValueSnoc(items, item, opt);
    }
  }
}
