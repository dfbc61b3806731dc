/**
 * The tab-completion engine: given the line and the cursor, it looks only
 * at the pipeline stage after the last `|`, tokenizes the text before the
 * cursor and offers command names, positional hints or option flags.
 */
module Completion {
  import opened Wrappers
  import opened Text
  import Shlex
  import opened Commands

  /** rustyline's candidate: what the menu shows and what is inserted. */
  datatype Pair = Pair(display: string, replacement: string)

  /** The text after the last `|` of the line and the cursor rebased to it. */
  datatype Segment = Segment(text: string, cursor: nat)

  /** What the text before the cursor asks to complete. */
  datatype Mode = Unlexable | CommandName(prefix: string) | Argument(tokens: seq<string>)

  /**
   * The answer: a replacement start and the candidates. Command names come
   * out of a hash map in no fixed order, so for them only the set of names
   * is determined.
   */
  datatype Expected = Names(start: nat, names: set<string>) | Listed(start: nat, candidates: seq<Pair>)

  function SaturatingSub(a: nat, b: nat): nat {
    if a >= b then a - b else 0
  }

  predicate Distinct(s: seq<Pair>) {
    forall i, j :: 0 <= i < j < |s| ==> s[i] != s[j]
  }

  /** The cursor is within the line and after its last `|`, so rebasing it does not underflow. */
  predicate CursorInLastSegment(line: string, pos: nat) {
    pos <= |line| &&
    match LastIndexOf(line, '|')
    case None => true
    case Some(i) => i < pos
  }

  function CurrentSegment(line: string, pos: nat): (seg: Segment)
    requires CursorInLastSegment(line, pos)
    ensures seg.cursor <= |seg.text| && seg.cursor <= pos
  {
    match LastIndexOf(line, '|')
    case None => Segment(line, pos)
    case Some(i) => Segment(line[i + 1..], pos - i - 1)
  }

  /**
   * The segment is the text after the last `|` (the whole line when there is
   * none), and the cursor keeps its place in it.
   */
  lemma SegmentIsLastStage(line: string, pos: nat)
    requires CursorInLastSegment(line, pos)
    ensures var seg := CurrentSegment(line, pos);
      |seg.text| <= |line| && seg.text == line[|line| - |seg.text|..] &&
      pos - seg.cursor == |line| - |seg.text| &&
      (forall k :: 0 <= k < |seg.text| ==> seg.text[k] != '|') &&
      (|seg.text| < |line| ==> line[|line| - |seg.text| - 1] == '|')
  {
  }

  function ModeOf(seg: Segment): (m: Mode)
    requires seg.cursor <= |seg.text|
    ensures m.Argument? ==> 1 <= seg.cursor && m.tokens != []
    ensures m.Argument? ==> |m.tokens| >= 2 || HasWhitespace(seg.text[..seg.cursor])
    ensures m.Argument? ==> forall t :: t in m.tokens ==> |t| <= seg.cursor
  {
    var before := seg.text[..seg.cursor];
    match Shlex.Split(before)
    case None => Unlexable
    case Some(tokens) =>
      if tokens == [] then CommandName("")
      else if |tokens| < 2 && !HasWhitespace(before) then CommandName(Trim(seg.text))
      else Argument(tokens)
  }

  /**
   * The inputs the model answers: ASCII lines, so that no byte offset is
   * read as a character index, on which `complete` does not panic. The
   * cursor lies after the last `|`, and completing an option word of a
   * known command has a word after the command name to `pop_back`.
   */
  predicate CanComplete(commands: Registry, line: string, pos: nat) {
    IsAscii(line) && CursorInLastSegment(line, pos) &&
    var seg := CurrentSegment(line, pos);
    match ModeOf(seg)
    case Argument(tokens) =>
      tokens[0] in commands && !IsWhitespace(seg.text[seg.cursor - 1]) ==> |tokens| >= 2
    case _ => true
  }

  function MatchingNames(commands: Registry, prefix: string): set<string> {
    set n | n in commands && StartsWith(n, prefix)
  }

  /** One informational hint per positional, in declaration order; nothing is inserted. */
  function PositionalHints(ids: seq<string>): (hints: seq<Pair>)
    ensures |hints| == |ids|
    ensures forall k :: 0 <= k < |ids| ==> hints[k] == Pair(ids[k], "")
  {
    if ids == [] then [] else PositionalHints(ids[..|ids| - 1]) + [Pair(ids[|ids| - 1], "")]
  }

  /** The candidate for a long form `--long` after `--`: no trailing space. */
  function LongPair(long: string): Pair {
    Pair("[--" + long + "]", "--" + long)
  }

  function LongCandidates(options: seq<DeclaredOption>, word: string): seq<Pair> {
    if options == [] then []
    else
      var o := options[|options| - 1];
      LongCandidates(options[..|options| - 1], word)
      + if o.long.Some? && StartsWith(LongPair(o.long.value).replacement, word) then [LongPair(o.long.value)] else []
  }

  /** The candidate an option offers after a single `-`. */
  function FlagPair(o: DeclaredOption): Pair {
    if o.long.Some? && o.short.Some? then
      Pair("[-" + [o.short.value] + ", --" + o.long.value + "]", "-" + [o.short.value] + " ")
    else if o.long.Some? then
      Pair("[--" + o.long.value + "]", "--" + o.long.value + " ")
    else
      Pair("[-" + [o.short.value] + "]", "-" + [o.short.value] + " ")
  }

  function FlagCandidates(options: seq<DeclaredOption>, word: string): seq<Pair> {
    if options == [] then []
    else
      var o := options[|options| - 1];
      FlagCandidates(options[..|options| - 1], word)
      + if StartsWith(FlagPair(o).replacement, word) then [FlagPair(o)] else []
  }

  /** What `complete(line, pos)` answers. */
  function CompletionOf(commands: Registry, line: string, pos: nat): Expected
    requires CanComplete(commands, line, pos)
  {
    var seg := CurrentSegment(line, pos);
    match ModeOf(seg)
    case Unlexable => Listed(seg.cursor, [])
    case CommandName(prefix) => Names(SaturatingSub(pos, |seg.text|), MatchingNames(commands, prefix))
    case Argument(tokens) => ArgumentCompletion(commands, seg, tokens, pos)
  }

  /** What `complete` needs to work on the arguments of a command without panicking. */
  predicate ArgumentReady(commands: Registry, seg: Segment, tokens: seq<string>, pos: nat) {
    1 <= seg.cursor <= |seg.text| && seg.cursor <= pos && tokens != [] &&
    (forall t :: t in tokens ==> |t| <= seg.cursor) &&
    (tokens[0] in commands && !IsWhitespace(seg.text[seg.cursor - 1]) ==> |tokens| >= 2)
  }

  /** Completing an argument of the command named by the first token. */
  function ArgumentCompletion(commands: Registry, seg: Segment, tokens: seq<string>, pos: nat): Expected
    requires ArgumentReady(commands, seg, tokens, pos)
  {
    if tokens[0] !in commands then Listed(pos, [])
    else
      var parser := commands[tokens[0]].parser;
      if IsWhitespace(seg.text[seg.cursor - 1]) then Listed(pos, PositionalHints(parser.positionals))
      else OptionCompletion(parser.options, tokens[|tokens| - 1], pos)
  }

  /** Completing the word that ends at the cursor `pos` against the declared options. */
  function OptionCompletion(options: seq<DeclaredOption>, word: string, pos: nat): Expected
    requires |word| <= pos
  {
    if StartsWith(word, "--") then Listed(pos - |word|, LongCandidates(options, word))
    else if StartsWith(word, "-") then Listed(pos - |word|, FlagCandidates(options, word))
    else Listed(pos, [])
  }

  /** A start and a candidate list are an answer allowed by `e`. */
  predicate Answers(e: Expected, start: nat, candidates: seq<Pair>) {
    match e
    case Listed(s, cs) => start == s && candidates == cs
    case Names(s, names) =>
      start == s && Distinct(candidates) &&
      (forall p :: p in candidates ==> p.display in names && p.replacement == p.display) &&
      (forall n :: n in names ==> Pair(n, n) in candidates)
  }

  /** `CompletionOf` case by case, with what the argument case needs to be computed. */
  lemma CompletionByMode(commands: Registry, line: string, pos: nat)
    requires CanComplete(commands, line, pos)
    ensures var seg := CurrentSegment(line, pos);
      match ModeOf(seg)
      case Unlexable => CompletionOf(commands, line, pos) == Listed(seg.cursor, [])
      case CommandName(prefix) =>
        CompletionOf(commands, line, pos) == Names(SaturatingSub(pos, |seg.text|), MatchingNames(commands, prefix))
      case Argument(tokens) =>
        ArgumentReady(commands, seg, tokens, pos) &&
        CompletionOf(commands, line, pos) == ArgumentCompletion(commands, seg, tokens, pos)
  {
    var seg := CurrentSegment(line, pos);
    match ModeOf(seg)
    case Unlexable =>
    case CommandName(prefix) =>
    case Argument(tokens) =>
      assert ArgumentReady(commands, seg, tokens, pos);
  }

  class CommandCompleter {
    const commands: Registry

    constructor (commands: Registry)
      ensures this.commands == commands
    {
      this.commands := commands;
    }

    method Complete(line: string, pos: nat) returns (start: nat, candidates: seq<Pair>)
      requires CanComplete(commands, line, pos)
      ensures Answers(CompletionOf(commands, line, pos), start, candidates)
    {
      var origPos := pos;
      var text, cursor := line, pos;
      var pipe := LastIndexOf(line, '|');
      if pipe.Some? {
        text, cursor := line[pipe.value + 1..], pos - pipe.value - 1;
      }
      ghost var seg := CurrentSegment(line, pos);
      assert text == seg.text && cursor == seg.cursor;
      CompletionByMode(commands, line, pos);
      var before := text[..cursor];
      var split := Shlex.Split(before);
      if split.None? {
        assert ModeOf(seg) == Unlexable;
        return cursor, [];
      }
      var subtokens := split.value;
      var isFirstWord: bool, prefix: string;
      if subtokens == [] {
        isFirstWord, prefix := true, "";
      } else {
        isFirstWord, prefix := |subtokens| < 2 && !HasWhitespace(before), Trim(text);
      }

      if isFirstWord {
        assert ModeOf(seg) == CommandName(prefix);
        candidates := MatchingCommands(prefix);
        return SaturatingSub(origPos, |text|), candidates;
      }

      // Completing an argument of the command named by the first word.
      assert ModeOf(seg) == Argument(subtokens);
      start, candidates := CompleteArgument(Segment(text, cursor), subtokens, origPos);
    }

    /** The argument part of `complete`, from `pop_front` of the command name on. */
    method CompleteArgument(seg: Segment, subtokens: seq<string>, origPos: nat) returns (start: nat, candidates: seq<Pair>)
      requires ArgumentReady(commands, seg, subtokens, origPos)
      ensures Listed(start, candidates) == ArgumentCompletion(commands, seg, subtokens, origPos)
    {
      ghost var tokens := subtokens;
      var text, cursor := seg.text, seg.cursor;
      var first := subtokens[0];
      var subtokens := subtokens[1..];
      if first !in commands {
        return origPos, [];
      }
      var parser := commands[first].parser;
      if IsWhitespace(text[cursor - 1]) {
        // Not on a word: list the positionals as hints.
        candidates := Hints(parser.positionals);
        return origPos, candidates;
      }
      var word := subtokens[|subtokens| - 1];
      assert word == tokens[|tokens| - 1];
      if StartsWith(word, "--") {
        candidates := LongOptions(parser.options, word);
        return origPos - |word|, candidates;
      } else if StartsWith(word, "-") {
        candidates := ShortOptions(parser.options, word);
        return origPos - |word|, candidates;
      } else {
        // A positional word: nothing to complete.
        return origPos, [];
      }
    }

    /** The name loop: registered names with the prefix, in the map's iteration order. */
    method MatchingCommands(prefix: string) returns (res: seq<Pair>)
      ensures Answers(Names(0, MatchingNames(commands, prefix)), 0, res)
    {
      res := [];
      var rest := commands.Keys;
      while rest != {}
        invariant rest <= commands.Keys
        invariant Distinct(res)
        invariant forall p :: p in res ==>
          p.display in commands.Keys - rest && StartsWith(p.display, prefix) && p.replacement == p.display
        invariant forall n :: n in commands.Keys - rest && StartsWith(n, prefix) ==> Pair(n, n) in res
        decreases rest
      {
        var name :| name in rest;
        if StartsWith(name, prefix) {
          res := res + [Pair(name, name)];
        }
        rest := rest - {name};
      }
    }
  }

  /** The positional loop. */
  method Hints(positionals: seq<string>) returns (completions: seq<Pair>)
    ensures completions == PositionalHints(positionals)
  {
    completions := [];
    for k := 0 to |positionals|
      invariant completions == PositionalHints(positionals[..k])
    {
      assert positionals[..k + 1][..k] == positionals[..k];
      completions := completions + [Pair(positionals[k], "")];
    }
    assert positionals[..|positionals|] == positionals;
  }

  /** The loop after `--`: long forms only. */
  method LongOptions(options: seq<DeclaredOption>, word: string) returns (completions: seq<Pair>)
    ensures completions == LongCandidates(options, word)
  {
    completions := [];
    for k := 0 to |options|
      invariant completions == LongCandidates(options[..k], word)
    {
      assert options[..k + 1][..k] == options[..k];
      if options[k].long.Some? {
        var replacement := "--" + options[k].long.value;
        if StartsWith(replacement, word) {
          assert Pair("[" + replacement + "]", replacement) == LongPair(options[k].long.value);
          completions := completions + [Pair("[" + replacement + "]", replacement)];
        }
      }
    }
    assert options[..|options|] == options;
  }

  /** The loop after a single `-`: one candidate shape per option. */
  method ShortOptions(options: seq<DeclaredOption>, word: string) returns (completions: seq<Pair>)
    ensures completions == FlagCandidates(options, word)
  {
    completions := [];
    for k := 0 to |options|
      invariant completions == FlagCandidates(options[..k], word)
    {
      assert options[..k + 1][..k] == options[..k];
      var long, short := options[k].long, options[k].short;
      var display: string, replacement: string;
      if long.Some? && short.Some? {
        display, replacement := "[-" + [short.value] + ", --" + long.value + "]", "-" + [short.value] + " ";
      } else if long.Some? {
        display, replacement := "[--" + long.value + "]", "--" + long.value + " ";
      } else {
        display, replacement := "[-" + [short.value] + "]", "-" + [short.value] + " ";
      }
      if StartsWith(replacement, word) {
        completions := completions + [Pair(display, replacement)];
      }
    }
    assert options[..|options|] == options;
  }

  // ---------------------------------------------------------------------------
  // What the candidates mean

  /** After `--`: exactly the long forms `--long` that extend the word, shown as `[--long]`, inserted without a trailing space. */
  lemma {:induction false} LongCandidatesExactly(options: seq<DeclaredOption>, word: string)
    ensures |LongCandidates(options, word)| <= |options|
    ensures forall p :: p in LongCandidates(options, word) <==>
      exists k :: 0 <= k < |options| && options[k].long.Some? &&
        p == LongPair(options[k].long.value) && StartsWith(p.replacement, word)
  {
    if options != [] {
      var init, last := options[..|options| - 1], options[|options| - 1];
      LongCandidatesExactly(init, word);
      forall p
        ensures p in LongCandidates(options, word) <==>
          exists k :: 0 <= k < |options| && options[k].long.Some? &&
            p == LongPair(options[k].long.value) && StartsWith(p.replacement, word)
      {
        if p in LongCandidates(init, word) {
          var k :| 0 <= k < |init| && init[k].long.Some? && p == LongPair(init[k].long.value) && StartsWith(p.replacement, word);
          assert options[k] == init[k];
        }
        if exists k :: 0 <= k < |options| && options[k].long.Some? && p == LongPair(options[k].long.value) && StartsWith(p.replacement, word) {
          var k :| 0 <= k < |options| && options[k].long.Some? && p == LongPair(options[k].long.value) && StartsWith(p.replacement, word);
          if k < |init| {
            assert init[k] == options[k];
          }
        }
      }
    }
  }

  /** After a single `-`: exactly the options whose candidate's replacement extends the word. */
  lemma {:induction false} FlagCandidatesExactly(options: seq<DeclaredOption>, word: string)
    ensures |FlagCandidates(options, word)| <= |options|
    ensures forall p :: p in FlagCandidates(options, word) <==>
      exists k :: 0 <= k < |options| && p == FlagPair(options[k]) && StartsWith(p.replacement, word)
  {
    if options != [] {
      var init := options[..|options| - 1];
      FlagCandidatesExactly(init, word);
      forall p
        ensures p in FlagCandidates(options, word) <==>
          exists k :: 0 <= k < |options| && p == FlagPair(options[k]) && StartsWith(p.replacement, word)
      {
        if p in FlagCandidates(init, word) {
          var k :| 0 <= k < |init| && p == FlagPair(init[k]) && StartsWith(p.replacement, word);
          assert options[k] == init[k];
        }
        if exists k :: 0 <= k < |options| && p == FlagPair(options[k]) && StartsWith(p.replacement, word) {
          var k :| 0 <= k < |options| && p == FlagPair(options[k]) && StartsWith(p.replacement, word);
          if k < |init| {
            assert init[k] == options[k];
          }
        }
      }
    }
  }

  /**
   * The three shapes of a candidate after `-`: both forms show `[-s, --long]`
   * and insert `-s `, a long-only option shows `[--long]` and inserts
   * `--long `, a short-only one shows `[-s]` and inserts `-s `. Every
   * replacement is a flag followed by a space.
   */
  lemma FlagPairShape(o: DeclaredOption)
    ensures var p := FlagPair(o);
      StartsWith(p.replacement, "-") && p.replacement[|p.replacement| - 1] == ' ' &&
      (o.short.Some? ==> p.replacement == ['-', o.short.value, ' ']) &&
      (o.short.None? ==> p.replacement == "--" + o.long.value + " " && p.display == "[" + p.replacement[..|p.replacement| - 1] + "]") &&
      (o.short.Some? && o.long.Some? ==> p.display == "[-" + [o.short.value] + ", " + LongPair(o.long.value).replacement + "]")
  {
    var p := FlagPair(o);
    assert p.replacement[..1] == "-";
    if o.short.None? {
      assert p.replacement[..|p.replacement| - 1] == "--" + o.long.value;
    }
  }

  /** A lone `-` offers every declared option, in declaration order. */
  lemma {:induction false} SingleDashOffersEveryOption(options: seq<DeclaredOption>)
    ensures |FlagCandidates(options, "-")| == |options|
    ensures forall k :: 0 <= k < |options| ==> FlagCandidates(options, "-")[k] == FlagPair(options[k])
  {
    if options != [] {
      var init := options[..|options| - 1];
      SingleDashOffersEveryOption(init);
      FlagPairShape(options[|options| - 1]);
      forall k | 0 <= k < |init| ensures init[k] == options[k] { }
    }
  }

  // ---------------------------------------------------------------------------
  // What `complete` answers, case by case

  /** Earlier pipeline stages do not matter: the candidates are those of the text after the last `|` alone. */
  lemma CandidatesIgnoreEarlierStages(commands: Registry, line: string, pos: nat, earlier: string, text: string, cursor: nat)
    requires line == earlier + "|" + text && pos == |earlier| + 1 + cursor
    requires forall k :: 0 <= k < |text| ==> text[k] != '|'
    requires CanComplete(commands, text, cursor) && IsAscii(earlier)
    ensures CanComplete(commands, line, pos)
    ensures var whole, alone := CompletionOf(commands, line, pos), CompletionOf(commands, text, cursor);
      whole.Names? == alone.Names? &&
      (whole.Names? ==> whole.names == alone.names) &&
      (whole.Listed? ==> whole.candidates == alone.candidates)
  {
    SegmentAfterLastPipe(line, pos, earlier, text, cursor);
    SameSegmentSameCandidates(commands, line, pos, text, cursor);
  }

  lemma SegmentAfterLastPipe(line: string, pos: nat, earlier: string, text: string, cursor: nat)
    requires line == earlier + "|" + text && pos == |earlier| + 1 + cursor && cursor <= |text|
    requires forall k :: 0 <= k < |text| ==> text[k] != '|'
    requires IsAscii(earlier) && IsAscii(text)
    ensures IsAscii(line) && CursorInLastSegment(line, pos) && CursorInLastSegment(text, cursor)
    ensures CurrentSegment(line, pos) == CurrentSegment(text, cursor) == Segment(text, cursor)
  {
    assert LastIndexOf(line, '|') == Some(|earlier|) by {
      assert line[|earlier|] == '|';
      assert forall k :: |earlier| < k < |line| ==> line[k] == text[k - |earlier| - 1];
    }
    assert line[|earlier| + 1..] == text;
    assert IsAscii(line) by {
      forall k | 0 <= k < |line| ensures line[k] as int < 128 {
        if k > |earlier| { assert line[k] == text[k - |earlier| - 1]; }
      }
    }
  }

  lemma SameSegmentSameCandidates(commands: Registry, line: string, pos: nat, line': string, pos': nat)
    requires CanComplete(commands, line', pos') && IsAscii(line) && CursorInLastSegment(line, pos)
    requires CurrentSegment(line, pos) == CurrentSegment(line', pos')
    ensures CanComplete(commands, line, pos)
    ensures var whole, alone := CompletionOf(commands, line, pos), CompletionOf(commands, line', pos');
      whole.Names? == alone.Names? &&
      (whole.Names? ==> whole.names == alone.names) &&
      (whole.Listed? ==> whole.candidates == alone.candidates)
  {
    var seg := CurrentSegment(line, pos);
    assert CanComplete(commands, line, pos);
    CompletionByMode(commands, line, pos);
    CompletionByMode(commands, line', pos');
    match ModeOf(seg)
    case Unlexable =>
    case CommandName(prefix) =>
    case Argument(tokens) =>
      ArgumentCandidatesIgnoreCursor(commands, seg, tokens, pos, pos');
  }

  lemma ArgumentCandidatesIgnoreCursor(commands: Registry, seg: Segment, tokens: seq<string>, pos: nat, pos': nat)
    requires ArgumentReady(commands, seg, tokens, pos) && ArgumentReady(commands, seg, tokens, pos')
    ensures ArgumentCompletion(commands, seg, tokens, pos).candidates == ArgumentCompletion(commands, seg, tokens, pos').candidates
  {
  }

  /** A cursor in text that does not tokenize gets no candidates; the start is the rebased cursor. */
  lemma LexFailureOffersNothing(commands: Registry, line: string, pos: nat)
    requires CanComplete(commands, line, pos)
    requires var seg := CurrentSegment(line, pos); Shlex.Split(seg.text[..seg.cursor]).None?
    ensures CompletionOf(commands, line, pos) == Listed(CurrentSegment(line, pos).cursor, [])
  {
  }

  /** Nothing but blanks before the cursor: every registered name is offered. */
  lemma BlankBeforeCursorOffersEveryName(commands: Registry, line: string, pos: nat)
    requires CanComplete(commands, line, pos)
    requires var seg := CurrentSegment(line, pos);
      forall k :: 0 <= k < seg.cursor ==> Shlex.IsBlank(seg.text[k])
    ensures var seg := CurrentSegment(line, pos);
      CompletionOf(commands, line, pos) == Names(SaturatingSub(pos, |seg.text|), commands.Keys)
  {
    var seg := CurrentSegment(line, pos);
    Shlex.SplitBlanks(seg.text[..seg.cursor]);
    assert MatchingNames(commands, "") == commands.Keys;
  }

  /**
   * Typing a plain word at the end of a line with no `|` offers exactly the
   * registered names that start with it, replacing from the line's start.
   */
  lemma CompletesCommandPrefix(commands: Registry, w: string)
    requires w != [] && IsAscii(w) && !HasWhitespace(w)
    requires forall k :: 0 <= k < |w| ==> Shlex.IsPlain(w[k]) && w[k] != '|'
    ensures CanComplete(commands, w, |w|)
    ensures CompletionOf(commands, w, |w|) == Names(0, set n | n in commands && StartsWith(n, w))
  {
    assert LastIndexOf(w, '|') == None;
    assert w[..|w|] == w;
    Shlex.SplitPlain(w);
    TrimWithoutWhitespace(w);
    assert CurrentSegment(w, |w|) == Segment(w, |w|);
    assert ModeOf(Segment(w, |w|)) == CommandName(w);
    CompletionByMode(commands, w, |w|);
  }

  /**
   * A line holding a registered command name, one space and a word, with the
   * cursor at its end, completes that word against the command's options.
   */
  lemma SecondWordCompletion(commands: Registry, name: string, word: string)
    requires name != [] && word != [] && name in commands
    requires forall k :: 0 <= k < |name| ==> Shlex.IsPlain(name[k]) && name[k] != '|' && name[k] as int < 128
    requires forall k :: 0 <= k < |word| ==> Shlex.IsPlain(word[k]) && word[k] != '|' && word[k] as int < 128
    requires !IsWhitespace(word[|word| - 1])
    ensures CanComplete(commands, name + " " + word, |name| + 1 + |word|)
    ensures CompletionOf(commands, name + " " + word, |name| + 1 + |word|)
      == OptionCompletion(commands[name].parser.options, word, |name| + 1 + |word|)
  {
    var line, pos := name + " " + word, |name| + 1 + |word|;
    NameThenWord(name, word);
    var seg := CurrentSegment(line, pos);
    assert seg.text[seg.cursor - 1] == word[|word| - 1];
    CompletionByMode(commands, line, pos);
  }

  /** `name word` with the cursor at its end is in argument mode with exactly those two words. */
  lemma NameThenWord(name: string, word: string)
    requires name != [] && word != []
    requires forall k :: 0 <= k < |name| ==> Shlex.IsPlain(name[k]) && name[k] != '|' && name[k] as int < 128
    requires forall k :: 0 <= k < |word| ==> Shlex.IsPlain(word[k]) && word[k] != '|' && word[k] as int < 128
    ensures var line, pos := name + " " + word, |name| + 1 + |word|;
      IsAscii(line) && CursorInLastSegment(line, pos) &&
      CurrentSegment(line, pos) == Segment(line, pos) &&
      ModeOf(Segment(line, pos)) == Argument([name, word])
  {
    var line, pos := name + " " + word, |name| + 1 + |word|;
    NameThenWordChars(name, word);
    assert CurrentSegment(line, pos) == Segment(line, pos);
    assert line[..pos] == line;
    Shlex.SplitTwoWords(name, word);
  }

  lemma NameThenWordChars(name: string, word: string)
    requires forall k :: 0 <= k < |name| ==> name[k] != '|' && name[k] as int < 128
    requires forall k :: 0 <= k < |word| ==> word[k] != '|' && word[k] as int < 128
    ensures IsAscii(name + " " + word) && LastIndexOf(name + " " + word, '|') == None
  {
    var line := name + " " + word;
    forall k | 0 <= k < |line| ensures line[k] != '|' && line[k] as int < 128 {
      if k < |name| {
        assert line[k] == name[k];
      } else if k == |name| {
        assert line[k] == ' ';
      } else {
        assert line[k] == word[k - |name| - 1];
      }
    }
    assert IsAscii(line);
  }

  /** A first word that names no registered command gets no candidates. */
  lemma UnknownCommandOffersNothing(commands: Registry, line: string, pos: nat, tokens: seq<string>)
    requires CanComplete(commands, line, pos)
    requires ModeOf(CurrentSegment(line, pos)) == Argument(tokens)
    requires tokens[0] !in commands
    ensures CompletionOf(commands, line, pos) == Listed(pos, [])
  {
  }

  /** At whitespace after a known command: one hint per positional, in order, inserting nothing. */
  lemma PositionalHintsAtWhitespace(commands: Registry, line: string, pos: nat, tokens: seq<string>)
    requires CanComplete(commands, line, pos)
    requires ModeOf(CurrentSegment(line, pos)) == Argument(tokens)
    requires tokens[0] in commands
    requires var seg := CurrentSegment(line, pos); IsWhitespace(seg.text[seg.cursor - 1])
    ensures var e, ids := CompletionOf(commands, line, pos), commands[tokens[0]].parser.positionals;
      e.Listed? && e.start == pos && |e.candidates| == |ids| &&
      forall k :: 0 <= k < |ids| ==> e.candidates[k] == Pair(ids[k], "")
  {
    CompletionByMode(commands, line, pos);
  }

  /** On a word after a known command, the answer is the option completion of the last token. */
  lemma OnWordAfterKnownCommand(commands: Registry, line: string, pos: nat, tokens: seq<string>)
    requires CanComplete(commands, line, pos)
    requires ModeOf(CurrentSegment(line, pos)) == Argument(tokens)
    requires tokens[0] in commands
    requires var seg := CurrentSegment(line, pos); !IsWhitespace(seg.text[seg.cursor - 1])
    ensures |tokens[|tokens| - 1]| <= pos
    ensures CompletionOf(commands, line, pos) ==
      OptionCompletion(commands[tokens[0]].parser.options, tokens[|tokens| - 1], pos)
  {
    CompletionByMode(commands, line, pos);
  }

  /** A word starting with `--`: the long forms extending it, replacing the word. */
  lemma LongFormCompletion(commands: Registry, line: string, pos: nat, tokens: seq<string>)
    requires CanComplete(commands, line, pos)
    requires ModeOf(CurrentSegment(line, pos)) == Argument(tokens)
    requires tokens[0] in commands
    requires var seg := CurrentSegment(line, pos); !IsWhitespace(seg.text[seg.cursor - 1])
    requires StartsWith(tokens[|tokens| - 1], "--")
    ensures var e, word, options := CompletionOf(commands, line, pos), tokens[|tokens| - 1], commands[tokens[0]].parser.options;
      e.Listed? && e.start == pos - |word| &&
      forall p :: p in e.candidates <==>
        exists k :: 0 <= k < |options| && options[k].long.Some? &&
          p == LongPair(options[k].long.value) && StartsWith(p.replacement, word)
  {
    var word := tokens[|tokens| - 1];
    var options := commands[tokens[0]].parser.options;
    OnWordAfterKnownCommand(commands, line, pos, tokens);
    LongCandidatesExactly(options, word);
  }

  /** A word starting with a single `-`: each option's candidate if it extends the word, replacing the word. */
  lemma ShortFormCompletion(commands: Registry, line: string, pos: nat, tokens: seq<string>)
    requires CanComplete(commands, line, pos)
    requires ModeOf(CurrentSegment(line, pos)) == Argument(tokens)
    requires tokens[0] in commands
    requires var seg := CurrentSegment(line, pos); !IsWhitespace(seg.text[seg.cursor - 1])
    requires StartsWith(tokens[|tokens| - 1], "-") && !StartsWith(tokens[|tokens| - 1], "--")
    ensures var e, word, options := CompletionOf(commands, line, pos), tokens[|tokens| - 1], commands[tokens[0]].parser.options;
      e.Listed? && e.start == pos - |word| &&
      forall p :: p in e.candidates <==>
        exists k :: 0 <= k < |options| && p == FlagPair(options[k]) && StartsWith(p.replacement, word)
  {
    var word := tokens[|tokens| - 1];
    var options := commands[tokens[0]].parser.options;
    OnWordAfterKnownCommand(commands, line, pos, tokens);
    FlagCandidatesExactly(options, word);
  }

  /** A word not starting with `-` is a positional value: no candidates. */
  lemma BareWordOffersNothing(commands: Registry, line: string, pos: nat, tokens: seq<string>)
    requires CanComplete(commands, line, pos)
    requires ModeOf(CurrentSegment(line, pos)) == Argument(tokens)
    requires tokens[0] in commands
    requires var seg := CurrentSegment(line, pos); !IsWhitespace(seg.text[seg.cursor - 1])
    requires !StartsWith(tokens[|tokens| - 1], "-")
    ensures CompletionOf(commands, line, pos) == Listed(pos, [])
  {
    OnWordAfterKnownCommand(commands, line, pos, tokens);
    var word := tokens[|tokens| - 1];
    assert !StartsWith(word, "--");
  }
}
