/**
 * Completions on small concrete registries: two names sharing a prefix, an
 * option with long and short forms, a positional, and the inputs on which
 * `complete` panics or answers from an unexpected start.
 */
module CompletionExamples {
  import opened Wrappers
  import opened Text
  import Shlex
  import opened Commands
  import opened Completion

  function Plain(name: string, parser: Schema): Command {
    Command(name, parser, _ => true, _ => true)
  }

  /** With `dir` and `dirx` registered, `di` at the end of the line offers both names. */
  lemma PrefixOffersBothNames()
    ensures var commands := map["dir" := Plain("dir", Schema([], [])), "dirx" := Plain("dirx", Schema([], []))];
      CanComplete(commands, "di", 2) &&
      CompletionOf(commands, "di", 2) == Names(0, {"dir", "dirx"})
  {
    var commands := map["dir" := Plain("dir", Schema([], [])), "dirx" := Plain("dirx", Schema([], []))];
    forall k | 0 <= k < 2 ensures !IsWhitespace("di"[k]) { }
    CompletesCommandPrefix(commands, "di");
    assert StartsWith("dir", "di") && StartsWith("dirx", "di");
    assert (set n | n in commands && StartsWith(n, "di")) == {"dir", "dirx"};
  }

  function Verbose(): Command {
    Plain("cmd", Schema(["path"], [OptionArg(Some("verbose"), Some('v'))]))
  }

  /** `cmd --` offers `[--verbose]`, inserting `--verbose` in place of the `--`. */
  lemma DoubleDashOffersLongForm()
    ensures var commands := map["cmd" := Verbose()];
      CanComplete(commands, "cmd --", 6) &&
      CompletionOf(commands, "cmd --", 6) == Listed(4, [Pair("[--verbose]", "--verbose")])
  {
    var commands := map["cmd" := Verbose()];
    var options := Verbose().parser.options;
    SecondWordCompletion(commands, "cmd", "--");
    assert "cmd" + " " + "--" == "cmd --";
    assert OptionCompletion(options, "--", 6) == Listed(4, LongCandidates(options, "--"));
    VerboseAfterDoubleDash();
  }

  lemma VerboseAfterDoubleDash()
    ensures LongCandidates(Verbose().parser.options, "--") == [Pair("[--verbose]", "--verbose")]
  {
    var options := Verbose().parser.options;
    assert StartsWith("--verbose", "--");
    assert options[..0] == [];
    assert LongPair("verbose") == Pair("[--verbose]", "--verbose");
  }

  /** `cmd -` offers `[-v, --verbose]`, inserting `-v ` in place of the `-`. */
  lemma SingleDashOffersBothForms()
    ensures var commands := map["cmd" := Verbose()];
      CanComplete(commands, "cmd -", 5) &&
      CompletionOf(commands, "cmd -", 5) == Listed(4, [Pair("[-v, --verbose]", "-v ")])
  {
    var commands := map["cmd" := Verbose()];
    var options := Verbose().parser.options;
    SecondWordCompletion(commands, "cmd", "-");
    assert "cmd" + " " + "-" == "cmd -";
    assert OptionCompletion(options, "-", 5) == Listed(4, FlagCandidates(options, "-")) by {
      assert !StartsWith("-", "--");
    }
    VerboseAfterDash();
  }

  lemma VerboseAfterDash()
    ensures FlagCandidates(Verbose().parser.options, "-") == [Pair("[-v, --verbose]", "-v ")]
  {
    var options := Verbose().parser.options;
    assert FlagPair(options[0]) == Pair("[-v, --verbose]", "-v ");
    assert StartsWith("-v ", "-");
    assert options[..0] == [];
  }

  /** `cmd ` lists the positional `path` as a hint that inserts nothing. */
  lemma SpaceListsPositionals()
    ensures var commands := map["cmd" := Verbose()];
      CanComplete(commands, "cmd ", 4) &&
      CompletionOf(commands, "cmd ", 4) == Listed(4, [Pair("path", "")])
  {
    var commands := map["cmd" := Verbose()];
    CommandThenSpace();
    var seg := Segment("cmd ", 4);
    assert IsWhitespace(seg.text[3]);
    assert CanComplete(commands, "cmd ", 4);
    assert CompletionOf(commands, "cmd ", 4) == ArgumentCompletion(commands, seg, ["cmd"], 4);
    assert PositionalHints(["path"]) == [Pair("path", "")];
  }

  /** `cmd ` with the cursor at the end is in argument mode after the single word `cmd`. */
  lemma CommandThenSpace()
    ensures IsAscii("cmd ") && CursorInLastSegment("cmd ", 4)
    ensures CurrentSegment("cmd ", 4) == Segment("cmd ", 4)
    ensures ModeOf(Segment("cmd ", 4)) == Argument(["cmd"])
  {
    Shlex.SplitWordBlank("cmd");
    assert "cmd" + " " == "cmd ";
    assert "cmd "[..4] == "cmd ";
    assert LastIndexOf("cmd ", '|') == None;
    assert HasWhitespace("cmd ") by { assert IsWhitespace("cmd "[3]); }
  }

  /**
   * A registered name typed after a leading blank, with the cursor on it, is
   * one of the inputs on which `complete` panics: there is whitespace before
   * the cursor, so it is not the first word, and after the name is popped
   * there is no word left to complete.
   */
  lemma BlankThenRegisteredNamePanics()
    ensures !CanComplete(map["ls" := Plain("ls", Schema([], []))], " ls", 3)
  {
    Shlex.SplitBlankWord("ls");
    assert " " + "ls" == " ls";
    assert " ls"[..3] == " ls";
    assert LastIndexOf(" ls", '|') == None;
    assert HasWhitespace(" ls") by { assert IsWhitespace(" ls"[0]); }
    assert ModeOf(Segment(" ls", 3)) == Argument(["ls"]);
  }

  /**
   * The start of a command-name completion is the cursor minus the length
   * of the whole segment, so with the cursor inside the word after a `|`
   * it lies before the segment: in `ab|dir` with the cursor after `d`, the
   * name `dir` replaces from index 1, not from the segment's start, 3.
   */
  lemma NameStartCountsWholeSegment()
    ensures var commands := map["dir" := Plain("dir", Schema([], []))];
      CanComplete(commands, "ab|dir", 4) &&
      CompletionOf(commands, "ab|dir", 4) == Names(1, {"dir"})
  {
    var commands := map["dir" := Plain("dir", Schema([], []))];
    CursorAfterPipe();
    NamePrefixIsWholeWord();
    assert MatchingNames(commands, "dir") == {"dir"} by {
      assert StartsWith("dir", "dir");
    }
  }

  /** In `ab|dir` with the cursor after `d`, the segment is `dir` with the cursor at 1. */
  lemma CursorAfterPipe()
    ensures IsAscii("ab|dir") && CursorInLastSegment("ab|dir", 4)
    ensures CurrentSegment("ab|dir", 4) == Segment("dir", 1)
  {
    var line := "ab|dir";
    assert LastIndexOf(line, '|') == Some(2) by {
      assert line[2] == '|' && line[3] != '|' && line[4] != '|' && line[5] != '|';
    }
    assert line[3..] == "dir";
    forall k | 0 <= k < |line| ensures line[k] as int < 128 { }
  }

  /** With the cursor after `d` in `dir`, the prefix is the whole word `dir`. */
  lemma NamePrefixIsWholeWord()
    ensures ModeOf(Segment("dir", 1)) == CommandName("dir")
  {
    assert "dir"[..1] == "d";
    Shlex.SplitPlain("d");
    assert !HasWhitespace("d") by { assert !IsWhitespace("d"[0]); }
    forall k | 0 <= k < 3 ensures !IsWhitespace("dir"[k]) { }
    TrimWithoutWhitespace("dir");
  }

  /**
   * The prefix matched against command names includes the text after the
   * cursor: in `dir foo` with the cursor after `di`, no name matches
   * `dir foo`, so even the registered `dir` is not offered.
   */
  lemma TextAfterCursorJoinsPrefix()
    ensures var commands := map["dir" := Plain("dir", Schema([], []))];
      CanComplete(commands, "dir foo", 2) &&
      CompletionOf(commands, "dir foo", 2) == Names(0, {})
  {
    var commands := map["dir" := Plain("dir", Schema([], []))];
    CursorInsideFirstWord();
    CompletionByMode(commands, "dir foo", 2);
    assert !StartsWith("dir", "dir foo");
    assert MatchingNames(commands, "dir foo") == {};
  }

  /** In `dir foo` with the cursor after `di`, the prefix is the whole trimmed line `dir foo`. */
  lemma CursorInsideFirstWord()
    ensures IsAscii("dir foo") && CursorInLastSegment("dir foo", 2)
    ensures CurrentSegment("dir foo", 2) == Segment("dir foo", 2)
    ensures ModeOf(Segment("dir foo", 2)) == CommandName("dir foo")
  {
    var line := "dir foo";
    assert LastIndexOf(line, '|') == None;
    forall k | 0 <= k < |line| ensures line[k] as int < 128 { }
    assert line[..2] == "di";
    Shlex.SplitPlain("di");
    assert !HasWhitespace("di") by { assert !IsWhitespace("di"[0]) && !IsWhitespace("di"[1]); }
    assert Trim(line) == line by {
      assert !IsWhitespace(line[0]) && !IsWhitespace(line[|line| - 1]);
    }
  }

  /**
   * After `| ` a name prefix is already an argument: in `a | di` with `dir`
   * registered, the word `di` is taken as an unknown command and nothing is
   * offered.
   */
  lemma NoNamesAfterPipeAndBlank()
    ensures var commands := map["dir" := Plain("dir", Schema([], []))];
      CanComplete(commands, "a | di", 6) &&
      CompletionOf(commands, "a | di", 6) == Listed(6, [])
  {
    var commands := map["dir" := Plain("dir", Schema([], []))];
    BlankThenWordAfterPipe();
    assert CanComplete(commands, "a | di", 6);
    CompletionByMode(commands, "a | di", 6);
  }

  /** In `a | di` with the cursor at the end, the segment ` di` is in argument mode with the token `di`. */
  lemma BlankThenWordAfterPipe()
    ensures IsAscii("a | di") && CursorInLastSegment("a | di", 6)
    ensures CurrentSegment("a | di", 6) == Segment(" di", 3)
    ensures ModeOf(Segment(" di", 3)) == Argument(["di"])
  {
    var line := "a | di";
    assert LastIndexOf(line, '|') == Some(2) by {
      assert line[2] == '|' && line[3] != '|' && line[4] != '|' && line[5] != '|';
    }
    assert line[3..] == " di";
    forall k | 0 <= k < |line| ensures line[k] as int < 128 { }
    Shlex.SplitBlankWord("di");
    assert " " + "di" == " di" && " di"[..3] == " di";
    assert HasWhitespace(" di") by { assert IsWhitespace(" di"[0]); }
  }

  /**
   * The tokenizer here has no `#` comments, so `#` after a registered name
   * is a word of its own: `ls #` with the cursor at the end completes the
   * word `#` against the options of `ls`, which offers nothing.
   */
  lemma HashIsAWord()
    ensures var commands := map["ls" := Plain("ls", Schema([], []))];
      CanComplete(commands, "ls #", 4) &&
      CompletionOf(commands, "ls #", 4) == Listed(4, [])
  {
    var commands := map["ls" := Plain("ls", Schema([], []))];
    SecondWordCompletion(commands, "ls", "#");
    assert "ls" + " " + "#" == "ls #";
    assert !StartsWith("#", "-");
  }
}
