/**
 * The console: a prompt and a registry of commands, and the read loop that
 * tokenizes each line, looks up its first word and runs the command.
 */
module Console {
  import opened Wrappers
  import Shlex
  import opened Commands

  /** rustyline's `ReadlineError`, as far as the loop tells its variants apart. */
  datatype EditorError = Eof | Interrupted | Other(description: string)

  datatype ConsoleError =
    | Uncategorized
    | ReadlineError(cause: EditorError)
    | LexingError(line: string)
    | CommandError(name: string)

  /** One call of `readline`: a line, or the editor's error. */
  datatype Read = Line(text: string) | Failed(error: EditorError)

  /**
   * What one line that does not end the loop did. `Unrecognized`,
   * `Rejected` and a failed `Ran` are the lines the loop prints to standard
   * error; `Ran` is the only one that executes a command.
   */
  datatype Report =
    | Blank
    | Unrecognized(word: string)
    | Rejected(name: string)
    | Ran(name: string, failure: Option<ConsoleError>)

  /** One iteration either continues with a report or returns from `cmd_loop`. */
  datatype Step = Continue(report: Report) | Stop(result: Result<(), ConsoleError>)

  /** How the loop left off after the reads it was given. */
  datatype LoopEnd = Returned(result: Result<(), ConsoleError>) | AwaitingInput

  datatype Session = Session(end: LoopEnd, reports: seq<Report>)

  /** One iteration of `cmd_loop` on the result of one read. */
  function Dispatch(commands: Registry, read: Read): Step {
    match read
    case Failed(e) => if e.Eof? then Stop(Ok(())) else Stop(Err(ReadlineError(e)))
    case Line(text) =>
      match Shlex.Split(text)
      case None => Stop(Err(LexingError(text)))
      case Some(tokens) =>
        if tokens == [] then Continue(Blank)
        else if tokens[0] !in commands then Continue(Unrecognized(tokens[0]))
        else
          var cmd := commands[tokens[0]];
          if !cmd.accepts(tokens) then Continue(Rejected(cmd.name))
          else if cmd.execute(tokens) then Continue(Ran(cmd.name, None))
          else Continue(Ran(cmd.name, Some(CommandError(cmd.name))))
  }

  /** The loop over a sequence of reads: iterate until one stops it. */
  function Run(commands: Registry, input: seq<Read>): Session {
    if input == [] then Session(AwaitingInput, [])
    else
      match Dispatch(commands, input[0])
      case Stop(result) => Session(Returned(result), [])
      case Continue(report) =>
        var rest := Run(commands, input[1..]);
        Session(rest.end, [report] + rest.reports)
  }

  /** The loop from read `k` on: that read's step, then the rest. */
  lemma RunUnfolds(commands: Registry, input: seq<Read>, k: nat)
    requires k < |input|
    ensures Run(commands, input[k..]) ==
      match Dispatch(commands, input[k])
      case Stop(result) => Session(Returned(result), [])
      case Continue(report) =>
        Session(Run(commands, input[k + 1..]).end, [report] + Run(commands, input[k + 1..]).reports)
  {
    assert input[k..][0] == input[k] && input[k..][1..] == input[k + 1..];
  }

  /** A read ends the loop exactly when the editor failed or the line could not be split. */
  lemma StopsOnlyOnReadOrLexFailure(commands: Registry, read: Read)
    ensures Dispatch(commands, read).Stop? <==> read.Failed? || Shlex.Split(read.text).None?
    ensures read.Failed? ==>
      Dispatch(commands, read).result == if read.error.Eof? then Ok(()) else Err(ReadlineError(read.error))
    ensures read.Line? && Shlex.Split(read.text).None? ==>
      Dispatch(commands, read).result == Err(LexingError(read.text))
    ensures Dispatch(commands, read) == Stop(Ok(())) <==> read == Failed(Eof)
  {
  }

  /**
   * A line runs a command exactly when it splits into words, the first is
   * a registered name and that command's parser accepts the words; the run
   * reports a `CommandError` carrying the command's name exactly when it
   * fails.
   */
  lemma RunsOnlyAcceptedCommands(commands: Registry, text: string, tokens: seq<string>)
    requires KeyedByName(commands)
    requires Shlex.Split(text) == Some(tokens)
    ensures var step := Dispatch(commands, Line(text));
      step.Continue? && step.report.Ran? <==>
        tokens != [] && tokens[0] in commands && commands[tokens[0]].accepts(tokens)
    ensures var step := Dispatch(commands, Line(text));
      step.Continue? && step.report.Ran? ==>
        step.report.name == tokens[0] &&
        (step.report.failure == Some(CommandError(tokens[0])) <==> !commands[tokens[0]].execute(tokens)) &&
        (step.report.failure.None? <==> commands[tokens[0]].execute(tokens))
  {
  }

  /** A line that splits into no words is skipped; one whose first word is unknown is reported. */
  lemma UnknownOrBlankLinesContinue(commands: Registry, text: string, tokens: seq<string>)
    requires Shlex.Split(text) == Some(tokens)
    ensures tokens == [] ==> Dispatch(commands, Line(text)) == Continue(Blank)
    ensures tokens != [] && tokens[0] !in commands ==>
      Dispatch(commands, Line(text)) == Continue(Unrecognized(tokens[0]))
  {
  }

  /**
   * The loop returns at the first read that stops it, with that read's
   * result, having reported every read before it.
   */
  lemma {:induction false} FirstStopEndsSession(commands: Registry, input: seq<Read>, k: nat)
    requires k < |input|
    requires forall j :: 0 <= j < k ==> Dispatch(commands, input[j]).Continue?
    requires Dispatch(commands, input[k]).Stop?
    ensures Run(commands, input).end == Returned(Dispatch(commands, input[k]).result)
    ensures |Run(commands, input).reports| == k
    ensures forall j :: 0 <= j < k ==> Run(commands, input).reports[j] == Dispatch(commands, input[j]).report
  {
    if k > 0 {
      FirstStopEndsSession(commands, input[1..], k - 1);
      var rest := Run(commands, input[1..]);
      assert Run(commands, input) == Session(rest.end, [Dispatch(commands, input[0]).report] + rest.reports);
      forall j | 0 < j < k
        ensures Run(commands, input).reports[j] == Dispatch(commands, input[j]).report
      {
        assert input[1..][j - 1] == input[j];
      }
    }
  }

  /**
   * The loop is still waiting for input exactly when no read stopped it,
   * and then it has one report per read.
   */
  lemma {:induction false} AwaitingOnlyIfNothingStopped(commands: Registry, input: seq<Read>)
    ensures Run(commands, input).end == AwaitingInput <==>
      forall j :: 0 <= j < |input| ==> Dispatch(commands, input[j]).Continue?
    ensures Run(commands, input).end == AwaitingInput ==>
      |Run(commands, input).reports| == |input| &&
      forall j :: 0 <= j < |input| ==> Run(commands, input).reports[j] == Dispatch(commands, input[j]).report
    decreases |input|
  {
    if input != [] {
      AwaitingOnlyIfNothingStopped(commands, input[1..]);
      assert forall j :: 0 < j < |input| ==> input[1..][j - 1] == input[j];
    }
  }

  /** Under a registry keyed by name, every command the loop names was registered. */
  lemma {:induction false} ReportsNameRegisteredCommands(commands: Registry, input: seq<Read>)
    requires KeyedByName(commands)
    ensures forall r :: r in Run(commands, input).reports && (r.Ran? || r.Rejected?) ==> r.name in commands
    ensures forall r :: r in Run(commands, input).reports && r.Ran? && r.failure.Some? ==>
      r.failure == Some(CommandError(r.name))
    decreases |input|
  {
    if input != [] {
      ReportsNameRegisteredCommands(commands, input[1..]);
    }
  }

  /** After `add_command`, a line whose first word is the new command's name dispatches to it. */
  lemma AddedCommandHandlesItsName(commands: Registry, cmd: Command, text: string, tokens: seq<string>)
    requires Shlex.Split(text) == Some(tokens)
    requires tokens != [] && tokens[0] == cmd.name
    ensures Dispatch(commands[cmd.name := cmd], Line(text)) ==
      if !cmd.accepts(tokens) then Continue(Rejected(cmd.name))
      else if cmd.execute(tokens) then Continue(Ran(cmd.name, None))
      else Continue(Ran(cmd.name, Some(CommandError(cmd.name))))
  {
  }

  class Console {
    var prompt: string
    var commands: Registry

    /** `Console::default()`: prompt `> ` and no commands. */
    constructor ()
      ensures prompt == "> " && commands == map[]
      ensures KeyedByName(commands)
    {
      prompt := "> ";
      commands := map[];
    }

    /** `add_command`: stores `cmd` under its name, replacing any command of that name. */
    method AddCommand(cmd: Command)
      modifies this
      ensures commands == old(commands)[cmd.name := cmd]
      ensures prompt == old(prompt)
      ensures old(KeyedByName(commands)) ==> KeyedByName(commands)
    {
      commands := commands[cmd.name := cmd];
    }

    /** The body of `cmd_loop` for one read. */
    method Iterate(read: Read) returns (step: Step)
      ensures step == Dispatch(commands, read)
    {
      match read {
        case Failed(e) =>
          if e.Eof? {
            return Stop(Ok(()));
          }
          return Stop(Err(ReadlineError(e)));
        case Line(text) =>
          var split := Shlex.Split(text);
          if split.None? {
            return Stop(Err(LexingError(text)));
          }
          var tokens := split.value;
          if tokens == [] {
            return Continue(Blank);
          }
          if tokens[0] in commands {
            var cmd := commands[tokens[0]];
            if !cmd.accepts(tokens) {
              return Continue(Rejected(cmd.name));
            }
            if !cmd.execute(tokens) {
              return Continue(Ran(cmd.name, Some(CommandError(cmd.name))));
            }
            return Continue(Ran(cmd.name, None));
          }
          return Continue(Unrecognized(tokens[0]));
      }
    }

    /**
     * `cmd_loop`: `startup` is the editor's failure to start, if any, and
     * `input` the results of successive `readline` calls.
     */
    method CmdLoop(startup: Option<EditorError>, input: seq<Read>) returns (end: LoopEnd, reports: seq<Report>)
      ensures startup.Some? ==> end == Returned(Err(ReadlineError(startup.value))) && reports == []
      ensures startup.None? ==> Session(end, reports) == Run(commands, input)
    {
      reports := [];
      if startup.Some? {
        return Returned(Err(ReadlineError(startup.value))), reports;
      }
      var k := 0;
      while k < |input|
        invariant 0 <= k <= |input|
        invariant Run(commands, input) ==
          Session(Run(commands, input[k..]).end, reports + Run(commands, input[k..]).reports)
      {
        RunUnfolds(commands, input, k);
        var step := Iterate(input[k]);
        if step.Stop? {
          return Returned(step.result), reports;
        }
        var report := step.report;
        reports := reports + [report];
        k := k + 1;
      }
      end := AwaitingInput;
    }
  }
}
