/** Sessions of the console loop on concrete reads. */
module ConsoleExamples {
  import opened Wrappers
  import Shlex
  import opened Commands
  import opened Console

  /** A `dir` command that accepts anything and fails when given a second word. */
  function Dir(): Command {
    Command("dir", Schema([], []), (args: seq<string>) => true, (args: seq<string>) => |args| < 2)
  }

  /**
   * `dir`, a blank line, `dir x`, an unknown word and then end of input:
   * the loop runs `dir` twice (the second run failing), skips the blank
   * line, reports the unknown word and returns `Ok`.
   */
  lemma SessionUntilEof()
    ensures Run(map["dir" := Dir()], [Line("dir"), Line(" "), Line("dir x"), Line("ls"), Failed(Eof)]) ==
      Session(Returned(Ok(())), [
        Ran("dir", None),
        Blank,
        Ran("dir", Some(CommandError("dir"))),
        Unrecognized("ls")])
  {
    var commands := map["dir" := Dir()];
    var input := [Line("dir"), Line(" "), Line("dir x"), Line("ls"), Failed(Eof)];
    DirLines();
    FirstStopEndsSession(commands, input, 4);
    var reports := Run(commands, input).reports;
    assert reports == [reports[0], reports[1], reports[2], reports[3]];
  }

  /** How the loop handles each of the lines above, one at a time. */
  lemma DirLines()
    ensures Dispatch(map["dir" := Dir()], Line("dir")) == Continue(Ran("dir", None))
    ensures Dispatch(map["dir" := Dir()], Line(" ")) == Continue(Blank)
    ensures Dispatch(map["dir" := Dir()], Line("dir x")) == Continue(Ran("dir", Some(CommandError("dir"))))
    ensures Dispatch(map["dir" := Dir()], Line("ls")) == Continue(Unrecognized("ls"))
  {
    Shlex.SplitPlain("dir");
    Shlex.SplitBlanks(" ");
    assert "dir x" == "dir" + " " + "x";
    Shlex.SplitTwoWords("dir", "x");
    Shlex.SplitPlain("ls");
  }

  /** An unterminated quote ends the loop with a lexing error that carries the line. */
  lemma OpenQuoteEndsSession()
    ensures Run(map["dir" := Dir()], [Line("dir"), Line("\"dir"), Line("dir")]) ==
      Session(Returned(Err(LexingError("\"dir"))), [Ran("dir", None)])
  {
    var commands := map["dir" := Dir()];
    var input := [Line("dir"), Line("\"dir"), Line("dir")];
    Shlex.SplitPlain("dir");
    Shlex.SplitOpenDouble("\"dir");
    assert Dispatch(commands, input[0]) == Continue(Ran("dir", None));
    FirstStopEndsSession(commands, input, 1);
  }
}
