# cmd3: a Dafny model of the console loop and the tab completer

cmd3 is a library for writing line-oriented command interpreters. A
`Console` holds a prompt and a registry of commands keyed by name. Its
`cmd_loop` reads lines and splits each one into shell words. It looks up
the first word and lets that command's argument parser validate the words.
Then it executes the command. A `CommandCompleter` answers rustyline's
tab-completion requests from the same registry. It offers command names
while the first word is being typed. After a command name it offers
positional-argument hints or option flags in long and short form.

This project models both parts and proves what they promise:

- `wrappers.dfy`: `Option` and `Result`.
- `text.dfy`: the Rust string operations the completer relies on. These
  are `char::is_whitespace`, `trim`, `rfind` and `starts_with`.
- `shlex.dfy`: a tokenizer standing in for `shlex::split`. It splits on
  blanks outside quotes. Single and double quotes group characters. An
  unterminated quote makes the split fail.
- `commands.dfy`: the `Command` trait as a value. It holds a name and the
  argument schema the completer reads (positionals, and options with a long
  and/or short form). The parser's accept decision and `execute`'s
  success are functions of the words.
- `completion.dfy`: `CommandCompleter::complete`. It is written as a
  method over the source's steps: rebasing to the last `|`, the split,
  first-word detection, the loop over the registry's keys, and the loops
  over positionals and options. It is proved against the specification
  function `CompletionOf`, which states the answer case by case.
- `console.dfy`: `Console` as a class. It has `Default`, `add_command`,
  one iteration of `cmd_loop` (`Iterate`, specified by `Dispatch`) and
  the loop itself over a finite sequence of reads (`CmdLoop`, specified by
  `Run`).
- `completion_examples.dfy` and `console_examples.dfy`: concrete
  completions and sessions, derived from the general definitions.

## Model

| member | source | states |
|---|---|---|
| Completion.CommandCompleter.constructor | src/completion.rs:12-14 | the completer answers from the given registry |
| Completion.CommandCompleter.Complete | src/completion.rs:20-138 | on every ASCII input where `complete` does not panic (with this model's tokenizer), the returned start and candidates are those `CompletionOf` prescribes; command names are all matching keys, each once, as `display == replacement` |
| Completion.CommandCompleter.CompleteArgument | src/completion.rs:62-136 | after the command word, the answer is the unknown-command, positional-hint or option-candidate case, chosen by the lookup, the character before the cursor and the word's leading dashes |
| Completion.CommandCompleter.MatchingCommands | src/completion.rs:49-59 | the loop over the registry yields each key starting with the prefix exactly once, as `Pair(name, name)`, and nothing else |
| Completion.Hints | src/completion.rs:72-80 | one `Pair(id, "")` per positional, in declaration order |
| Completion.LongOptions | src/completion.rs:84-99 | the loop over options yields `[--long]`/`--long` for each option with a long form whose `--long` extends the word, in declaration order |
| Completion.ShortOptions | src/completion.rs:100-129 | the loop over options yields each option's three-shape candidate whose replacement extends the word, in declaration order |
| Completion.CurrentSegment | src/completion.rs:26-31 | the rebased cursor lies within the segment and does not exceed the original cursor |
| Completion.SegmentIsLastStage | src/completion.rs:26-31 | the segment is the suffix after the last `\|` (the whole line if none), holds no `\|`, and the cursor keeps its place in it |
| Completion.ModeOf | src/completion.rs:33-45 | argument mode has at least one token, each no longer than the text before the cursor, and either two tokens or whitespace before the cursor |
| Completion.PositionalHints | src/completion.rs:72-80 | exactly one hint per positional id, in order, with an empty replacement |
| Completion.LongCandidatesExactly | src/completion.rs:84-98 | a pair is a long candidate iff some option has a long form, the pair is `[--long]`/`--long` and `--long` starts with the word; there are no more candidates than options |
| Completion.FlagCandidatesExactly | src/completion.rs:100-128 | a pair is a flag candidate iff it is some option's candidate and its replacement starts with the word; there are no more candidates than options |
| CandidateOrder.LongCandidatesInOrder | src/completion.rs:86-98 | the i-th long candidate is that of the i-th option kept by the loop, and the kept options' indexes strictly increase: one candidate per kept option, in declaration order |
| CandidateOrder.FlagCandidatesInOrder | src/completion.rs:102-128 | the i-th candidate after `-` is that of the i-th option kept by the loop, and the kept options' indexes strictly increase: one candidate per kept option, in declaration order |
| CandidateOrder.LongSourcesExactly | src/completion.rs:86-98 | an option's index is kept by the `--` loop iff the option has a long form and `--long` starts with the word |
| CandidateOrder.FlagSourcesExactly | src/completion.rs:102-128 | an option's index is kept by the `-` loop iff its candidate's replacement starts with the word |
| Completion.FlagPairShape | src/completion.rs:107-120 | after `-`, both forms show `[-s, --long]` and insert `-s `, long-only shows `[--long]` and inserts `--long `, short-only inserts `-s `; every replacement ends in a space |
| Completion.SingleDashOffersEveryOption | src/completion.rs:100-129 | a lone `-` offers every declared option, in order |
| Completion.CompletionByMode | src/completion.rs:33-136 | the answer by mode: an unlexable prefix, a command-name prefix, or an argument of a command, where the argument case always has what it needs to avoid a panic |
| Completion.CandidatesIgnoreEarlierStages | src/completion.rs:26-31 | prefixing earlier pipeline stages and a `\|` to a line changes no candidate and no set of names |
| Completion.SegmentAfterLastPipe | src/completion.rs:27-28 | after `earlier + "\|" + text`, with no `\|` in `text`, the segment is `text` with the cursor rebased |
| Completion.SameSegmentSameCandidates | src/completion.rs:33-136 | two lines with the same segment and rebased cursor get the same candidates |
| Completion.ArgumentCandidatesIgnoreCursor | src/completion.rs:62-136 | the argument-mode candidates do not depend on the original cursor, only the start does |
| Completion.LexFailureOffersNothing | src/completion.rs:33-36 | text before the cursor that does not tokenize yields no candidates, starting at the rebased cursor |
| Completion.BlankBeforeCursorOffersEveryName | src/completion.rs:38-39 | nothing but blanks before the cursor offers every registered name |
| Completion.CompletesCommandPrefix | src/completion.rs:41-61 | typing a plain word with no `\|` offers exactly the registered names that start with it, replacing from position 0 |
| Completion.SecondWordCompletion | src/completion.rs:62-135 | `name word` with the cursor at the end completes `word` against the options of command `name` |
| Completion.NameThenWord | src/completion.rs:33-45 | `name word` with the cursor at its end is in argument mode with exactly the tokens `name` and `word` |
| Completion.UnknownCommandOffersNothing | src/completion.rs:64-67 | an unregistered first word gets no candidates, starting at the original cursor |
| Completion.PositionalHintsAtWhitespace | src/completion.rs:72-80 | whitespace before the cursor after a known command yields one hint per positional, at the original cursor |
| Completion.OnWordAfterKnownCommand | src/completion.rs:81-135 | with the cursor on a word after a known command, the answer is the option completion of the last token, whose length does not exceed the cursor |
| Completion.LongFormCompletion | src/completion.rs:84-99 | a `--` word is replaced from its start by exactly the long forms extending it |
| Completion.ShortFormCompletion | src/completion.rs:100-129 | a single-`-` word is replaced from its start by exactly the candidates whose replacement extends it |
| Completion.BareWordOffersNothing | src/completion.rs:130-135 | a word not starting with `-` gets no candidates, at the original cursor |
| CompletionExamples.PrefixOffersBothNames | src/completion.rs:49-61 | with `dir` and `dirx` registered, `di` offers both names from position 0 |
| CompletionExamples.DoubleDashOffersLongForm | src/completion.rs:84-99 | `cmd --` offers `[--verbose]`/`--verbose` from position 4 |
| CompletionExamples.VerboseAfterDoubleDash | src/completion.rs:84-98 | the long candidates of `--verbose`/`-v` after `--` |
| CompletionExamples.SingleDashOffersBothForms | src/completion.rs:100-129 | `cmd -` offers `[-v, --verbose]`/`-v ` from position 4 |
| CompletionExamples.VerboseAfterDash | src/completion.rs:107-109 | the candidate for an option with both forms after `-` |
| CompletionExamples.SpaceListsPositionals | src/completion.rs:72-80 | `cmd ` offers the hint `path` at position 4 |
| CompletionExamples.CommandThenSpace | src/completion.rs:26-45 | `cmd ` with the cursor at its end is in argument mode after the single word `cmd` |
| CompletionExamples.BlankThenRegisteredNamePanics | src/completion.rs:38-82 | ` ls` with `ls` registered and the cursor at the end is outside the inputs `complete` handles: it is argument mode with one token, so `pop_back` finds nothing |
| CompletionExamples.NameStartCountsWholeSegment | src/completion.rs:61 | in `ab\|dir` with the cursor after `d`, the name `dir` is offered from index 1, before the segment's start |
| CompletionExamples.CursorAfterPipe | src/completion.rs:26-31 | in `ab\|dir` with the cursor at 4, the segment is `dir` with the cursor at 1 |
| CompletionExamples.NamePrefixIsWholeWord | src/completion.rs:41-43 | with the cursor after `d` in `dir`, the prefix is the whole word `dir` |
| CompletionExamples.TextAfterCursorJoinsPrefix | src/completion.rs:43-61 | in `dir foo` with the cursor after `di`, no name is offered, not even the registered `dir` |
| CompletionExamples.CursorInsideFirstWord | src/completion.rs:38-45 | in `dir foo` with the cursor after `di`, the prefix is the whole trimmed line `dir foo` |
| CompletionExamples.NoNamesAfterPipeAndBlank | src/completion.rs:38-66 | in `a \| di` with `dir` registered, `di` is taken as an unknown command and nothing is offered |
| CompletionExamples.BlankThenWordAfterPipe | src/completion.rs:26-45 | in `a \| di` with the cursor at the end, the segment ` di` is in argument mode with the token `di` |
| CompletionExamples.HashIsAWord | src/completion.rs:82-135 | `ls #` with `ls` registered completes `#` as an option word and offers nothing at the cursor |
| Shlex.Split | src/console.rs:48 | splitting empty text gives no words; no word is longer than the text |
| Shlex.SplitOpenDouble | src/console.rs:48 | a line that opens a double quote and never closes it cannot be split |
| Console.Console.constructor | src/console.rs:81-88 | the default console has prompt `> ` and no commands |
| Console.Console.AddCommand | src/console.rs:75-78 | the command is stored under its name, replacing any earlier one, and the prompt is unchanged; a registry keyed by name stays keyed by name |
| Console.Console.Iterate | src/console.rs:40-71 | one iteration is the step `Dispatch` prescribes for the read |
| Console.Console.CmdLoop | src/console.rs:37-73 | an editor that fails to start ends the loop with `ReadlineError`; otherwise the loop's end and reports are those `Run` prescribes for the reads |
| Console.RunUnfolds | src/console.rs:39-72 | the loop from read `k` is read `k`'s step followed by the loop from read `k + 1` |
| Console.StopsOnlyOnReadOrLexFailure | src/console.rs:40-48 | a read ends the loop iff the editor failed or the line does not split; Eof gives `Ok(())`, any other editor error `ReadlineError`, a failed split `LexingError` with the line |
| Console.RunsOnlyAcceptedCommands | src/console.rs:54-68 | a line runs a command iff its first word is registered and that command's parser accepts the words; the run reports `CommandError(name)` iff `execute` fails |
| Console.UnknownOrBlankLinesContinue | src/console.rs:50-52 | a line with no words is skipped and one with an unknown first word is reported, and the loop continues |
| Console.FirstStopEndsSession | src/console.rs:39-72 | the loop returns the result of the first read that stops it, having reported every read before it in order |
| Console.AwaitingOnlyIfNothingStopped | src/console.rs:39-72 | the loop still waits for input iff no read stopped it, and then it has one report per read |
| Console.ReportsNameRegisteredCommands | src/console.rs:54-71 | every command the loop runs or rejects is registered, and each failure names its command |
| Console.AddedCommandHandlesItsName | src/console.rs:75-78 | after `add_command`, a line starting with the command's name dispatches to that command |
| ConsoleExamples.SessionUntilEof | src/console.rs:37-73 | `dir`, a blank line, `dir x`, `ls`, then Eof: two runs of `dir`, the second failing, one skipped line, one unknown word, then `Ok(())` |
| ConsoleExamples.DirLines | src/console.rs:48-71 | how each of those four lines is handled on its own |
| ConsoleExamples.OpenQuoteEndsSession | src/console.rs:48 | an unterminated quote ends the loop with `LexingError` carrying the line, after the earlier reads were handled |

The model keeps the source's edge cases as they are, and lemmas in
`completion_examples.dfy` exhibit them:

- A command-name completion starts at the cursor minus the length of the whole segment (src/completion.rs:61). With the cursor inside a word after a `|`, that start lies before the segment.
- The name prefix is the trimmed whole segment, including any text after the cursor (src/completion.rs:43).
- A name typed after a blank, such as `a | di`, is in argument mode, so no names are offered there.

## Left out

- Terminal I/O is not modelled. This covers rustyline's line editing, the prompt display and the texts printed to standard error. Each read is an input value, and what a line did is a `Report`.
- `DefaultEditor::new` is a parameter of `CmdLoop`: the editor's start-up error, if any.
- Shlex.Split: stands in for `shlex::split` as a smaller tokenizer. It has no backslash escapes, no `#` comments and no other shell quoting rules. The blanks it splits on are space, tab and newline. Because `#` is an ordinary character here, the model answers inputs on which the program panics. One example is `ls #` with `ls` registered and the cursor at the end: `shlex::split` drops the comment and leaves only `ls`, so the program panics at src/completion.rs:82. The model completes `#` as a word and offers nothing (`CompletionExamples.HashIsAWord`).
- clap is not modelled. `try_get_matches_from` becomes the command's `accepts` function of the words. `execute` on the matches becomes its `execute` function of the words. `get_positionals` and `get_opts` become the schema's declared positional ids and options.
- An argument with neither a long nor a short form is a positional to clap, and it is never among the results of `get_opts()` (src/completion.rs:115-118). The model's options are therefore `DeclaredOption`s, which have at least one form, so the `unreachable!` branch of `complete` does not arise.
- Command names come from a `HashMap` in unspecified order. The model states them as a set, each offered once.
- Completion.CommandCompleter.Complete: requires an ASCII line on which `complete` does not panic, judged with the tokenizer of this model. With real `shlex::split`, a `#` comment can add panicking inputs, as in the `Shlex.Split` line above. The ASCII requirement excludes more than the panics: the source mixes byte offsets and character indexes, and the model states no answer for any non-ASCII line, including ones the source completes without panicking, such as the name prefix `dé` with the cursor at its end (byte 3), which returns at src/completion.rs:61. Among the excluded inputs, three panics can be reached by ordinary typing:
  - a lone registered name after a blank, with the cursor on the name, such as ` ls` or `a | ls` with `ls` registered: the name is popped as the command and `pop_back` finds no word (src/completion.rs:82); `CompletionExamples.BlankThenRegisteredNamePanics` exhibits it;
  - a non-ASCII word after a registered command with the cursor at the end, such as `ls é`: the cursor is the byte offset 5, the line has 4 characters, and `chars().nth(4).unwrap()` panics (src/completion.rs:72);
  - a cursor moved before the last `|`, such as `ls | grep` at 2: the cursor must lie within the line and after its last `|`, otherwise `pos - i - 1` underflows (src/completion.rs:28).
- The completer reads `CommandSet`, which `src/console.rs` does not define. It is modelled as a fixed registry given to the constructor, so later `add_command` calls are not seen by an existing completer.
- `add_command` takes the console by value and returns it. It is modelled as an in-place update of the same console.
- `ConsoleError::Uncategorized` is declared but never produced, and the model produces it nowhere either.
- Pipelines of several stages, external processes and output chaining between stages are not part of `src/console.rs`. Only the completer's handling of `|` is modelled.
- `examples/simple_console.rs` is an example program and is not part of this model.
