/**
 * The `Command` capability of the console: a name, the argument schema its
 * clap parser declares, whether that parser accepts a token list, and
 * whether executing on the accepted arguments succeeds.
 */
module Commands {
  import opened Wrappers

  /** A clap `Arg` as seen by the completer: optional long and short forms. */
  datatype OptionArg = OptionArg(long: Option<string>, short: Option<char>)

  /** clap lists an argument among its options only when it has a long or a short form. */
  type DeclaredOption = a: OptionArg | a.long.Some? || a.short.Some? witness OptionArg(None, Some('h'))

  /** What `get_parser()` declares: positional ids in order, then the options. */
  datatype Schema = Schema(positionals: seq<string>, options: seq<DeclaredOption>)

  /**
   * `get_name()`, `get_parser()`, the parser's verdict on the full token
   * list (`try_get_matches_from`), and whether `execute` returns `Ok`.
   * Parsing and execution are code outside this model, so they are
   * carried as functions.
   */
  datatype Command = Command(
    name: string,
    parser: Schema,
    accepts: seq<string> -> bool,
    execute: seq<string> -> bool)

  /** The `commands` map, keyed by name. */
  type Registry = map<string, Command>

  /** Every entry is stored under its own name, as `add_command` does. */
  predicate KeyedByName(commands: Registry) {
    forall n :: n in commands ==> commands[n].name == n
  }
}
