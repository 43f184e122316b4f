/**
 * The error type of the tool (`Log`), its conversion from command-line parser
 * errors, and the tagged one-line form in which it is shown to the user.
 */
module Logs {

  /** The red `ERR` tag and the green `HLP` tag, with their terminal colour codes. */
  const TAG_ERROR: string := "[\U{1b}[31mERR\U{1b}[0m]"
  const TAG_HELP: string := "[\U{1b}[32mHLP\U{1b}[0m]"

  /** The lead-in the command-line parser puts before its error messages. */
  const ERROR_PREFIX: string := "error: "

  /** Why an external command failed: it could not be started, or it exited unsuccessfully. */
  datatype ShellFailure =
    | SpawnFailed
    | ExitFailure(code: int)  // the exit code, -1 when the process reported none

  datatype Log =
    | HelpMessage(text: string)
    | InvalidCommandLineArgument(text: string)
    | FileSystemError(text: string)
    | ShellCommandError(program: string, failure: ShellFailure)

  /** The kinds of error the command-line parser reports. */
  datatype ClapErrorKind =
    | InvalidValue | UnknownArgument | InvalidSubcommand | NoEquals | ValueValidation
    | TooManyValues | TooFewValues | WrongNumberOfValues | ArgumentConflict
    | MissingRequiredArgument | MissingSubcommand | InvalidUtf8 | DisplayHelp
    | DisplayHelpOnMissingArgumentOrSubcommand | DisplayVersion | Io | Format

  /** A parser error: its kind and its rendered message. */
  datatype ClapError = ClapError(kind: ClapErrorKind, message: string)

  predicate StartsWith(s: string, prefix: string) {
    |prefix| <= |s| && s[..|prefix|] == prefix
  }

  /**
   * `From<clap::error::Error> for Log`: a help request becomes a help message
   * carrying the whole text; every other kind becomes an invalid-argument error
   * whose text is the message without its `error: ` lead-in, when it has one.
   */
  function FromClapError(e: ClapError): (l: Log)
    ensures e.kind == DisplayHelp ==> l == HelpMessage(e.message)
    ensures e.kind != DisplayHelp ==> l.InvalidCommandLineArgument?
    ensures e.kind != DisplayHelp && StartsWith(e.message, ERROR_PREFIX) ==> ERROR_PREFIX + l.text == e.message
    ensures e.kind != DisplayHelp && !StartsWith(e.message, ERROR_PREFIX) ==> l.text == e.message
  {
    if e.kind == DisplayHelp then HelpMessage(e.message)
    else if StartsWith(e.message, ERROR_PREFIX) then InvalidCommandLineArgument(e.message[|ERROR_PREFIX|..])
    else InvalidCommandLineArgument(e.message)
  }

  /** The decimal numeral of `n`, with a leading `-` when it is negative. */
  function DecimalString(n: int): string
    decreases if n < 0 then 1 - n else n
  {
    if n < 0 then "-" + DecimalString(-n)
    else if n < 10 then ["0123456789"[n]]
    else DecimalString(n / 10) + ["0123456789"[n % 10]]
  }

  /** The message of a failed external command. */
  function ShellMessage(program: string, failure: ShellFailure): string {
    match failure
    case SpawnFailed => "Failed to spawn command `" + program + "`"
    case ExitFailure(code) => "Command `" + program + "` failed with exit code " + DecimalString(code) + "."
  }

  /** The tag a log is shown with: help is tagged `HLP`, every error `ERR`. */
  function Tag(l: Log): string {
    if l.HelpMessage? then TAG_HELP else TAG_ERROR
  }

  /** What follows the tag. */
  function Body(l: Log): string {
    match l
    case HelpMessage(text) => text
    case InvalidCommandLineArgument(text) => text
    case FileSystemError(text) => text
    case ShellCommandError(program, failure) => ShellMessage(program, failure)
  }

  /**
   * The `Display` form of a log: its tag, a space, then its text. A reader of
   * the line can tell help from errors by the first characters alone, and can
   * recover the text after the tag.
   */
  function Display(l: Log): (s: string)
    ensures |s| > |TAG_HELP| && |TAG_HELP| == |TAG_ERROR|
    ensures s[..|TAG_HELP|] == TAG_HELP <==> l.HelpMessage?
    ensures s[..|TAG_ERROR|] == TAG_ERROR <==> !l.HelpMessage?
    ensures s[|TAG_HELP|] == ' ' && s[|TAG_HELP| + 1..] == Body(l)
  {
    var s := Tag(l) + " " + Body(l);
    assert TAG_HELP[4] != TAG_ERROR[4];
    assert s[..|TAG_HELP|] == Tag(l);
    s
  }

  /**
   * A parser error other than a help request is shown with the `ERR` tag in
   * place of its `error: ` lead-in.
   */
  lemma DisplayReplacesErrorPrefix(e: ClapError, rest: string)
    requires e.kind != DisplayHelp && e.message == ERROR_PREFIX + rest
    ensures Display(FromClapError(e)) == TAG_ERROR + " " + rest
  {
    assert StartsWith(e.message, ERROR_PREFIX);
    assert e.message[|ERROR_PREFIX|..] == rest;
  }
}
