/**
 * The dispatcher (`handleCommand`), the operator handlers (`handlePipeCommand`,
 * `redirectOutput`) and the executor (`executeParsedCommand`).
 */
module Executor {
  import opened Wrappers
  import opened JsStrings
  import opened Types
  import opened Environment
  import opened Parser
  import opened Builtins
  import opened Runner

  /** What running a command leads to: its output, or `process.exit(0)`, which ends the shell. */
  datatype Outcome = Exit | Output(output: CommandOutput)

  /**
   * `handleCommand(command, query)`: the three built-ins by name; anything else
   * is spawned with `query.split(" ")` as its arguments and empty input.
   */
  function HandleCommand(env: Env, command: string, query: string): Outcome {
    if command == "echo" then Output(EchoCommand(query))
    else if command == "type" then Output(TypeCommand(env, query))
    else if command == "exit" then Exit
    else Output(RunExternalCommand(env, command, Split(query, ' '), ""))
  }

  /**
   * `echo` prints its argument text, `type` reports, only `exit` ends the shell,
   * and any other name runs externally with arguments that are the pieces of
   * the argument text between single spaces (so they join back to it; an empty
   * argument text gives the one argument "").
   */
  lemma HandleCommandDispatch(env: Env, command: string, query: string)
    ensures command == "echo" ==> HandleCommand(env, command, query) == Output(CommandOutput(query + "\n", ""))
    ensures command == "type" ==> HandleCommand(env, command, query) == Output(TypeCommand(env, query))
    ensures HandleCommand(env, command, query).Exit? <==> command == "exit"
    ensures command !in BUILT_IN_COMMANDS ==>
      var argv := Split(query, ' ');
      HandleCommand(env, command, query) == Output(RunExternalCommand(env, command, argv, "")) &&
      Join(argv, " ") == query &&
      (query == "" ==> argv == [""])
  {
    JoinSplit(query, ' ');
  }

  /** The contents of a file, the empty string for one that does not exist. */
  function Content(files: map<string, string>, name: string): string {
    if name in files then files[name] else ""
  }

  /** The files redirections write to, as a table from path to contents. */
  class Files {
    var contents: map<string, string>

    constructor (initial: map<string, string>)
      ensures contents == initial
    {
      contents := initial;
    }

    /** `fs.writeFileSync(name, data)`: the file now holds exactly `data`. */
    method WriteFileSync(name: string, data: string)
      modifies this
      ensures contents == old(contents)[name := data]
    {
      contents := contents[name := data];
    }

    /** `fs.appendFileSync(name, data)`: `data` goes after the old contents; a missing file is created. */
    method AppendFileSync(name: string, data: string)
      modifies this
      ensures contents == old(contents)[name := Content(old(contents), name) + data]
    {
      contents := contents[name := Content(contents, name) + data];
    }
  }

  datatype Mode = Write | Append

  datatype Stream = Stdout | Stderr

  /**
   * `handlePipeCommand(left, parsedRight)`: the left leaf runs through the
   * dispatcher; the right side's own left text is split and always run
   * externally, with its whole argument text as the single argument and the
   * left side's stdout as input. Anything further right is dropped.
   */
  function PipeCommand(env: Env, left: string, right: ParsedCommand): Outcome {
    var (leftCommand, leftArgs) := ParseParts(left);
    match HandleCommand(env, leftCommand, leftArgs)
    case Exit => Exit
    case Output(leftResult) =>
      var (rightCommand, rightArgs) := ParseParts(right.left);
      Output(RunExternalCommand(env, rightCommand, [rightArgs], leftResult.stdout))
  }

  /** `redirectOutput` as a function of the file table: the outcome and the new table. */
  function Redirect(env: Env, files: map<string, string>, left: string, right: ParsedCommand,
                    mode: Mode, stream: Stream): (Outcome, map<string, string>)
  {
    var (leftCommand, leftArgs) := ParseParts(left);
    match HandleCommand(env, leftCommand, leftArgs)
    case Exit => (Exit, files)
    case Output(leftResult) =>
      var filename := Trim(right.left);
      var content := if stream == Stdout then leftResult.stdout else leftResult.stderr;
      var updated := if mode == Write then files[filename := content]
                     else files[filename := Content(files, filename) + content];
      var passed := if stream == Stdout then CommandOutput("", leftResult.stderr)
                    else CommandOutput(leftResult.stdout, "");
      (Output(passed), updated)
  }

  /**
   * `redirectOutput(left, parsedRight, mode, stream)`: runs the left leaf,
   * writes or appends the selected stream to the file named by the trimmed
   * `parsedRight.left`, and passes the other stream through.
   */
  method RedirectOutput(env: Env, fs: Files, left: string, right: ParsedCommand, mode: Mode, stream: Stream)
    returns (out: Outcome)
    modifies fs
    ensures (out, fs.contents) == Redirect(env, old(fs.contents), left, right, mode, stream)
  {
    var (leftCommand, leftArgs) := ParseParts(left);
    var handled := HandleCommand(env, leftCommand, leftArgs);
    if handled.Exit? {
      return Exit;
    }
    var leftResult := handled.output;
    var filename := Trim(right.left);
    var content := if stream == Stdout then leftResult.stdout else leftResult.stderr;
    if mode == Write {
      fs.WriteFileSync(filename, content);
    } else {
      fs.AppendFileSync(filename, content);
    }
    if stream == Stdout {
      out := Output(CommandOutput("", leftResult.stderr));
    } else {
      out := Output(CommandOutput(leftResult.stdout, ""));
    }
  }

  /** A parsed command as `executeParsedCommand` expects it: an operator node carries a parsed right side. */
  predicate HasParsedRight(parsed: ParsedCommand) {
    parsed.operator.Some? ==> parsed.right.Parsed?
  }

  /** `executeParsedCommand` as a function of the file table: the outcome and the new table. */
  function Execute(env: Env, files: map<string, string>, parsed: ParsedCommand): (Outcome, map<string, string>)
    requires HasParsedRight(parsed)
  {
    match parsed.operator
    case None =>
      var (command, args) := ParseParts(parsed.left);
      (HandleCommand(env, command, args), files)
    case Some(op) =>
      var right := parsed.right.command;
      match op
      case Pipe => (PipeCommand(env, parsed.left, right), files)
      case WriteOut => Redirect(env, files, parsed.left, right, Write, Stdout)
      case WriteOutFd => Redirect(env, files, parsed.left, right, Write, Stdout)
      case AppendOut => Redirect(env, files, parsed.left, right, Append, Stdout)
      case AppendOutFd => Redirect(env, files, parsed.left, right, Append, Stdout)
      case WriteErr => Redirect(env, files, parsed.left, right, Write, Stderr)
      case AppendErr => Redirect(env, files, parsed.left, right, Append, Stderr)
  }

  /**
   * `executeParsedCommand(parsed)`: a leaf goes to the dispatcher, `|` to the
   * pipe handler, and each redirection operator to `redirectOutput` with its
   * mode and stream.
   */
  method ExecuteParsedCommand(env: Env, fs: Files, parsed: ParsedCommand) returns (out: Outcome)
    requires HasParsedRight(parsed)
    modifies fs
    ensures (out, fs.contents) == Execute(env, old(fs.contents), parsed)
  {
    if parsed.operator.None? {
      var (command, args) := ParseParts(parsed.left);
      return HandleCommand(env, command, args);
    }
    var right := parsed.right.command;
    match parsed.operator.value
    case Pipe =>
      out := PipeCommand(env, parsed.left, right);
    case WriteOut =>
      out := RedirectOutput(env, fs, parsed.left, right, Write, Stdout);
    case WriteOutFd =>
      out := RedirectOutput(env, fs, parsed.left, right, Write, Stdout);
    case AppendOut =>
      out := RedirectOutput(env, fs, parsed.left, right, Append, Stdout);
    case AppendOutFd =>
      out := RedirectOutput(env, fs, parsed.left, right, Append, Stdout);
    case WriteErr =>
      out := RedirectOutput(env, fs, parsed.left, right, Write, Stderr);
    case AppendErr =>
      out := RedirectOutput(env, fs, parsed.left, right, Append, Stderr);
  }

  /** Every parse of a line meets what `executeParsedCommand` expects, so its casts never fail. */
  lemma ParsedLinesHaveParsedRight(input: string)
    ensures HasParsedRight(ParseCommand(input))
  {
    ParseCommandWellShaped(input);
  }

  /** What the line handler does with one line: trim it, parse it and execute the parse. */
  function EvalLine(env: Env, files: map<string, string>, line: string): (Outcome, map<string, string>) {
    ParsedLinesHaveParsedRight(Trim(line));
    Execute(env, files, ParseCommand(Trim(line)))
  }

  /** The redirection operators that send stderr to the file: `2>` and `2>>`. */
  predicate RedirectsStderr(op: Op) {
    op == WriteErr || op == AppendErr
  }

  /** The redirection operators that append: `>>`, `1>>` and `2>>`. */
  predicate Appends(op: Op) {
    op == AppendOut || op == AppendOutFd || op == AppendErr
  }

  /**
   * A redirection changes only the file named by the trimmed text right of the
   * operator: a write leaves it holding exactly the selected stream, an append
   * adds the stream after its old contents. The redirected stream comes back
   * empty and the other one unchanged. If the left command is `exit`, nothing
   * is written.
   */
  lemma RedirectEffect(env: Env, files: map<string, string>, parsed: ParsedCommand)
    requires parsed.operator.Some? && parsed.operator.value != Pipe && parsed.right.Parsed?
    ensures var op := parsed.operator.value;
      var (command, args) := ParseParts(parsed.left);
      var name := Trim(parsed.right.command.left);
      var (out, files') := Execute(env, files, parsed);
      match HandleCommand(env, command, args)
      case Exit => out == Exit && files' == files
      case Output(o) =>
        var selected := if RedirectsStderr(op) then o.stderr else o.stdout;
        Content(files', name) == (if Appends(op) then Content(files, name) else "") + selected &&
        (forall n :: n != name ==> (n in files' <==> n in files) && Content(files', n) == Content(files, n)) &&
        name in files' &&
        out == Output(if RedirectsStderr(op) then CommandOutput(o.stdout, "") else CommandOutput("", o.stderr))
  {
    var op := parsed.operator.value;
    var mode := if Appends(op) then Append else Write;
    var stream := if RedirectsStderr(op) then Stderr else Stdout;
    assert Execute(env, files, parsed) == Redirect(env, files, parsed.left, parsed.right.command, mode, stream);
    RedirectResult(env, files, parsed.left, parsed.right.command, mode, stream);
  }

  /** `redirectOutput` for one mode and one stream, stated the same way. */
  lemma RedirectResult(env: Env, files: map<string, string>, left: string, right: ParsedCommand, mode: Mode, stream: Stream)
    ensures var (command, args) := ParseParts(left);
      var name := Trim(right.left);
      var (out, files') := Redirect(env, files, left, right, mode, stream);
      match HandleCommand(env, command, args)
      case Exit => out == Exit && files' == files
      case Output(o) =>
        var selected := if stream == Stderr then o.stderr else o.stdout;
        Content(files', name) == (if mode == Append then Content(files, name) else "") + selected &&
        (forall n :: n != name ==> (n in files' <==> n in files) && Content(files', n) == Content(files, n)) &&
        name in files' &&
        out == Output(if stream == Stderr then CommandOutput(o.stdout, "") else CommandOutput("", o.stderr))
  {
    var (command, args) := ParseParts(left);
    var handled := HandleCommand(env, command, args);
    if handled.Output? {
      var name := Trim(right.left);
      var o := handled.output;
      var selected := if stream == Stderr then o.stderr else o.stdout;
      var files' := Redirect(env, files, left, right, mode, stream).1;
      if mode == Write {
        assert files' == files[name := selected];
        assert "" + selected == selected;
      } else {
        assert files' == files[name := Content(files, name) + selected];
      }
      UpdateOnlyAt(files, name, files'[name]);
    }
  }

  /** A map update changes one key and no other. */
  lemma UpdateOnlyAt(files: map<string, string>, name: string, data: string)
    ensures Content(files[name := data], name) == data && name in files[name := data]
    ensures forall n :: n != name ==> (n in files[name := data] <==> n in files) && Content(files[name := data], n) == Content(files, n)
  {
  }

  /** Only the right side's left text is used: operators after the redirection target are ignored. */
  lemma RedirectIgnoresRest(env: Env, files: map<string, string>, left: string, op: Op, r1: ParsedCommand, r2: ParsedCommand)
    requires op != Pipe && Trim(r1.left) == Trim(r2.left)
    ensures Execute(env, files, ParsedCommand(left, Some(op), Parsed(r1))) ==
            Execute(env, files, ParsedCommand(left, Some(op), Parsed(r2)))
  {
    var mode := if Appends(op) then Append else Write;
    var stream := if RedirectsStderr(op) then Stderr else Stdout;
    assert Execute(env, files, ParsedCommand(left, Some(op), Parsed(r1))) == Redirect(env, files, left, r1, mode, stream);
    assert Execute(env, files, ParsedCommand(left, Some(op), Parsed(r2))) == Redirect(env, files, left, r2, mode, stream);
  }

  /**
   * A pipe leaves the files alone, runs its right side's command externally
   * with one argument (the whole argument text) and the left side's stdout as
   * input, and returns that run's output; the left side may be a built-in.
   */
  lemma PipeEffect(env: Env, files: map<string, string>, parsed: ParsedCommand)
    requires parsed.operator == Some(Pipe) && parsed.right.Parsed?
    ensures var (command, args) := ParseParts(parsed.left);
      var (rightCommand, rightArgs) := ParseParts(parsed.right.command.left);
      var (out, files') := Execute(env, files, parsed);
      files' == files &&
      match HandleCommand(env, command, args)
      case Exit => out == Exit
      case Output(o) => out == Output(RunExternalCommand(env, rightCommand, [rightArgs], o.stdout))
  {
  }

  /** Only two stages exist: whatever follows the right side's first command is dropped. */
  lemma PipeIgnoresRest(env: Env, files: map<string, string>, left: string, r1: ParsedCommand, r2: ParsedCommand)
    requires r1.left == r2.left
    ensures Execute(env, files, ParsedCommand(left, Some(Pipe), Parsed(r1))) ==
            Execute(env, files, ParsedCommand(left, Some(Pipe), Parsed(r2)))
  {
  }

  /** Only redirections change files, and a leaf or a pipe never does. */
  lemma OnlyRedirectsWrite(env: Env, files: map<string, string>, parsed: ParsedCommand)
    requires HasParsedRight(parsed)
    requires parsed.operator.None? || parsed.operator == Some(Pipe)
    ensures Execute(env, files, parsed).1 == files
  {
  }
}
