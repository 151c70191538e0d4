/** The shell's constants and record types. */
module Types {
  import opened Wrappers

  /** The names `type` reports as built in. */
  const BUILT_IN_COMMANDS: seq<string> := ["echo", "type", "exit"]

  /** The operator tokens, one constructor each: `|`, `1>`, `>`, `2>`, `>>`, `1>>`, `2>>`. */
  datatype Op =
    | Pipe           // |
    | WriteOutFd     // 1>
    | WriteOut       // >
    | WriteErr       // 2>
    | AppendOut      // >>
    | AppendOutFd    // 1>>
    | AppendErr      // 2>>

  function Token(op: Op): (t: string)
    ensures |t| >= 1
  {
    match op
    case Pipe => "|"
    case WriteOutFd => "1>"
    case WriteOut => ">"
    case WriteErr => "2>"
    case AppendOut => ">>"
    case AppendOutFd => "1>>"
    case AppendErr => "2>>"
  }

  /** The operators in the order they are listed; the order decides ties. */
  const BUILT_IN_OPERATORS: seq<Op> :=
    [Pipe, WriteOutFd, WriteOut, WriteErr, AppendOut, AppendOutFd, AppendErr]

  /** An operator's position in `BUILT_IN_OPERATORS`. */
  function Rank(op: Op): (k: nat)
    ensures k < |BUILT_IN_OPERATORS| && BUILT_IN_OPERATORS[k] == op
  {
    match op
    case Pipe => 0
    case WriteOutFd => 1
    case WriteOut => 2
    case WriteErr => 3
    case AppendOut => 4
    case AppendOutFd => 5
    case AppendErr => 6
  }

  /**
   * A parsed line: the text left of the first operator, the operator (none for
   * a leaf), and on the right either raw text (a leaf's, always empty) or the
   * parse of the rest of the line.
   */
  datatype ParsedCommand = ParsedCommand(left: string, operator: Option<Op>, right: Right)

  datatype Right = Raw(text: string) | Parsed(command: ParsedCommand)

  /** What every command produces. */
  datatype CommandOutput = CommandOutput(stdout: string, stderr: string)
}
