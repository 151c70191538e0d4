/** Concrete lines worked through the model: the tie-break, quote stripping and a redirect session. */
module Scenarios {
  import opened Wrappers
  import opened JsStrings
  import opened Types
  import opened Parser
  import opened Environment
  import opened Executor

  /** A token whose first character does not occur in the line is not found. */
  lemma AbsentToken(s: string, t: string)
    requires |t| > 0 && t[0] !in s
    ensures IndexOf(s, t) == None
  {
    forall j: nat ensures !OccursAt(s, t, j) {
      if j + |t| <= |s| {
        assert s[j..j + |t|][0] == s[j];
      }
    }
  }

  /** A token standing right after text free of its first character is first found there. */
  lemma FoundAfter(a: string, t: string, b: string)
    requires |t| > 0 && t[0] !in a
    ensures IndexOf(a + t + b, t) == Some(|a|)
  {
    var s := a + t + b;
    assert s[|a|..|a| + |t|] == t;
    forall j: nat | j < |a| ensures !OccursAt(s, t, j) {
      assert s[j] == a[j];
      if j + |t| <= |s| {
        assert s[j..j + |t|][0] == s[j];
      }
    }
    IndexOfIs(s, t, |a|);
  }

  /** A two-character token is absent when its first character occurs once, not followed by its second. */
  lemma AbsentAround(a: string, t: string, b: string)
    requires |t| >= 2 && t[0] !in a && t[0] !in b && (|b| == 0 || b[0] != t[1])
    ensures IndexOf(a + [t[0]] + b, t) == None
  {
    var s := a + [t[0]] + b;
    forall j: nat ensures !OccursAt(s, t, j) {
      if j + |t| <= |s| {
        assert s[j..j + |t|][0] == s[j] && s[j..j + |t|][1] == s[j + 1];
        if j < |a| {
          assert s[j] == a[j];
        } else if j == |a| {
          assert s[j + 1] == b[0];
        } else {
          assert s[j] == b[j - |a| - 1];
        }
      }
    }
  }

  /** `cmd >> f`: `>` and `>>` both start at 4, and the later-listed `>>` wins. */
  lemma AppendBeatsWrite(s: string)
    requires s == "cmd >> f"
    ensures ParseCommand(s).operator == Some(AppendOut)
  {
    AbsentToken(s, "|");
    AbsentToken(s, "1>");
    AbsentToken(s, "2>");
    AbsentToken(s, "1>>");
    AbsentToken(s, "2>>");
    assert s == "cmd " + ">" + "> f" == "cmd " + ">>" + " f";
    FoundAfter("cmd ", ">", "> f");
    FoundAfter("cmd ", ">>", " f");
    assert Wins(s, AppendOut) by {
      forall other | IndexOf(s, Token(other)).Some?
        ensures 4 < IndexOf(s, Token(other)).value || (4 == IndexOf(s, Token(other)).value && Rank(other) <= 4)
      {
        match other
        case Pipe =>
        case WriteOutFd =>
        case WriteOut =>
        case WriteErr =>
        case AppendOut =>
        case AppendOutFd =>
        case AppendErr =>
      }
    }
    ParseCommandChooses(s, AppendOut);
  }

  /** `a 1>> f`: `1>` and `1>>` start at 2, before `>` and `>>`, and `1>>` wins. */
  lemma FdAppendBeatsFdWrite(s: string)
    requires s == "a 1>> f"
    ensures ParseCommand(s).operator == Some(AppendOutFd)
  {
    AbsentToken(s, "|");
    AbsentToken(s, "2>");
    AbsentToken(s, "2>>");
    assert s == "a " + "1>" + "> f" == "a " + "1>>" + " f" == "a 1" + ">" + "> f" == "a 1" + ">>" + " f";
    FoundAfter("a ", "1>", "> f");
    FoundAfter("a ", "1>>", " f");
    FoundAfter("a 1", ">", "> f");
    FoundAfter("a 1", ">>", " f");
    assert Wins(s, AppendOutFd) by {
      forall other | IndexOf(s, Token(other)).Some?
        ensures 2 < IndexOf(s, Token(other)).value || (2 == IndexOf(s, Token(other)).value && Rank(other) <= 5)
      {
        match other
        case Pipe =>
        case WriteOutFd =>
        case WriteOut =>
        case WriteErr =>
        case AppendOut =>
        case AppendOutFd =>
        case AppendErr =>
      }
    }
    ParseCommandChooses(s, AppendOutFd);
  }

  /** `a 2>> f`: `2>` and `2>>` start at 2, before `>` and `>>`, and `2>>` wins. */
  lemma ErrAppendBeatsErrWrite(s: string)
    requires s == "a 2>> f"
    ensures ParseCommand(s).operator == Some(AppendErr)
  {
    AbsentToken(s, "|");
    AbsentToken(s, "1>");
    AbsentToken(s, "1>>");
    assert s == "a " + "2>" + "> f" == "a " + "2>>" + " f" == "a 2" + ">" + "> f" == "a 2" + ">>" + " f";
    FoundAfter("a ", "2>", "> f");
    FoundAfter("a ", "2>>", " f");
    FoundAfter("a 2", ">", "> f");
    FoundAfter("a 2", ">>", " f");
    assert Wins(s, AppendErr) by {
      forall other | IndexOf(s, Token(other)).Some?
        ensures 2 < IndexOf(s, Token(other)).value || (2 == IndexOf(s, Token(other)).value && Rank(other) <= 6)
      {
        match other
        case Pipe =>
        case WriteOutFd =>
        case WriteOut =>
        case WriteErr =>
        case AppendOut =>
        case AppendOutFd =>
        case AppendErr =>
      }
    }
    ParseCommandChooses(s, AppendErr);
  }

  /** Interior quotes do not stop the outer pair from being removed. */
  lemma InteriorQuotesStripped()
    ensures StripQuotes("'a' 'b'") == "a' 'b"
    ensures StripQuotes("'") == ""
    ensures StripQuotes("'a\"") == "'a\""
  {
  }

  /** Every operator token contains `|` or `>`. */
  lemma TokenHasOperatorChar(op: Op)
    ensures '|' in Token(op) || '>' in Token(op)
  {
    match op
    case Pipe => assert Token(op)[0] == '|';
    case WriteOutFd => assert Token(op)[1] == '>';
    case WriteOut => assert Token(op)[0] == '>';
    case WriteErr => assert Token(op)[1] == '>';
    case AppendOut => assert Token(op)[0] == '>';
    case AppendOutFd => assert Token(op)[1] == '>';
    case AppendErr => assert Token(op)[1] == '>';
  }

  /** Text without `|` and `>` holds no operator. */
  lemma NoOperatorChars(s: string)
    requires '|' !in s && '>' !in s
    ensures NoOperator(s)
  {
    forall op ensures IndexOf(s, Token(op)).None? {
      var t := Token(op);
      TokenHasOperatorChar(op);
      forall j: nat ensures !OccursAt(s, t, j) {
        if j + |t| <= |s| {
          var k :| 0 <= k < |t| && (t[k] == '|' || t[k] == '>');
          assert s[j..j + |t|][k] == s[j + k];
          assert s[j + k] in s;
        }
      }
    }
  }

  /**
   * A token of two or more characters that is `>>` or has `>` after a
   * non-space does not occur where the only `>` stands between two spaces.
   */
  lemma LoneGreaterOnly(a: string, b: string, t: string)
    requires '>' !in a && '>' !in b
    requires |a| > 0 && a[|a| - 1] == ' ' && |b| > 0 && b[0] == ' '
    requires |t| >= 2 && ((t[0] == '>' && t[1] == '>') || (t[0] != ' ' && t[1] == '>'))
    ensures IndexOf(a + ">" + b, t) == None
  {
    var s := a + ">" + b;
    forall j: nat ensures !OccursAt(s, t, j) {
      if j + |t| <= |s| {
        assert s[j..j + |t|][0] == s[j] && s[j..j + |t|][1] == s[j + 1];
        if j + 1 < |a| {
          assert s[j + 1] == a[j + 1];
        } else if j + 1 == |a| {
          assert s[j] == a[|a| - 1];
        } else if j == |a| {
          assert s[j + 1] == b[0];
        } else {
          assert s[j + 1] == b[j - |a|];
        }
      }
    }
  }

  /**
   * `left > name`, where neither side holds `|` or `>` or outer whitespace,
   * parses as a write of stdout by `left` to the leaf `name`.
   */
  lemma ParseWriteLine(left: string, name: string)
    requires '|' !in left && '>' !in left && |left| > 0 && !IsWhiteSpace(left[0]) && !IsWhiteSpace(left[|left| - 1])
    requires '|' !in name && '>' !in name && |name| > 0 && !IsWhiteSpace(name[0]) && !IsWhiteSpace(name[|name| - 1])
    ensures ParseCommand(left + " > " + name) ==
      ParsedCommand(left, Some(WriteOut), Parsed(ParsedCommand(name, None, Raw(""))))
  {
    var s := left + " > " + name;
    WriteLinePieces(left, name);
    ParseCommandChooses(s, WriteOut);
    NoOperatorChars(name);
    ParseCommandShape(s, WriteOut, left, name);
  }

  /** A line whose winner is `op` and whose remainder holds no operator parses as that operator over a leaf. */
  lemma ParseCommandShape(input: string, op: Op, left: string, rest: string)
    requires ParseCommand(input).operator == Some(op) && Wins(input, op)
    requires Trim(input[..IndexOf(input, Token(op)).value]) == left
    requires Remainder(input, op) == rest && NoOperator(rest)
    ensures ParseCommand(input) == ParsedCommand(left, Some(op), Parsed(ParsedCommand(rest, None, Raw(""))))
  {
    ParseCommandRoot(input);
    RightIsLeaf(input, op, rest);
  }

  /** In `left > name` the operator `>` wins, the text before it trims to `left` and the text after it to `name`. */
  lemma WriteLinePieces(left: string, name: string)
    requires '|' !in left && '>' !in left && |left| > 0 && !IsWhiteSpace(left[0]) && !IsWhiteSpace(left[|left| - 1])
    requires '|' !in name && '>' !in name && |name| > 0 && !IsWhiteSpace(name[0]) && !IsWhiteSpace(name[|name| - 1])
    ensures var s := left + " > " + name;
      Wins(s, WriteOut) && IndexOf(s, Token(WriteOut)) == Some(|left| + 1) &&
      Trim(s[..|left| + 1]) == left && Remainder(s, WriteOut) == name
  {
    var a := left + " ";
    var b := " " + name;
    var s := a + ">" + b;
    assert s == left + " > " + name;
    WriteLineWins(a, b);
    assert s[..|a|] == a && s[|a| + 1..] == b;
    TrimOne(left);
    TrimOneBefore(name);
  }

  /** Where the only operator character is a `>` between two spaces, `>` wins at that position. */
  lemma WriteLineWins(a: string, b: string)
    requires '|' !in a && '>' !in a && |a| > 0 && a[|a| - 1] == ' '
    requires '|' !in b && '>' !in b && |b| > 0 && b[0] == ' '
    ensures IndexOf(a + ">" + b, ">") == Some(|a|) && Wins(a + ">" + b, WriteOut)
  {
    var s := a + ">" + b;
    AbsentToken(s, "|");
    LoneGreaterOnly(a, b, "1>");
    LoneGreaterOnly(a, b, "2>");
    LoneGreaterOnly(a, b, ">>");
    LoneGreaterOnly(a, b, "1>>");
    LoneGreaterOnly(a, b, "2>>");
    FoundAfter(a, ">", b);
    forall other | IndexOf(s, Token(other)).Some?
      ensures |a| < IndexOf(s, Token(other)).value || (|a| == IndexOf(s, Token(other)).value && Rank(other) <= 2)
    {
      match other
      case Pipe =>
      case WriteOutFd =>
      case WriteOut =>
      case WriteErr =>
      case AppendOut =>
      case AppendOutFd =>
      case AppendErr =>
    }
  }

  /** When the text after the winning operator holds no operator, the right side is that text as a leaf. */
  lemma RightIsLeaf(input: string, op: Op, rest: string)
    requires ParseCommand(input).operator == Some(op) && Wins(input, op)
    requires Remainder(input, op) == rest && NoOperator(rest)
    ensures ParseCommand(input).right == Parsed(ParsedCommand(rest, None, Raw("")))
  {
    ParseCommandRight(input);
    ParseCommandLeaf(rest);
  }

  /** One trailing space is trimmed from a word that has no outer whitespace. */
  lemma TrimOne(w: string)
    requires |w| > 0 && !IsWhiteSpace(w[0]) && !IsWhiteSpace(w[|w| - 1])
    ensures Trim(w + " ") == w
  {
    var s := w + " ";
    assert Leading(s) == 0;
    assert Trailing(s[..|s| - 1]) == 0;
  }

  /** One leading space is trimmed from a word that has no outer whitespace. */
  lemma TrimOneBefore(w: string)
    requires |w| > 0 && !IsWhiteSpace(w[0]) && !IsWhiteSpace(w[|w| - 1])
    ensures Trim(" " + w) == w
  {
    var s := " " + w;
    assert s[1..] == w;
    assert Leading(s[1..]) == 0;
    assert Trailing(s) == 0;
  }

  /**
   * A token of two or more characters whose second character is `>` and whose
   * first is neither a space nor `>` does not occur where the only `>`s are one
   * `>>` between two spaces.
   */
  lemma DoubleGreaterOnly(a: string, b: string, t: string)
    requires '>' !in a && '>' !in b
    requires |a| > 0 && a[|a| - 1] == ' ' && |b| > 0 && b[0] == ' '
    requires |t| >= 2 && t[0] != ' ' && t[0] != '>' && t[1] == '>'
    ensures IndexOf(a + ">>" + b, t) == None
  {
    var s := a + ">>" + b;
    forall j: nat ensures !OccursAt(s, t, j) {
      if j + |t| <= |s| {
        assert s[j..j + |t|][0] == s[j] && s[j..j + |t|][1] == s[j + 1];
        if j + 1 < |a| {
          assert s[j + 1] == a[j + 1];
        } else if j + 1 == |a| {
          assert s[j] == a[|a| - 1];
        } else if j == |a| {
          assert s[j] == '>';
        } else {
          assert s[j + 1] == b[j - |a| - 1];
        }
      }
    }
  }

  /** Where the only operator characters are a `>>` between two spaces, `>>` wins at that position. */
  lemma AppendLineWins(a: string, b: string)
    requires '|' !in a && '>' !in a && |a| > 0 && a[|a| - 1] == ' '
    requires '|' !in b && '>' !in b && |b| > 0 && b[0] == ' '
    ensures IndexOf(a + ">>" + b, ">>") == Some(|a|) && Wins(a + ">>" + b, AppendOut)
  {
    var s := a + ">>" + b;
    assert s == a + ">" + (">" + b);
    AbsentToken(s, "|");
    DoubleGreaterOnly(a, b, "1>");
    DoubleGreaterOnly(a, b, "2>");
    DoubleGreaterOnly(a, b, "1>>");
    DoubleGreaterOnly(a, b, "2>>");
    FoundAfter(a, ">", ">" + b);
    FoundAfter(a, ">>", b);
    forall other | IndexOf(s, Token(other)).Some?
      ensures |a| < IndexOf(s, Token(other)).value || (|a| == IndexOf(s, Token(other)).value && Rank(other) <= 4)
    {
      match other
      case Pipe =>
      case WriteOutFd =>
      case WriteOut =>
      case WriteErr =>
      case AppendOut =>
      case AppendOutFd =>
      case AppendErr =>
    }
  }

  /** In `left >> name` the operator `>>` wins, the text before it trims to `left` and the text after it to `name`. */
  lemma AppendLinePieces(left: string, name: string)
    requires '|' !in left && '>' !in left && |left| > 0 && !IsWhiteSpace(left[0]) && !IsWhiteSpace(left[|left| - 1])
    requires '|' !in name && '>' !in name && |name| > 0 && !IsWhiteSpace(name[0]) && !IsWhiteSpace(name[|name| - 1])
    ensures var s := left + " >> " + name;
      Wins(s, AppendOut) && IndexOf(s, Token(AppendOut)) == Some(|left| + 1) &&
      Trim(s[..|left| + 1]) == left && Remainder(s, AppendOut) == name
  {
    var a := left + " ";
    var b := " " + name;
    var s := a + ">>" + b;
    assert s == left + " >> " + name;
    AppendLineWins(a, b);
    assert s[..|a|] == a && s[|a| + 2..] == b;
    TrimOne(left);
    TrimOneBefore(name);
  }

  /**
   * `left >> name`, where neither side holds `|` or `>` or outer whitespace,
   * parses as an append of stdout by `left` to the leaf `name`.
   */
  lemma ParseAppendLine(left: string, name: string)
    requires '|' !in left && '>' !in left && |left| > 0 && !IsWhiteSpace(left[0]) && !IsWhiteSpace(left[|left| - 1])
    requires '|' !in name && '>' !in name && |name| > 0 && !IsWhiteSpace(name[0]) && !IsWhiteSpace(name[|name| - 1])
    ensures ParseCommand(left + " >> " + name) ==
      ParsedCommand(left, Some(AppendOut), Parsed(ParsedCommand(name, None, Raw(""))))
  {
    var s := left + " >> " + name;
    AppendLinePieces(left, name);
    ParseCommandChooses(s, AppendOut);
    NoOperatorChars(name);
    ParseCommandShape(s, AppendOut, left, name);
  }

  /** `echo word` prints the word and a newline. */
  lemma EchoWord(env: Env, word: string)
    requires ' ' !in word && |word| > 0 && word[0] != '\'' && word[0] != '"'
    ensures ParseParts("echo " + word) == ("echo", word)
    ensures HandleCommand(env, "echo", word) == Output(CommandOutput(word + "\n", ""))
  {
    assert "echo " + word == "echo" + " " + word;
    SplitWords("echo", word);
  }

  /** `echo w > name` sets `name` to the line, `echo w >> name` adds the line; neither prints anything. */
  lemma EchoRedirect(env: Env, files: map<string, string>, w: string, op: Op, target: ParsedCommand)
    requires ' ' !in w && |w| > 0 && w[0] != '\'' && w[0] != '"'
    requires op == WriteOut || op == AppendOut
    ensures var name := Trim(target.left);
      Execute(env, files, ParsedCommand("echo " + w, Some(op), Parsed(target))) ==
        (Output(CommandOutput("", "")),
         files[name := if op == AppendOut then Content(files, name) + (w + "\n") else w + "\n"])
  {
    EchoWord(env, w);
  }

  /**
   * `echo w1 > name` then `echo w2 >> name` leaves `name` holding both lines,
   * changes no other file and prints nothing.
   */
  lemma WriteThenAppend(env: Env, files: map<string, string>, w1: string, w2: string, target: ParsedCommand)
    requires ' ' !in w1 && |w1| > 0 && w1[0] != '\'' && w1[0] != '"'
    requires ' ' !in w2 && |w2| > 0 && w2[0] != '\'' && w2[0] != '"'
    ensures var name := Trim(target.left);
      Execute(env, files, ParsedCommand("echo " + w1, Some(WriteOut), Parsed(target))) ==
        (Output(CommandOutput("", "")), files[name := w1 + "\n"])
    ensures var name := Trim(target.left);
      Execute(env, files[name := w1 + "\n"], ParsedCommand("echo " + w2, Some(AppendOut), Parsed(target))) ==
        (Output(CommandOutput("", "")), files[name := (w1 + "\n") + (w2 + "\n")])
  {
    var name := Trim(target.left);
    EchoRedirect(env, files, w1, WriteOut, target);
    var files1 := files[name := w1 + "\n"];
    EchoRedirect(env, files1, w2, AppendOut, target);
    SecondUpdate(files, name, w1 + "\n", w2 + "\n");
  }

  /**
   * The session as typed: the line `echo w1 > name` and then the line
   * `echo w2 >> name`, each trimmed, parsed and executed, print nothing and
   * leave `name` holding both lines while no other file changes.
   */
  lemma WriteThenAppendLines(env: Env, files: map<string, string>, w1: string, w2: string, name: string)
    requires ' ' !in w1 && '|' !in w1 && '>' !in w1 && |w1| > 0 && w1[0] != '\'' && w1[0] != '"' && !IsWhiteSpace(w1[|w1| - 1])
    requires ' ' !in w2 && '|' !in w2 && '>' !in w2 && |w2| > 0 && w2[0] != '\'' && w2[0] != '"' && !IsWhiteSpace(w2[|w2| - 1])
    requires '|' !in name && '>' !in name && |name| > 0 && !IsWhiteSpace(name[0]) && !IsWhiteSpace(name[|name| - 1])
    ensures EvalLine(env, files, "echo " + w1 + " > " + name) == (Output(CommandOutput("", "")), files[name := w1 + "\n"])
    ensures EvalLine(env, files[name := w1 + "\n"], "echo " + w2 + " >> " + name) ==
      (Output(CommandOutput("", "")), files[name := (w1 + "\n") + (w2 + "\n")])
  {
    var leaf := ParsedCommand(name, None, Raw(""));
    TrimTrimmed(name);
    EchoLineParses(w1, name, WriteOut);
    EchoLineParses(w2, name, AppendOut);
    WriteThenAppend(env, files, w1, w2, leaf);
  }

  /** `echo w > name` and `echo w >> name` are already trimmed and parse as a redirect of `echo w` to the leaf `name`. */
  lemma EchoLineParses(w: string, name: string, op: Op)
    requires ' ' !in w && '|' !in w && '>' !in w && |w| > 0 && !IsWhiteSpace(w[|w| - 1])
    requires '|' !in name && '>' !in name && |name| > 0 && !IsWhiteSpace(name[0]) && !IsWhiteSpace(name[|name| - 1])
    requires op == WriteOut || op == AppendOut
    ensures var line := "echo " + w + (if op == WriteOut then " > " else " >> ") + name;
      Trim(line) == line &&
      ParseCommand(line) == ParsedCommand("echo " + w, Some(op), Parsed(ParsedCommand(name, None, Raw(""))))
  {
    var left := "echo " + w;
    assert left[0] == 'e' && left[|left| - 1] == w[|w| - 1];
    assert '|' !in left && '>' !in left by {
      assert left == "echo " + w;
      forall k | 0 <= k < |left| ensures left[k] != '|' && left[k] != '>' {
        if k >= 5 { assert left[k] == w[k - 5]; }
      }
    }
    var line := left + (if op == WriteOut then " > " else " >> ") + name;
    assert line[0] == 'e' && line[|line| - 1] == name[|name| - 1];
    TrimTrimmed(line);
    if op == WriteOut {
      assert line == left + " > " + name;
      ParseWriteLine(left, name);
    } else {
      assert line == left + " >> " + name;
      ParseAppendLine(left, name);
    }
  }

  /** Appending to a file just written gives the two texts in order, and only the last update of the name counts. */
  lemma SecondUpdate(files: map<string, string>, name: string, first: string, second: string)
    ensures var files1 := files[name := first];
      files1[name := Content(files1, name) + second] == files[name := first + second]
  {
  }

  /** A command word and one argument word without spaces split at the space. */
  lemma SplitWords(c: string, a: string)
    requires ' ' !in c && ' ' !in a
    ensures ParseParts(c + " " + a) == (c, StripQuotes(a))
  {
    var s := c + " " + a;
    SplitFirst(s, ' ');
    ParsePartsSplitsAtFirstSpace(s);
    assert s[..|c|] == c && s[|c|..|c| + 1] == " ";
    forall j: nat | j < |c| ensures !OccursAt(s, " ", j) {
      if j + 1 <= |s| {
        assert s[j..j + 1][0] == c[j];
      }
    }
    IndexOfIs(s, " ", |c|);
    assert s[|c| + 1..] == a;
  }
}
