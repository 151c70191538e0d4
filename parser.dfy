/** The operator scanner (`parseCommand`) and the leaf splitter (`parseParts`). */
module Parser {
  import opened Wrappers
  import opened JsStrings
  import opened Types

  /** One element of the mapped-and-filtered operator list: an operator and where it first occurs. */
  datatype Candidate = Candidate(op: Op, index: nat)

  /** Later candidates come from later entries of `BUILT_IN_OPERATORS`. */
  predicate RankOrdered(cs: seq<Candidate>) {
    forall i, j :: 0 <= i < j < |cs| ==> Rank(cs[i].op) < Rank(cs[j].op)
  }

  /**
   * `BUILT_IN_OPERATORS.map(op => ({op, index: input.indexOf(op)})).filter(x => x.index !== -1)`,
   * over the entries from position `from` on.
   */
  function Positions(input: string, from: nat): (cs: seq<Candidate>)
    requires from <= |BUILT_IN_OPERATORS|
    ensures forall c :: c in cs ==> from <= Rank(c.op) && IndexOf(input, Token(c.op)) == Some(c.index)
    ensures forall op :: from <= Rank(op) && IndexOf(input, Token(op)).Some? ==>
      Candidate(op, IndexOf(input, Token(op)).value) in cs
    ensures RankOrdered(cs)
    decreases |BUILT_IN_OPERATORS| - from
  {
    if from == |BUILT_IN_OPERATORS| then []
    else
      var op := BUILT_IN_OPERATORS[from];
      var rest := Positions(input, from + 1);
      assert Rank(op) == from;
      match IndexOf(input, Token(op))
      case Some(i) => [Candidate(op, i)] + rest
      case None => rest
  }

  /** `reduce((a, b) => a.index < b.index ? a : b)`: a left fold that lets a later candidate win a tie. */
  function Earliest(cs: seq<Candidate>): (c: Candidate)
    requires |cs| > 0
    ensures c in cs
    ensures forall d :: d in cs ==> c.index <= d.index
    decreases |cs|
  {
    if |cs| == 1 then cs[0]
    else
      var init := cs[..|cs| - 1];
      var a := Earliest(init);
      var b := cs[|cs| - 1];
      assert cs == init + [b];
      if a.index < b.index then a else b
  }

  /** Among the candidates at the smallest index, the fold keeps the one listed last. */
  lemma {:induction false} EarliestPrefersLater(cs: seq<Candidate>)
    requires |cs| > 0 && RankOrdered(cs)
    ensures forall d :: d in cs && d.index == Earliest(cs).index ==> Rank(d.op) <= Rank(Earliest(cs).op)
    decreases |cs|
  {
    if |cs| > 1 {
      var init := cs[..|cs| - 1];
      var b := cs[|cs| - 1];
      assert cs == init + [b];
      assert RankOrdered(init);
      EarliestPrefersLater(init);
      var a := Earliest(init);
      if a.index >= b.index {
        forall d | d in init ensures Rank(d.op) < Rank(b.op) {
          var i :| 0 <= i < |init| && init[i] == d;
          assert cs[i] == d;
        }
      }
    }
  }

  /**
   * `op` is the operator the scanner must choose: it occurs, no operator occurs
   * earlier, and every operator occurring at the same index is listed no later.
   */
  predicate Wins(input: string, op: Op) {
    IndexOf(input, Token(op)).Some? &&
    forall other :: IndexOf(input, Token(other)).Some? ==>
      IndexOf(input, Token(op)).value < IndexOf(input, Token(other)).value ||
      (IndexOf(input, Token(op)).value == IndexOf(input, Token(other)).value && Rank(other) <= Rank(op))
  }

  /** No operator token occurs anywhere in `input`. */
  predicate NoOperator(input: string) {
    forall op :: IndexOf(input, Token(op)).None?
  }

  /** The filtered list is empty exactly when no operator occurs, and otherwise its fold is the winner. */
  lemma EarliestWins(input: string)
    ensures |Positions(input, 0)| == 0 <==> NoOperator(input)
    ensures |Positions(input, 0)| > 0 ==>
      var w := Earliest(Positions(input, 0));
      Wins(input, w.op) && IndexOf(input, Token(w.op)) == Some(w.index)
  {
    var cs := Positions(input, 0);
    if |cs| == 0 {
      forall op ensures IndexOf(input, Token(op)).None? {
      }
    } else {
      assert cs[0] in cs;
      var w := Earliest(cs);
      EarliestPrefersLater(cs);
      forall other | IndexOf(input, Token(other)).Some?
        ensures w.index < IndexOf(input, Token(other)).value ||
          (w.index == IndexOf(input, Token(other)).value && Rank(other) <= Rank(w.op))
      {
        assert Candidate(other, IndexOf(input, Token(other)).value) in cs;
      }
    }
  }

  /**
   * The operator `parseCommand` splits at and where it starts: none when no
   * operator occurs, otherwise the winner together with its first index.
   */
  function FirstOperator(input: string): (r: Option<Candidate>)
    ensures r.None? <==> NoOperator(input)
    ensures r.Some? ==> Wins(input, r.value.op) && IndexOf(input, Token(r.value.op)) == Some(r.value.index)
  {
    var cs := Positions(input, 0);
    EarliestWins(input);
    if |cs| == 0 then None else Some(Earliest(cs))
  }

  /**
   * `parseCommand(input)`. A line without operators is a leaf holding the line
   * unchanged; otherwise the winning operator is the root, the trimmed text
   * before it is `left`, and the trimmed text after it is parsed again as `right`.
   */
  function ParseCommand(input: string): (r: ParsedCommand)
    decreases |input|
  {
    match FirstOperator(input)
    case None => ParsedCommand(input, None, Raw(""))
    case Some(w) =>
      var rest := Trim(input[w.index + |Token(w.op)|..]);
      ParsedCommand(Trim(input[..w.index]), Some(w.op), Parsed(ParseCommand(rest)))
  }

  /** The text after the winning operator, trimmed; it is shorter than the line. */
  function Remainder(input: string, op: Op): (rest: string)
    requires Wins(input, op)
    ensures |rest| < |input|
  {
    var k := IndexOf(input, Token(op)).value;
    Trim(input[k + |Token(op)|..])
  }

  /** `parseCommand` returns a leaf exactly when no operator occurs, and the leaf holds the line unchanged. */
  lemma ParseCommandLeaf(input: string)
    ensures ParseCommand(input).operator.None? <==> NoOperator(input)
    ensures ParseCommand(input).operator.None? ==> ParseCommand(input) == ParsedCommand(input, None, Raw(""))
  {
    match FirstOperator(input)
    case None =>
    case Some(w) =>
  }

  /** Otherwise the root is the winning operator and `left` is the trimmed text before it. */
  lemma ParseCommandRoot(input: string)
    requires ParseCommand(input).operator.Some?
    ensures Wins(input, ParseCommand(input).operator.value)
    ensures ParseCommand(input).left == Trim(input[..IndexOf(input, Token(ParseCommand(input).operator.value)).value])
  {
    match FirstOperator(input)
    case None =>
    case Some(w) =>
      assert ParseCommand(input).operator == Some(w.op);
  }

  /** And `right` is the parse of the trimmed text after the operator. */
  lemma ParseCommandRight(input: string)
    requires ParseCommand(input).operator.Some?
    ensures ParseCommand(input).right == Parsed(ParseCommand(Remainder(input, ParseCommand(input).operator.value)))
  {
    match FirstOperator(input)
    case None =>
    case Some(w) =>
      var rest := Trim(input[w.index + |Token(w.op)|..]);
      assert Remainder(input, w.op) == rest;
      assert ParseCommand(input).right == Parsed(ParseCommand(rest));
  }

  /** Every node with an operator has a parsed right side, and every leaf has the empty raw text. */
  predicate WellShaped(p: ParsedCommand) {
    match p.right
    case Raw(text) => p.operator.None? && text == ""
    case Parsed(q) => p.operator.Some? && WellShaped(q)
  }

  function OperatorCount(p: ParsedCommand): nat {
    match p.right
    case Raw(_) => 0
    case Parsed(q) => 1 + OperatorCount(q)
  }

  /** At most one operator wins: equal indices and ranks that bound each other name the same operator. */
  lemma WinsUnique(input: string, a: Op, b: Op)
    requires Wins(input, a) && Wins(input, b)
    ensures a == b
  {
    assert Rank(a) == Rank(b);
    assert BUILT_IN_OPERATORS[Rank(a)] == a && BUILT_IN_OPERATORS[Rank(b)] == b;
  }

  /** The root operator of `parseCommand` is exactly the winning operator of the line. */
  lemma ParseCommandChooses(input: string, op: Op)
    ensures ParseCommand(input).operator == Some(op) <==> Wins(input, op)
  {
    ParseCommandLeaf(input);
    if ParseCommand(input).operator.Some? {
      ParseCommandRoot(input);
      if Wins(input, op) {
        WinsUnique(input, op, ParseCommand(input).operator.value);
      }
    } else {
      assert !Wins(input, op);
    }
  }

  /** The parse is a right-leaning chain of operators ending in a leaf, no deeper than the line is long. */
  lemma {:induction false} ParseCommandWellShaped(input: string)
    ensures WellShaped(ParseCommand(input))
    ensures OperatorCount(ParseCommand(input)) <= |input|
    decreases |input|
  {
    var r := ParseCommand(input);
    if r.operator.Some? {
      ParseCommandRoot(input);
      ParseCommandRight(input);
      ParseCommandWellShaped(Remainder(input, r.operator.value));
    }
  }

  /**
   * Greedy longest match: no operator token that starts where the winner starts
   * is longer than the winner, so `>>` is never read as `>` followed by `>`.
   */
  lemma LongestMatch(input: string, other: Op)
    requires ParseCommand(input).operator.Some?
    requires OccursAt(input, Token(other), IndexOf(input, Token(ParseCommand(input).operator.value)).value)
    ensures |Token(other)| <= |Token(ParseCommand(input).operator.value)|
  {
    ParseCommandRoot(input);
    WinnerIsLongest(input, ParseCommand(input).operator.value, other);
  }

  lemma WinnerIsLongest(input: string, w: Op, other: Op)
    requires Wins(input, w)
    requires OccursAt(input, Token(other), IndexOf(input, Token(w)).value)
    ensures |Token(other)| <= |Token(w)|
  {
    var k := IndexOf(input, Token(w)).value;
    assert IndexOf(input, Token(other)).Some?;
    assert Rank(other) <= Rank(w);
    OccursAtHead(input, Token(other), k);
    OccursAtHead(input, Token(w), k);
    TieLength(other, w);
  }

  lemma OccursAtHead(s: string, t: string, k: nat)
    requires OccursAt(s, t, k) && |t| > 0
    ensures k < |s| && s[k] == t[0]
  {
    assert s[k..k + |t|][0] == s[k];
  }

  /** Of two operators whose tokens start with the same character, the one listed later is not shorter. */
  lemma TieLength(a: Op, b: Op)
    requires Rank(a) <= Rank(b) && Token(a)[0] == Token(b)[0]
    ensures |Token(a)| <= |Token(b)|
  {
  }

  /** `parts.slice(1).join(" ")`: everything after the first space, with the spacing kept. */
  function RawArguments(input: string): string {
    Join(Split(input, ' ')[1..], " ")
  }

  /** `args.slice(1, -1)` when `args` starts and ends with the same quote character. */
  function StripQuotes(args: string): (r: string)
    ensures (|args| >= 1 && args[0] == args[|args| - 1] && (args[0] == '\'' || args[0] == '"')) ==>
      |r| == (if |args| >= 2 then |args| - 2 else 0) &&
      (|args| >= 2 ==> args == [args[0]] + r + [args[0]])
    ensures !(|args| >= 1 && args[0] == args[|args| - 1] && (args[0] == '\'' || args[0] == '"')) ==>
      r == args
  {
    if (StartsWith(args, "'") && EndsWith(args, "'")) || (StartsWith(args, "\"") && EndsWith(args, "\"")) then
      if |args| >= 2 then args[1..|args| - 1] else ""
    else
      args
  }

  /** `parseParts(input)`: the command word and the argument text. */
  function ParseParts(input: string): (string, string) {
    (Split(input, ' ')[0], StripQuotes(RawArguments(input)))
  }

  /**
   * The command word is the text before the first single space (the whole input
   * if there is none) and the unquoted arguments are exactly the text after it,
   * so `command + " " + arguments` gives back the input.
   */
  lemma ParsePartsSplitsAtFirstSpace(input: string)
    ensures ' ' !in ParseParts(input).0
    ensures IndexOf(input, " ").None? ==> ParseParts(input).0 == input && RawArguments(input) == ""
    ensures IndexOf(input, " ").Some? ==>
      var i := IndexOf(input, " ").value;
      ParseParts(input).0 == input[..i] && RawArguments(input) == input[i + 1..] &&
      ParseParts(input).0 + " " + RawArguments(input) == input
  {
    SplitFirst(input, ' ');
    if IndexOf(input, " ").Some? {
      var i := IndexOf(input, " ").value;
      assert input == input[..i] + " " + input[i + 1..] by {
        assert input[i..i + 1] == " ";
      }
    }
  }
}
