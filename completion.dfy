/**
 * Tab completion: the PATH scan (`getExecutablesStartingWith`) and the
 * two-press `completer` with its two module-level state variables.
 */
module Completion {
  import opened Wrappers
  import opened JsStrings
  import opened Collections
  import opened Environment
  import opened PathResolver

  /** The built-ins offered for completion (`type` is not among them). */
  const COMPLETION_BUILTINS: seq<string> := ["echo", "exit"]

  /**
   * `process.env.PATH?.split(":") || []`: an unset PATH gives no directories;
   * a set one, even an empty one, gives the same directories as `findInPath`.
   */
  function ListingDirs(env: Env): (r: seq<string>)
    ensures env.pathVar.None? ==> r == []
    ensures env.pathVar.Some? ==> r == SearchDirs(env) && Join(r, ":") == env.pathVar.value
  {
    match env.pathVar
    case None => []
    case Some(p) => Split(p, ':')
  }

  /**
   * What the inner loop pushes for the entries `files` of directory `dir`: each
   * entry starting with `prefix` is stat-ed, an executable regular file is
   * pushed with a trailing space, and a failing stat ends the directory.
   */
  function EntryMatches(env: Env, dir: string, files: seq<string>, prefix: string): seq<string>
    decreases |files|
  {
    if |files| == 0 then []
    else if !StartsWith(files[0], prefix) then EntryMatches(env, dir, files[1..], prefix)
    else if env.join(dir, files[0]) !in env.stat then []
    else Pushed(env, dir, files[0]) + EntryMatches(env, dir, files[1..], prefix)
  }

  /** The entry pushed for a stat-ed file: its name and a space when it is executable. */
  function Pushed(env: Env, dir: string, file: string): seq<string> {
    if Executable(env, env.join(dir, file)) then [file + " "] else []
  }

  /** What one directory contributes; one that cannot be read contributes nothing. */
  function DirMatches(env: Env, dir: string, prefix: string): seq<string> {
    if dir in env.listing then EntryMatches(env, dir, env.listing[dir], prefix) else []
  }

  /** What the outer loop pushes over the directories `dirs`, in order. */
  function ScanMatches(env: Env, dirs: seq<string>, prefix: string): seq<string>
    decreases |dirs|
  {
    if |dirs| == 0 then [] else DirMatches(env, dirs[0], prefix) + ScanMatches(env, dirs[1..], prefix)
  }

  /** One step of the inner loop: what entry `j` contributes before the entries after it. */
  lemma EntryMatchesStep(env: Env, dir: string, files: seq<string>, j: nat, prefix: string)
    requires j < |files|
    ensures var rest := EntryMatches(env, dir, files[j + 1..], prefix);
      EntryMatches(env, dir, files[j..], prefix) ==
        if !StartsWith(files[j], prefix) then rest
        else if env.join(dir, files[j]) !in env.stat then []
        else Pushed(env, dir, files[j]) + rest
  {
    assert files[j..][1..] == files[j + 1..];
  }

  /** One step of the outer loop: what directory `i` contributes before the directories after it. */
  lemma ScanMatchesStep(env: Env, dirs: seq<string>, i: nat, prefix: string)
    requires i < |dirs|
    ensures ScanMatches(env, dirs[i..], prefix) == DirMatches(env, dirs[i], prefix) + ScanMatches(env, dirs[i + 1..], prefix)
  {
    assert dirs[i..][1..] == dirs[i + 1..];
  }

  /** Every entry pushed names an executable regular file that starts with the prefix, plus a space. */
  lemma {:induction false} EntryMatchesSound(env: Env, dir: string, files: seq<string>, prefix: string, x: string)
    requires x in EntryMatches(env, dir, files, prefix)
    ensures exists f :: f in files && x == f + " " && StartsWith(f, prefix) && Executable(env, env.join(dir, f))
    decreases |files|
  {
    var f := files[0];
    if StartsWith(f, prefix) && env.join(dir, f) in env.stat && Executable(env, env.join(dir, f)) && x == f + " " {
    } else {
      EntryMatchesSound(env, dir, files[1..], prefix, x);
      var g :| g in files[1..] && x == g + " " && StartsWith(g, prefix) && Executable(env, env.join(dir, g));
      assert g in files;
    }
  }

  /**
   * In a directory where every matching entry can be stat-ed, every matching
   * executable regular file is pushed.
   */
  lemma {:induction false} EntryMatchesComplete(env: Env, dir: string, files: seq<string>, prefix: string, f: string)
    requires f in files && StartsWith(f, prefix) && Executable(env, env.join(dir, f))
    requires forall g :: g in files && StartsWith(g, prefix) ==> env.join(dir, g) in env.stat
    ensures f + " " in EntryMatches(env, dir, files, prefix)
    decreases |files|
  {
    if files[0] != f {
      assert f in files[1..];
      EntryMatchesComplete(env, dir, files[1..], prefix, f);
    }
  }

  /**
   * A failing stat of a matching entry abandons the rest of its directory:
   * nothing after it is pushed, whatever follows.
   */
  lemma {:induction false} StatFailureAbandonsDirectory(env: Env, dir: string, before: seq<string>, f: string,
                                                        after: seq<string>, prefix: string)
    requires StartsWith(f, prefix) && env.join(dir, f) !in env.stat
    ensures EntryMatches(env, dir, before + [f] + after, prefix) == EntryMatches(env, dir, before, prefix)
    decreases |before|
  {
    var all := before + [f] + after;
    if |before| == 0 {
      assert all[0] == f && all[1..] == after;
    } else {
      assert all[0] == before[0];
      assert all[1..] == before[1..] + [f] + after;
      StatFailureAbandonsDirectory(env, dir, before[1..], f, after, prefix);
    }
  }

  /**
   * The body of the outer loop of `getExecutablesStartingWith` for one readable
   * directory: the inner loop over its entries, which pushes each matching
   * executable regular file with a trailing space and stops where `statSync`
   * throws.
   */
  method ScanDirectory(env: Env, dir: string, files: seq<string>, prefix: string) returns (pushed: seq<string>)
    ensures pushed == EntryMatches(env, dir, files, prefix)
  {
    pushed := [];
    var j := 0;
    while j < |files|
      invariant 0 <= j <= |files|
      invariant pushed + EntryMatches(env, dir, files[j..], prefix) == EntryMatches(env, dir, files, prefix)
    {
      var file := files[j];
      EntryMatchesStep(env, dir, files, j, prefix);
      ghost var rest := EntryMatches(env, dir, files[j + 1..], prefix);
      if StartsWith(file, prefix) {
        var fullPath := env.join(dir, file);
        if fullPath !in env.stat {
          // statSync throws; the catch around the directory loop skips the rest of it
          assert pushed + [] == pushed;
          break;
        }
        var stats := env.stat[fullPath];
        if stats.isFile && stats.mode & EXECUTE_BITS != 0 {
          assert (pushed + [file + " "]) + rest == pushed + ([file + " "] + rest);
          pushed := pushed + [file + " "];
        } else {
          assert Pushed(env, dir, file) + rest == rest;
        }
      }
      j := j + 1;
    }
    if j == |files| {
      assert files[j..] == [] && pushed + [] == pushed;
    }
  }

  /**
   * `getExecutablesStartingWith(prefix)`: scans every PATH directory that can
   * be read, pushes each matching executable entry with a trailing space, and
   * returns the pushed names without repeats, in order of first occurrence.
   */
  method GetExecutablesStartingWith(env: Env, prefix: string) returns (r: seq<string>)
    ensures r == Dedup(ScanMatches(env, ListingDirs(env), prefix))
    ensures NoDuplicates(r)
  {
    var executables: seq<string> := [];
    var pathDirs := ListingDirs(env);
    var i := 0;
    while i < |pathDirs|
      invariant 0 <= i <= |pathDirs|
      invariant executables + ScanMatches(env, pathDirs[i..], prefix) == ScanMatches(env, pathDirs, prefix)
    {
      var dir := pathDirs[i];
      ScanMatchesStep(env, pathDirs, i, prefix);
      ghost var rest := ScanMatches(env, pathDirs[i + 1..], prefix);
      if dir in env.listing {
        var pushed := ScanDirectory(env, dir, env.listing[dir], prefix);
        assert (executables + pushed) + rest == executables + (pushed + rest);
        executables := executables + pushed;
      } else {
        assert DirMatches(env, dir, prefix) + rest == rest;
      }
      i := i + 1;
    }
    assert pathDirs[i..] == [];
    assert executables == ScanMatches(env, pathDirs, prefix);
    r := Dedup(executables);
  }

  /** `builtins.filter(cmd => cmd.startsWith(line)).map(cmd => cmd + " ")` over `names`. */
  function NamesStartingWith(names: seq<string>, line: string): seq<string>
    decreases |names|
  {
    if |names| == 0 then []
    else (if StartsWith(names[0], line) then [names[0] + " "] else []) + NamesStartingWith(names[1..], line)
  }

  /** `[...new Set([...builtinMatches, ...executableMatches])]`. */
  function AllMatches(env: Env, line: string): seq<string> {
    Dedup(NamesStartingWith(COMPLETION_BUILTINS, line) + Dedup(ScanMatches(env, ListingDirs(env), line)))
  }

  /**
   * The candidates carry no repeats, start with the matching built-ins in
   * declaration order, and otherwise come from the PATH scan; each is a name
   * starting with the line followed by a space.
   */
  lemma AllMatchesShape(env: Env, line: string)
    ensures var all := AllMatches(env, line);
      var builtins := NamesStartingWith(COMPLETION_BUILTINS, line);
      NoDuplicates(all) &&
      |builtins| <= |all| && all[..|builtins|] == builtins &&
      forall x :: x in all ==> x in builtins || exists d :: d in ListingDirs(env) && x in DirMatches(env, d, line)
  {
    var builtins := NamesStartingWith(COMPLETION_BUILTINS, line);
    var scanned := Dedup(ScanMatches(env, ListingDirs(env), line));
    BuiltinMatchesDistinct(line);
    DedupDistinct(builtins);
    DedupPrefix(builtins, scanned);
    forall x | x in AllMatches(env, line) && x !in builtins
      ensures exists d :: d in ListingDirs(env) && x in DirMatches(env, d, line)
    {
      assert x in ScanMatches(env, ListingDirs(env), line);
      ScanMatchesFrom(env, ListingDirs(env), line, x);
    }
  }

  /** The matching built-ins carry no repeats. */
  lemma BuiltinMatchesDistinct(line: string)
    ensures NoDuplicates(NamesStartingWith(COMPLETION_BUILTINS, line))
  {
    var names := COMPLETION_BUILTINS;
    assert names[1..] == ["exit"] && names[1..][1..] == [];
    assert NamesStartingWith(names[1..][1..], line) == [];
    assert NamesStartingWith(names[1..], line) == (if StartsWith("exit", line) then ["exit" + " "] else []);
    assert NamesStartingWith(names, line) == (if StartsWith("echo", line) then ["echo" + " "] else []) +
      (if StartsWith("exit", line) then ["exit" + " "] else []);
    assert ("echo" + " ")[1] != ("exit" + " ")[1];
  }

  lemma {:induction false} ScanMatchesFrom(env: Env, dirs: seq<string>, prefix: string, x: string)
    requires x in ScanMatches(env, dirs, prefix)
    ensures exists d :: d in dirs && x in DirMatches(env, d, prefix)
    decreases |dirs|
  {
    if x !in DirMatches(env, dirs[0], prefix) {
      ScanMatchesFrom(env, dirs[1..], prefix, x);
      var d :| d in dirs[1..] && x in DirMatches(env, d, prefix);
      assert d in dirs;
    }
  }

  /** `name` is an entry of a readable PATH directory and an executable regular file there. */
  predicate FromPath(env: Env, name: string) {
    exists d :: d in ListingDirs(env) && d in env.listing && name in env.listing[d] && Executable(env, env.join(d, name))
  }

  /**
   * Every candidate is a name starting with the line followed by a space, the
   * name being `echo`, `exit`, or an entry of a readable PATH directory that is
   * an executable regular file there.
   */
  lemma CandidateSound(env: Env, line: string, x: string)
    requires x in AllMatches(env, line)
    ensures exists name :: x == name + " " && StartsWith(name, line) && (name in COMPLETION_BUILTINS || FromPath(env, name))
  {
    AllMatchesShape(env, line);
    var builtins := NamesStartingWith(COMPLETION_BUILTINS, line);
    if x in builtins {
      BuiltinSound(COMPLETION_BUILTINS, line, x);
    } else {
      var d :| d in ListingDirs(env) && x in DirMatches(env, d, line);
      EntryMatchesSound(env, d, env.listing[d], line, x);
    }
  }

  /**
   * Conversely, every executable regular file starting with the line in a
   * readable PATH directory is a candidate, provided every matching entry of
   * that directory can be stat-ed.
   */
  lemma CandidateComplete(env: Env, line: string, d: string, f: string)
    requires d in ListingDirs(env) && d in env.listing && f in env.listing[d]
    requires StartsWith(f, line) && Executable(env, env.join(d, f))
    requires forall g :: g in env.listing[d] && StartsWith(g, line) ==> env.join(d, g) in env.stat
    ensures f + " " in AllMatches(env, line)
  {
    EntryMatchesComplete(env, d, env.listing[d], line, f);
    ScanMatchesContains(env, ListingDirs(env), line, d, f + " ");
  }

  /** What one directory contributes appears in the scan of any directory list containing it. */
  lemma {:induction false} ScanMatchesContains(env: Env, dirs: seq<string>, prefix: string, d: string, x: string)
    requires d in dirs && x in DirMatches(env, d, prefix)
    ensures x in ScanMatches(env, dirs, prefix)
    decreases |dirs|
  {
    if dirs[0] != d {
      assert d in dirs[1..];
      ScanMatchesContains(env, dirs[1..], prefix, d, x);
    }
  }

  lemma {:induction false} BuiltinSound(names: seq<string>, line: string, x: string)
    requires x in NamesStartingWith(names, line)
    ensures exists name :: name in names && x == name + " " && StartsWith(name, line)
    decreases |names|
  {
    if !(StartsWith(names[0], line) && x == names[0] + " ") {
      BuiltinSound(names[1..], line, x);
      var name :| name in names[1..] && x == name + " " && StartsWith(name, line);
      assert name in names;
    }
  }

  /** The two module-level variables `lastCompletionInput` and `lastCompletionMatches`. */
  datatype CompletionState = CompletionState(lastInput: string, lastMatches: seq<string>)

  /** What one request produces: the candidates handed back, the listing printed, whether the bell rang. */
  datatype Reply = Reply(candidates: seq<string>, listing: string, bell: bool)

  /** `lastCompletionMatches.map(m => m.trim())`. */
  function TrimAll(ms: seq<string>): (r: seq<string>)
    ensures |r| == |ms| && forall i :: 0 <= i < |ms| ==> r[i] == Trim(ms[i])
    decreases |ms|
  {
    if |ms| == 0 then [] else [Trim(ms[0])] + TrimAll(ms[1..])
  }

  /** `"\n" + matches.map(m => m.trim()).sort().join("  ") + "\n"`. */
  function Listing(ms: seq<string>): string {
    "\n" + Join(Sort(TrimAll(ms)), "  ") + "\n"
  }

  /** One call of `completer(line)` given the state before it and the freshly computed matches. */
  function CompletionStep(s: CompletionState, line: string, all: seq<string>): (CompletionState, Reply) {
    if line == s.lastInput && |s.lastMatches| > 1 then
      (CompletionState("", s.lastMatches), Reply([], Listing(s.lastMatches), false))
    else if |all| > 1 then
      (CompletionState(line, all), Reply([], "", true))
    else if |all| == 0 && |line| > 0 then
      (CompletionState(line, all), Reply([], "", true))
    else
      (CompletionState(line, all), Reply(all, "", false))
  }

  /**
   * A second request for the same ambiguous line prints the stored matches,
   * trimmed and sorted, separated by two spaces between newlines, hands back
   * no candidates, and clears the stored line but keeps the stored matches.
   */
  lemma SecondPressLists(s: CompletionState, line: string, all: seq<string>)
    requires line == s.lastInput && |s.lastMatches| > 1
    ensures var (s', reply) := CompletionStep(s, line, all);
      var names := Sort(TrimAll(s.lastMatches));
      s' == CompletionState("", s.lastMatches) &&
      reply.candidates == [] && !reply.bell &&
      reply.listing == "\n" + Join(names, "  ") + "\n" &&
      Sorted(names) && multiset(names) == multiset(TrimAll(s.lastMatches))
  {
  }

  /**
   * Any other request stores the line and its matches; it rings the bell and
   * hands back nothing when the matches are ambiguous, or absent for a
   * non-empty line, and otherwise hands back the matches to insert.
   */
  lemma OtherPressStores(s: CompletionState, line: string, all: seq<string>)
    requires !(line == s.lastInput && |s.lastMatches| > 1)
    ensures var (s', reply) := CompletionStep(s, line, all);
      s' == CompletionState(line, all) && reply.listing == "" &&
      (reply.bell <==> |all| > 1 || (|all| == 0 && line != "")) &&
      reply.candidates == (if reply.bell then [] else all)
  {
  }

  /** At most one candidate is ever handed back for insertion. */
  lemma AtMostOneCandidate(s: CompletionState, line: string, all: seq<string>)
    ensures |CompletionStep(s, line, all).1.candidates| <= 1
  {
  }

  /**
   * The two-press protocol on a non-empty ambiguous line: a first request (one
   * that is not a repeat of a stored ambiguous line) only rings the bell, the
   * second lists the matches of the first, and a third starts over as a first
   * request, offering its single match or ringing the bell.
   */
  lemma TwoPressProtocol(s0: CompletionState, line: string, m1: seq<string>, m2: seq<string>, m3: seq<string>)
    requires line != "" && !(line == s0.lastInput && |s0.lastMatches| > 1) && |m1| > 1
    ensures var (s1, r1) := CompletionStep(s0, line, m1);
      var (s2, r2) := CompletionStep(s1, line, m2);
      var (s3, r3) := CompletionStep(s2, line, m3);
      r1 == Reply([], "", true) && s1 == CompletionState(line, m1) &&
      r2 == Reply([], Listing(m1), false) && s2 == CompletionState("", m1) &&
      s3 == CompletionState(line, m3) &&
      r3 == Reply(if |m3| == 1 then m3 else [], "", |m3| != 1)
  {
  }

  /**
   * Because the listing clears only the stored line, a later request on the
   * empty line lists the previous ambiguous matches again instead of completing.
   */
  lemma EmptyLineRepeatsListing(s: CompletionState, line: string, m1: seq<string>, m2: seq<string>, m3: seq<string>)
    requires line == s.lastInput && |s.lastMatches| > 1
    ensures var (s1, _) := CompletionStep(s, line, m1);
      var (s2, r2) := CompletionStep(s1, "", m2);
      r2 == Reply([], Listing(s.lastMatches), false) && s2 == s1
  {
  }

  /** `completer` together with `lastCompletionInput` and `lastCompletionMatches`. */
  class Completer {
    var lastCompletionInput: string
    var lastCompletionMatches: seq<string>

    constructor ()
      ensures lastCompletionInput == "" && lastCompletionMatches == []
    {
      lastCompletionInput := "";
      lastCompletionMatches := [];
    }

    function State(): CompletionState
      reads this
    {
      CompletionState(lastCompletionInput, lastCompletionMatches)
    }

    /**
     * `completer(line)`: the candidates to insert, the listing written to stdout
     * ("" when none) and whether the bell character was written.
     */
    method Complete(env: Env, line: string) returns (candidates: seq<string>, listing: string, bell: bool)
      modifies this
      ensures (State(), Reply(candidates, listing, bell)) == CompletionStep(old(State()), line, AllMatches(env, line))
    {
      var builtinMatches := NamesStartingWith(COMPLETION_BUILTINS, line);
      var executableMatches := GetExecutablesStartingWith(env, line);
      var allMatches := Dedup(builtinMatches + executableMatches);

      if line == lastCompletionInput && |lastCompletionMatches| > 1 {
        listing := Listing(lastCompletionMatches);
        lastCompletionInput := "";
        return [], listing, false;
      }

      lastCompletionInput := line;
      lastCompletionMatches := allMatches;

      if |allMatches| > 1 {
        return [], "", true;
      }
      if |allMatches| == 0 && |line| > 0 {
        return [], "", true;
      }
      return allMatches, "", false;
    }
  }
}
