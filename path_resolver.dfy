/** `findInPath`: the first executable regular file named `command` along PATH. */
module PathResolver {
  import opened Wrappers
  import opened JsStrings
  import opened Environment

  /**
   * `(process.env.PATH || "").split(":")`: the colon-separated pieces of PATH,
   * which join back to it; an unset or empty PATH gives the single directory "".
   */
  function SearchDirs(env: Env): (dirs: seq<string>)
    ensures |dirs| >= 1 && forall i :: 0 <= i < |dirs| ==> ':' !in dirs[i]
    ensures Join(dirs, ":") == env.pathVar.GetOr("")
    ensures env.pathVar.GetOr("") == "" ==> dirs == [""]
  {
    JoinSplit(env.pathVar.GetOr(""), ':');
    Split(env.pathVar.GetOr(""), ':')
  }

  /** `dirs[i]` is the first directory in which `command` is an executable regular file. */
  predicate FirstExecutableAt(env: Env, dirs: seq<string>, command: string, i: int) {
    0 <= i < |dirs| && Executable(env, env.join(dirs[i], command)) &&
    forall j :: 0 <= j < i ==> !Executable(env, env.join(dirs[j], command))
  }

  /** `command` is an executable regular file in none of `dirs`. */
  predicate NoExecutable(env: Env, dirs: seq<string>, command: string) {
    forall i :: 0 <= i < |dirs| ==> !Executable(env, env.join(dirs[i], command))
  }

  /** The first directory of `dirs` in which `command` is an executable regular file. */
  function Resolve(env: Env, dirs: seq<string>, command: string): (r: Option<string>)
    ensures r.Some? ==> exists i :: FirstExecutableAt(env, dirs, command, i) && r.value == env.join(dirs[i], command)
    ensures r.None? <==> NoExecutable(env, dirs, command)
    decreases |dirs|
  {
    if |dirs| == 0 then None
    else if Executable(env, env.join(dirs[0], command)) then Some(env.join(dirs[0], command))
    else
      var r := Resolve(env, dirs[1..], command);
      ShiftNone(env, dirs, command);
      assert r.Some? ==> exists i :: FirstExecutableAt(env, dirs, command, i) && r.value == env.join(dirs[i], command) by {
        if r.Some? {
          var i :| FirstExecutableAt(env, dirs[1..], command, i) && r.value == env.join(dirs[1..][i], command);
          ShiftFirst(env, dirs, command, i);
        }
      }
      r
  }

  /** A first match in the directories after a non-matching first one is a first match one further on. */
  lemma ShiftFirst(env: Env, dirs: seq<string>, command: string, i: int)
    requires |dirs| > 0 && !Executable(env, env.join(dirs[0], command))
    requires FirstExecutableAt(env, dirs[1..], command, i)
    ensures FirstExecutableAt(env, dirs, command, i + 1) && dirs[i + 1] == dirs[1..][i]
  {
    forall j | 0 < j < i + 1 ensures !Executable(env, env.join(dirs[j], command)) {
      assert dirs[j] == dirs[1..][j - 1];
    }
  }

  /** Past a non-matching first directory, no match in all of them means no match in the rest. */
  lemma ShiftNone(env: Env, dirs: seq<string>, command: string)
    requires |dirs| > 0 && !Executable(env, env.join(dirs[0], command))
    ensures NoExecutable(env, dirs, command) <==> NoExecutable(env, dirs[1..], command)
  {
    assert forall j :: 1 <= j < |dirs| ==> dirs[j] == dirs[1..][j - 1];
  }

  /**
   * `findInPath(command)`: tries `path.join(dir, command)` for each PATH
   * directory in order and returns the first that is an executable regular
   * file; a failed stat skips the directory; none found gives null.
   */
  method FindInPath(env: Env, command: string) returns (r: Option<string>)
    ensures r == Resolve(env, SearchDirs(env), command)
    ensures r.Some? ==>
      exists i :: FirstExecutableAt(env, SearchDirs(env), command, i) && r.value == env.join(SearchDirs(env)[i], command)
    ensures r.None? <==> NoExecutable(env, SearchDirs(env), command)
  {
    var directories := SearchDirs(env);
    var i := 0;
    while i < |directories|
      invariant 0 <= i <= |directories|
      invariant Resolve(env, directories, command) == Resolve(env, directories[i..], command)
    {
      var fullPath := env.join(directories[i], command);
      if fullPath in env.stat {
        var stats := env.stat[fullPath];
        if stats.isFile && stats.mode & EXECUTE_BITS != 0 {
          return Some(fullPath);
        }
      }
      assert directories[i..][1..] == directories[i + 1..];
      i := i + 1;
    }
    return None;
  }

  /** Only one directory can be the first match, so it fixes the result. */
  lemma {:induction false} FirstExecutableUnique(env: Env, dirs: seq<string>, command: string, i: int)
    requires FirstExecutableAt(env, dirs, command, i)
    ensures Resolve(env, dirs, command) == Some(env.join(dirs[i], command))
    decreases i
  {
    if i > 0 {
      assert FirstExecutableAt(env, dirs[1..], command, i - 1) by {
        forall j | 0 <= j < i - 1 ensures !Executable(env, env.join(dirs[1..][j], command)) {
          assert dirs[1..][j] == dirs[j + 1];
        }
      }
      FirstExecutableUnique(env, dirs[1..], command, i - 1);
    }
  }
}
