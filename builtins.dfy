/** The built-in commands `echo` and `type`; `exit` is handled by the dispatcher. */
module Builtins {
  import opened Wrappers
  import opened Types
  import opened Environment
  import opened PathResolver

  /** `echoCommand(query)`: the argument text and a newline on stdout. */
  function EchoCommand(query: string): CommandOutput {
    CommandOutput(query + "\n", "")
  }

  /**
   * `typeCommand(query)`: a built-in name is reported as such; any other name
   * is reported with the path of its first executable match along PATH, or as
   * not found. Nothing is ever written to stderr. A match whose joined path is
   * empty counts as not found, because the source tests the path for truthiness.
   */
  function TypeCommand(env: Env, query: string): (r: CommandOutput)
    ensures r.stderr == ""
    ensures query in BUILT_IN_COMMANDS ==> r.stdout == query + " is a shell builtin\n"
    ensures forall i :: query !in BUILT_IN_COMMANDS && FirstExecutableAt(env, SearchDirs(env), query, i) ==>
      var p := env.join(SearchDirs(env)[i], query);
      r.stdout == if p != "" then query + " is " + p + "\n" else query + ": not found\n"
    ensures query !in BUILT_IN_COMMANDS && NoExecutable(env, SearchDirs(env), query) ==>
      r.stdout == query + ": not found\n"
  {
    if query in BUILT_IN_COMMANDS then
      CommandOutput(query + " is a shell builtin\n", "")
    else
      var dirs := SearchDirs(env);
      var found := Resolve(env, dirs, query);
      assert forall i :: FirstExecutableAt(env, dirs, query, i) ==> found == Some(env.join(dirs[i], query)) by {
        forall i | FirstExecutableAt(env, dirs, query, i) ensures found == Some(env.join(dirs[i], query)) {
          FirstExecutableUnique(env, dirs, query, i);
        }
      }
      match found
      case Some(p) =>
        if p != "" then CommandOutput(query + " is " + p + "\n", "")
        else CommandOutput(query + ": not found\n", "")
      case None => CommandOutput(query + ": not found\n", "")
  }
}
