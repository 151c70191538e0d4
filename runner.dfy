/** `runExternalCommand`: how a `spawnSync` result becomes a command's output. */
module Runner {
  import opened Wrappers
  import opened Types
  import opened Environment

  /**
   * `runExternalCommand(command, args, input)`. A launch failure yields empty
   * stdout and a one-line message on stderr: "command not found" for ENOENT,
   * the error's own message otherwise. A launched process's streams are
   * returned as they were captured, a missing one as the empty string.
   */
  function RunExternalCommand(env: Env, command: string, args: seq<string>, input: string): (r: CommandOutput)
    ensures env.spawn(command, args, input).SpawnError? ==> r.stdout == "" && |r.stderr| > 0 && r.stderr[|r.stderr| - 1] == '\n'
    ensures env.spawn(command, args, input).SpawnError? && env.spawn(command, args, input).code == "ENOENT" ==>
      r.stderr == command + ": command not found\n"
    ensures env.spawn(command, args, input).SpawnError? && env.spawn(command, args, input).code != "ENOENT" ==>
      r.stderr == "Error: " + env.spawn(command, args, input).message + "\n"
    ensures env.spawn(command, args, input).Spawned? ==>
      (env.spawn(command, args, input).stdout.Some? ==> r.stdout == env.spawn(command, args, input).stdout.value) &&
      (env.spawn(command, args, input).stdout.None? ==> r.stdout == "") &&
      (env.spawn(command, args, input).stderr.Some? ==> r.stderr == env.spawn(command, args, input).stderr.value) &&
      (env.spawn(command, args, input).stderr.None? ==> r.stderr == "")
  {
    match env.spawn(command, args, input)
    case SpawnError(code, message) =>
      if code == "ENOENT" then CommandOutput("", command + ": command not found\n")
      else CommandOutput("", "Error: " + message + "\n")
    case Spawned(out, err) =>
      CommandOutput(out.GetOr(""), err.GetOr(""))
  }
}
