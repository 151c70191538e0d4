/**
 * What the shell reads from the operating system, as values: the PATH variable,
 * a table of `fs.statSync` results, a table of `fs.readdirSync` results,
 * `path.join`, and `spawnSync` as an oracle.
 */
module Environment {
  import opened Wrappers

  /** The part of an `fs.Stats` the shell looks at. */
  datatype Stat = Stat(isFile: bool, mode: bv32)

  /** 0o111: the owner, group and other execute bits. */
  const EXECUTE_BITS: bv32 := 0x49

  /** What `spawnSync` reports: a launch error with its code and message, or the captured streams. */
  datatype SpawnResult =
    | SpawnError(code: string, message: string)
    | Spawned(stdout: Option<string>, stderr: Option<string>)

  datatype Env = Env(
    /** `process.env.PATH`, which may be undefined. */
    pathVar: Option<string>,
    /** `fs.statSync(p)` for each path that has an entry; it throws for every other path. */
    stat: map<string, Stat>,
    /** `fs.readdirSync(d)` for each readable directory; it throws for every other one. */
    listing: map<string, seq<string>>,
    /** `path.join(dir, name)`. */
    join: (string, string) -> string,
    /** `spawnSync(command, args, {input})`. */
    spawn: (string, seq<string>, string) -> SpawnResult)

  /** `stats.isFile() && (stats.mode & 0o111) !== 0`, with a missing entry as a failed stat. */
  predicate Executable(env: Env, p: string) {
    p in env.stat && env.stat[p].isFile && env.stat[p].mode & EXECUTE_BITS != 0
  }
}
