/**
 * Snapshots and answers of the process manager, as the module sees them.
 * Every call into pm2 is replaced by the value it answers with.
 */
module Pm2 {
  import opened Wrappers

  /** `pm2_env.versioning`: where a process's code comes from. Either field may be missing. */
  datatype Versioning = Versioning(repoPath: Option<string>, branch: Option<string>)

  /** `pm2_env`, reduced to the one member the module reads. */
  datatype Env = Env(versioning: Option<Versioning>)

  /** One entry of the process list: its `name` and its optional `pm2_env`. */
  datatype Proc = Proc(name: string, env: Option<Env>)

  /** `meta.rev`: the revision descriptor of a pull. */
  datatype Rev = Rev(currentRevision: Option<string>)

  /**
   * The metadata a successful pull-and-reload resolves with. A missing `procs`
   * member is represented by the empty sequence: `procs[0].pm2_env` throws in both.
   */
  datatype Meta = Meta(rev: Option<Rev>, procs: seq<Proc>)

  /** How the promisified `pm2.pullAndReload(name)` settles. */
  datatype PullResult = Rejected(message: string) | Resolved(meta: Option<Meta>)

  /** How the promisified `pm2.list()` settles. */
  datatype ListResult = ListFailed(message: string) | Listed(procs: seq<Proc>)

  /** A JavaScript number as far as the timer delay needs one: a whole number of ms, an infinity, or NaN. */
  datatype JsNumber = Finite(ms: int) | PlusInfinity | MinusInfinity | NaN
}
