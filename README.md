# pm2-auto-pull: a verified model of the update loop

pm2-auto-pull is a pm2 module. It periodically lists the processes pm2 manages. For each one it may pull the latest code and reload it, then it schedules the next pass. This project models the decision core of `app.js`, with every pm2 call replaced by the value it answers with:

- **pm2 answers** (`Pm2`): a process snapshot `Proc(name, env)`, the pull metadata `Meta(rev, procs)`, how a pull settles (`Rejected` or `Resolved(meta)`), how the list call settles (`ListFailed` or `Listed(procs)`), and the configured interval as a JavaScript number (`Finite(ms)`, `PlusInfinity`, `MinusInfinity` or `NaN`). `Option` stands for JavaScript truthiness: `Some` is a present, truthy value.
- **handling one process** (`PullProc`): the eligibility guard of `pullProc`, the `notify` stub, the pull-and-reload call, and the classification of its result. The classification is a `try` block (`TryPull`) followed by its `catch` (`Classify`).
- **one pass** (`Cycle`): `check`, a method with an index loop over the listed processes, proved against the trace function `CycleTrace`.
- **the scheduler** (`Scheduler`): one run of `start` is the method `RunOnce`, proved against `TickTrace`. `Start` runs pass after pass and is proved against `StartTrace`. A two-state machine (`Idle`/`Running`, `Replay`) states that passes never overlap.

Every observable step is an `Event` in an ordered trace: the list call, a notification, a pull call, a process's outcome, a caught pass error, and the timer with its delay. The pull oracle `answer(i)` gives how the pull of the process at list position `i` settles. In the scheduler, `answers(k)` gives that oracle for the `k`-th pass.

The module's documentation describes an update loop that pulls only processes under version control, never processes whose names carry the module's own prefix, and only after a readiness probe; it reports a hard pull failure apart from "already at latest". Where that documentation and the code disagree, the model follows the code:
- The guard in `app.js` is inverted. It pulls only processes that have a `pm2_env` and no `versioning`. So a process under version control, the only kind pm2 can pull, is never pulled. `InvertedGuard` and `VersionedFleetNeverPulled` record this. It is not corrected.
- The code has no rule excluding processes whose names start with the module's own prefix.
- `notify` is a stub that always lets the pull go ahead. There is no readiness probe.
- Every rejected pull, and every exception raised while reading the pull result, is classified "already at latest version". There is no separate `Failed` outcome. An empty `meta.procs` is one such case.
- Resolved metadata without `rev` is the "pulled" outcome (`PulledLegacy`). Falsy metadata gives `NoReport`, because nothing is logged.

## Model

| member | source | states |
|---|---|---|
| PullProc.Eligible | app.js:27-29 | the guard as written passes a process only when it has a `pm2_env`, so a process without one never passes; a passing process is never under version control. `ProcSkipped`, `ProcPulled` and `InvertedGuard` spell out both directions |
| PullProc.HandleProc | app.js:26-62 | what `pullProc` ends in: a skip exactly when `pm2_env` is missing or carries `versioning`, with `NoEnv` exactly for a missing `pm2_env`. "Already at latest" comes only from a process that passed the guard and a rejected or truthy pull result |
| PullProc.ProcTrace | app.js:26-62 | the events of `pullProc`: three for a process that passes the guard (notify, pull, outcome), one otherwise. The last is always the process's outcome, and every event is a per-process event about that process. `ProcPulled`, `ProcSkipped` and `ProcHandledOnce` give the events one by one |
| PullProc.LeadVersioning | app.js:48-49 | the reads `meta.procs[0].pm2_env.versioning.repo_path` and `.branch` succeed exactly when the first returned process has a `pm2_env` carrying `versioning`. Otherwise `procs[0].pm2_env`, `.versioning` or `.repo_path` throws |
| PullProc.TryPull | app.js:38-56 | the `try` block throws exactly when the pull is rejected, or when the result has a `rev` but its first process's versioning cannot be read |
| PullProc.Classify | app.js:38-60 | the outcome is never a skip. A rejection gives "already at latest" with its message. Falsy metadata gives no report. Metadata without `rev` gives the backward-compatible pull. `Updated` happens exactly when `rev` is set and the versioning is readable; it carries `rev.current_revision` and the repo path and branch of `meta.procs[0]`. A result with `rev` but unreadable versioning gives "already at latest" from a TypeError |
| PullProc.ProcSkipped | app.js:27-29 | a process with no `pm2_env`, or whose `pm2_env.versioning` is set, is skipped for that reason, with no notification and no pull call |
| PullProc.ProcPulled | app.js:27-39 | a process with `pm2_env` and no `versioning` is notified, then pulled exactly once under its own name, and ends with the classified pull result |
| PullProc.InvertedGuard | app.js:21-29 | a process under version control, which the doc comment says should be pulled, is skipped and never pulled |
| PullProc.ProcHandledOnce | app.js:26-62 | handling a process ends in exactly one outcome. It emits only per-process events, so nothing escapes `pullProc` |
| Cycle.CycleTrace | app.js:70-73 | the events of the loop of `check`: the per-process traces concatenated in list order, between one and three events per process, ending with the last process's outcome. `CyclePullCalls`, `CycleHandledInOrder`, `CycleOnlyProcessEvents`, `CycleNotifyThenPull` and `CyclePullAfterNotify` describe it |
| Cycle.CyclePullCalls | app.js:70-73 | the pull calls of a pass are the names of the guard-passing processes, each once per entry, in list order |
| Cycle.CycleHandledInOrder | app.js:67-74 | every listed process, from index 0 to the end, is handled in list order. Its outcome depends only on its own pull result, whatever earlier pulls did |
| Cycle.CycleOnlyProcessEvents | app.js:70-73 | a pass neither lists nor schedules; it emits only per-process events |
| Cycle.CycleNotifyThenPull | app.js:33-39 | `notify` never holds a pull back: every notification is immediately followed by the pull of the same process |
| Cycle.CyclePullAfterNotify | app.js:33-39 | no pull goes ahead without the notification: every pull call of a pass comes right after the notification of the same process |
| Cycle.CyclePullThenOutcome | app.js:38-73 | each pull is awaited to its outcome before anything else happens: every pull call of a pass is immediately followed by the outcome of the same process. With `CycleNotifyThenPull`, `CyclePullAfterNotify` and `CycleHandledInOrder`, the processes are handled one at a time, with no interleaving |
| Cycle.VersionedFleetNeverPulled | app.js:27-29 | when every listed process is under version control, a pass makes no pull call at all |
| Cycle.Check | app.js:67-74 | a failed list call ends the pass before any process is handled and hands its error to the caller. Otherwise the loop handles the processes one at a time, giving `CycleTrace` |
| Scheduler.NextDelay | app.js:87 | the delay is `Math.max(interval, 1000)`. For a whole-number interval it is the larger of the two. +Infinity stays +Infinity, and -Infinity gives 1000. Only a NaN interval gives NaN; every other delay is at least 1000 ms |
| Scheduler.TickTrace | app.js:79-88 | one completed run of `start` starts with the list call and ends by arming the timer with `Math.max(interval, 1000)`. A failed list call gives exactly the list call, the caught error and the timer. `TickAlternates` and `TickSchedulesOnce` describe it |
| Scheduler.StartTrace | app.js:79-88 | `n` completed runs of `start`, one after the other: at least two events per run, the last being the timer armed by the last run. `StartAlternates` and `StartSchedules` describe it |
| Scheduler.RunOnce | app.js:79-88 | one run of `start`: await the pass, catch its error, then arm the timer; it gives `TickTrace` |
| Scheduler.TickAlternates | app.js:79-88 | one completed run of `start` goes from idle through a pass back to idle (together with `TickSchedulesOnce`, through exactly one pass), including when the list call failed |
| Scheduler.TickSchedulesOnce | app.js:80-87 | every completed run of `start` arms the timer exactly once, with `Math.max(interval, 1000)`, as its last step, whether the pass failed or not |
| Scheduler.StartAlternates | app.js:79-88 | over any number of completed runs, the trace is accepted by the idle/running machine, so no pass starts while another is running |
| Scheduler.StartSchedules | app.js:79-88 | `n` completed runs arm exactly `n` timers. Each delay is `Math.max(interval, 1000)`, hence at least 1000 ms for any interval that is not NaN |
| Scheduler.Start | app.js:79-88 | the runs of `start`, each through `RunOnce`, give `StartTrace`. Its trace alternates idle and running, and it schedules once per pass with the floored delay |

## Left out

- pm2 and pmx (`pm2.connect`, `pm2.list`, `pm2.pullAndReload`, `pmx.initModule`, bluebird's `promisify`): foreign library calls, replaced by their answers (`ListResult`, `PullResult`, the interval).
- The bootstrap at app.js:93-96: its callback takes no error argument. It logs "connected" and calls `start()` even when `pm2.connect` failed. The model starts at the first `start` and does not model the connection.
- Timers and real time: `setTimeout` is modelled only by the delay it is given. Node's clamping of NaN or oversized delays to 1 ms is runtime behaviour and is not modelled.
- Scheduler.StartSchedules: the 1000 ms floor is proved for every interval except NaN, which `Math.max` returns unchanged, and the model keeps that.
- The interval is the value `conf.interval` takes after JavaScript's ToNumber conversion, which `Math.max` applies first; the conversion itself is not modelled. So a string such as `"60000"` stands here as `Finite(60000)`, `null` and `false` as `Finite(0)`, `true` as `Finite(1)`, and `undefined` or a non-numeric string as `NaN`.
- A pm2 call that never settles is not modelled: every `PullResult` and `ListResult` settles. In the source, a pull (app.js:39) or list call (app.js:68) that never settles stalls `check` for good: the pass never ends and no timer is armed. The scheduler rows therefore speak of completed runs.
- Scheduler.Start: the loop never ends in the source. The model covers the first `|lists|` runs, for any number of runs.
- Console and `debug` output: wording and format strings are I/O, including the missing `%s` argument at app.js:54. `notify`'s `console.info` is reduced to the `Notified` event.
- The message of a TypeError raised while reading the pull result: it is represented as `TypeError` without its text.
- Finite numbers are integers: a fractional interval is not modelled. The infinities and NaN are modelled.
- Shapes pm2 never produces are not modelled: a `null` or `undefined` list entry (the guard itself would throw; a primitive entry such as `5` has no `pm2_env` and is the `NoEnv` skip), a `meta.procs` that is not an array, and exceptions thrown by the console itself.
- `Option` stands for truthiness at app.js:27, 41 and 44, but at app.js:48-49 what matters is whether the value is `null` or `undefined`. A `versioning` in the pull metadata that is falsy but not nullish, such as `false`, would be read without an exception in the source. In the model it counts as missing and gives the TypeError outcome.
- Readiness probes (HTTP or message bus), probe ports and the reserved name prefix: they are described for the module but are not in `app.js`.
