/** What handling a process can end in, and the ordered trace of calls and outcomes. */
module Events {
  import opened Wrappers
  import opened Pm2

  /** Which half of the eligibility guard turned a process away. */
  datatype SkipReason = NoEnv | HasVersioning

  /** What the `try` block around the pull can throw. */
  datatype Exception =
    | Rejection(message: string)  // the pull promise was rejected
    | TypeError                   // a property of `undefined` was read while inspecting the result

  /** The result of handling one process. */
  datatype Outcome =
    | Skipped(reason: SkipReason)
    | Updated(commit: Option<string>, repo: Option<string>, branch: Option<string>)
    | PulledLegacy                // resolved metadata without a revision descriptor
    | NoReport                    // resolved with falsy metadata: nothing is logged
    | AlreadyLatest(cause: Exception)

  /** One observable step of the module. */
  datatype Event =
    | ListRequested               // `pm2List()` is called
    | Notified(name: string)      // `notify(proc)` is called
    | PullCalled(name: string)    // `pm2PullReload(proc.name)` is called
    | Handled(name: string, outcome: Outcome)
    | CheckFailed(message: string)  // `start` caught an error thrown by `check`
    | Scheduled(delay: JsNumber)  // `setTimeout(start, delay)` is called

  /** Events that only the handling of a single process emits. */
  predicate ProcessEvent(e: Event) {
    e.Notified? || e.PullCalled? || e.Handled?
  }

  /** The names passed to pull-and-reload, in call order. */
  function PullCalls(t: seq<Event>): seq<string> {
    if t == [] then []
    else (if t[0].PullCalled? then [t[0].name] else []) + PullCalls(t[1..])
  }

  /** The `Handled` events of a trace, in order. */
  function Handlings(t: seq<Event>): seq<Event> {
    if t == [] then []
    else (if t[0].Handled? then [t[0]] else []) + Handlings(t[1..])
  }

  lemma {:induction false} PullCallsAppend(a: seq<Event>, b: seq<Event>)
    ensures PullCalls(a + b) == PullCalls(a) + PullCalls(b)
  {
    if a != [] {
      assert (a + b)[1..] == a[1..] + b;
      PullCallsAppend(a[1..], b);
    } else {
      assert a + b == b;
    }
  }

  lemma {:induction false} HandlingsAppend(a: seq<Event>, b: seq<Event>)
    ensures Handlings(a + b) == Handlings(a) + Handlings(b)
  {
    if a != [] {
      assert (a + b)[1..] == a[1..] + b;
      HandlingsAppend(a[1..], b);
    } else {
      assert a + b == b;
    }
  }
}
