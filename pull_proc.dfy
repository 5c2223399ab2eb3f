/**
 * Handling of one process in a pass: the eligibility guard, the readiness
 * notification, the pull-and-reload call and the classification of its result.
 */
module PullProc {
  import opened Wrappers
  import opened Pm2
  import opened Events

  /**
   * The guard as the code has it: a process is handled only when it has a
   * `pm2_env` and that `pm2_env` has NO `versioning`.
   */
  predicate Eligible(p: Proc)
    ensures Eligible(p) ==> !HasVersionControl(p)
    ensures p.env.None? ==> !Eligible(p)
  {
    !(p.env.None? || p.env.value.versioning.Some?)
  }

  /** What the doc comment and the module's purpose call a candidate: a process under version control. */
  predicate HasVersionControl(p: Proc) {
    p.env.Some? && p.env.value.versioning.Some?
  }

  /** Which half of the guard returned early. */
  function SkipReasonOf(p: Proc): SkipReason
    requires !Eligible(p)
  {
    if p.env.None? then NoEnv else HasVersioning
  }

  /**
   * The first listed process of the pull metadata carries `pm2_env.versioning`,
   * so that `meta.procs[0].pm2_env.versioning.repo_path` can be read without an exception.
   */
  predicate LeadReadable(meta: Meta) {
    |meta.procs| > 0 && meta.procs[0].env.Some? && meta.procs[0].env.value.versioning.Some?
  }

  /**
   * Evaluates `meta.procs[0].pm2_env.versioning` step by step; `None` when the
   * reads up to `.repo_path` throw: `procs[0]` is undefined (so `.pm2_env`
   * throws), `pm2_env` is missing (so `.versioning` throws), or `versioning`
   * is missing (so `.repo_path` throws).
   */
  function LeadVersioning(meta: Meta): (v: Option<Versioning>)
    ensures v.Some? <==> LeadReadable(meta)
  {
    if |meta.procs| == 0 then None
    else match meta.procs[0].env
      case None => None
      case Some(env) => env.versioning
  }

  /** The `try` block: await the pull, then read the result to build the log line. */
  function TryPull(r: PullResult): (res: Result<Outcome, Exception>)
    ensures res.Failure? <==>
      r.Rejected? || (r.meta.Some? && r.meta.value.rev.Some? && !LeadReadable(r.meta.value))
  {
    match r
    case Rejected(msg) => Failure(Rejection(msg))
    case Resolved(None) => Success(NoReport)
    case Resolved(Some(meta)) =>
      match meta.rev
      case None => Success(PulledLegacy)
      case Some(rev) =>
        match LeadVersioning(meta)
        case None => Failure(TypeError)
        case Some(v) => Success(Updated(rev.currentRevision, v.repoPath, v.branch))
  }

  /** The `try`/`catch` around the pull: every exception becomes "already at latest version". */
  function Classify(r: PullResult): (o: Outcome)
    ensures !o.Skipped?
    ensures r.Rejected? ==> o == AlreadyLatest(Rejection(r.message))
    ensures o == NoReport <==> r == Resolved(None)
    ensures o == PulledLegacy <==> r.Resolved? && r.meta.Some? && r.meta.value.rev.None?
    ensures o.Updated? <==>
      r.Resolved? && r.meta.Some? && r.meta.value.rev.Some? && LeadReadable(r.meta.value)
    ensures o.Updated? ==>
      && o.commit == r.meta.value.rev.value.currentRevision
      && o.repo == r.meta.value.procs[0].env.value.versioning.value.repoPath
      && o.branch == r.meta.value.procs[0].env.value.versioning.value.branch
    ensures o == AlreadyLatest(TypeError) <==>
      r.Resolved? && r.meta.Some? && r.meta.value.rev.Some? && !LeadReadable(r.meta.value)
  {
    match TryPull(r)
    case Success(o) => o
    case Failure(e) => AlreadyLatest(e)
  }

  /** What `pullProc(proc)` ends in when the pull would settle as `r`. */
  function HandleProc(p: Proc, r: PullResult): (o: Outcome)
    ensures o.Skipped? <==> p.env.None? || p.env.value.versioning.Some?
    ensures o.Skipped? ==> (o.reason == NoEnv <==> p.env.None?)
    ensures o.AlreadyLatest? ==> p.env.Some? && (r.Rejected? || r.meta.Some?)
  {
    if Eligible(p) then Classify(r) else Skipped(SkipReasonOf(p))
  }

  /**
   * The events of `pullProc(proc)`: an eligible process is notified, then
   * pulled; every process ends with its outcome.
   */
  function ProcTrace(p: Proc, r: PullResult): (t: seq<Event>)
    ensures |t| == (if p.env.Some? && p.env.value.versioning.None? then 3 else 1)
    ensures t[|t| - 1] == Handled(p.name, HandleProc(p, r))
    ensures forall j :: 0 <= j < |t| ==> ProcessEvent(t[j]) && t[j].name == p.name
  {
    (if Eligible(p) then [Notified(p.name), PullCalled(p.name)] else [])
    + [Handled(p.name, HandleProc(p, r))]
  }

  /**
   * A process without `pm2_env`, or whose `pm2_env.versioning` is set, is
   * skipped for that reason and never pulled.
   */
  lemma ProcSkipped(p: Proc, r: PullResult)
    requires p.env.None? || p.env.value.versioning.Some?
    ensures HandleProc(p, r) == Skipped(if p.env.None? then NoEnv else HasVersioning)
    ensures PullCalls(ProcTrace(p, r)) == []
    ensures ProcTrace(p, r) == [Handled(p.name, HandleProc(p, r))]
  {
  }

  /**
   * A process with `pm2_env` and no `versioning` is notified, then pulled
   * exactly once under its own name, and its outcome is the classified
   * pull result, never a skip.
   */
  lemma ProcPulled(p: Proc, r: PullResult)
    requires p.env.Some? && p.env.value.versioning.None?
    ensures PullCalls(ProcTrace(p, r)) == [p.name]
    ensures |ProcTrace(p, r)| == 3
    ensures ProcTrace(p, r)[0] == Notified(p.name) && ProcTrace(p, r)[1] == PullCalled(p.name)
    ensures ProcTrace(p, r)[2] == Handled(p.name, Classify(r))
    ensures !HandleProc(p, r).Skipped?
  {
    var t := ProcTrace(p, r);
    assert t[1..][1..] == [t[2]];
    assert t[1..][1..][1..] == [];
    assert PullCalls(t[1..][1..]) == [];
    assert PullCalls(t[1..]) == [p.name];
  }

  /**
   * The guard is the inverse of what the module is for: a process under
   * version control, the only kind pm2 can pull, is never pulled.
   */
  lemma InvertedGuard(p: Proc, r: PullResult)
    requires HasVersionControl(p)
    ensures !Eligible(p)
    ensures HandleProc(p, r) == Skipped(HasVersioning)
    ensures PullCalls(ProcTrace(p, r)) == []
  {
    ProcSkipped(p, r);
  }

  /** Each process contributes exactly one `Handled` event: its own outcome. */
  lemma ProcHandledOnce(p: Proc, r: PullResult)
    ensures Handlings(ProcTrace(p, r)) == [Handled(p.name, HandleProc(p, r))]
    ensures forall j :: 0 <= j < |ProcTrace(p, r)| ==> ProcessEvent(ProcTrace(p, r)[j])
  {
    var t := ProcTrace(p, r);
    if Eligible(p) {
      assert t[1..][1..] == [t[2]];
      assert t[1..][1..][1..] == [];
      assert Handlings(t[1..][1..]) == [t[2]];
      assert Handlings(t[1..]) == [t[2]];
    } else {
      assert t[1..] == [];
    }
  }
}
