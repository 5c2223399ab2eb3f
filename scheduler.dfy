/**
 * The self-rescheduling loop (`start`): run a pass, log a pass-level error,
 * then arm the timer for the next pass.
 */
module Scheduler {
  import opened Wrappers
  import opened Pm2
  import opened Events
  import opened PullProc
  import opened Cycle

  /** A delay of at least 1000 ms: a whole number no smaller than 1000, or +Infinity. */
  predicate AtLeastFloor(d: JsNumber) {
    d.PlusInfinity? || (d.Finite? && d.ms >= 1000)
  }

  /** `Math.max(interval, 1000)`: NaN when the interval is NaN, otherwise the larger of the two. */
  function NextDelay(interval: JsNumber): (d: JsNumber)
    ensures d.NaN? <==> interval.NaN?
    ensures !interval.NaN? ==> AtLeastFloor(d)
    ensures interval.Finite? ==>
      d.Finite? && d.ms >= interval.ms && (d.ms == 1000 || d.ms == interval.ms)
    ensures interval.PlusInfinity? ==> d.PlusInfinity?
    ensures interval.MinusInfinity? ==> d == Finite(1000)
  {
    match interval
    case NaN => NaN
    case PlusInfinity => PlusInfinity
    case MinusInfinity => Finite(1000)
    case Finite(ms) => Finite(if ms < 1000 then 1000 else ms)
  }

  /** One run of `start`: the pass, the caught error if the list call failed, the timer. */
  function TickTrace(interval: JsNumber, list: ListResult, answer: nat -> PullResult): (t: seq<Event>)
    ensures |t| >= 2
    ensures t[0] == ListRequested && t[|t| - 1] == Scheduled(NextDelay(interval))
    ensures list.ListFailed? ==> t == [ListRequested, CheckFailed(list.message), Scheduled(NextDelay(interval))]
  {
    [ListRequested]
    + (match list
       case ListFailed(msg) => [CheckFailed(msg)]
       case Listed(procs) => CycleTrace(procs, answer))
    + [Scheduled(NextDelay(interval))]
  }

  /**
   * The first `|lists|` runs of `start`: the `k`-th pass lists `lists[k]` and
   * its pulls settle as `answers(k)`.
   */
  function StartTrace(interval: JsNumber, lists: seq<ListResult>, answers: nat -> nat -> PullResult): (t: seq<Event>)
    ensures |t| >= 2 * |lists|
    ensures lists != [] ==> t[|t| - 1] == Scheduled(NextDelay(interval))
    decreases |lists|
  {
    if lists == [] then []
    else
      var n := |lists| - 1;
      StartTrace(interval, lists[..n], answers) + TickTrace(interval, lists[n], answers(n))
  }

  /** The scheduler's only state: between passes, or inside one. */
  datatype Phase = Idle | Running

  /** Which events are allowed in which phase; `None` for an event out of place. */
  function Step(ph: Phase, e: Event): Option<Phase> {
    match ph
    case Idle => if e.ListRequested? then Some(Running) else None
    case Running =>
      if e.ListRequested? then None
      else if e.Scheduled? then Some(Idle)
      else Some(Running)
  }

  /** Runs a trace through `Step`; `None` when some event comes in the wrong phase. */
  function Replay(ph: Phase, t: seq<Event>): Option<Phase>
    decreases |t|
  {
    if t == [] then Some(ph)
    else match Step(ph, t[0])
      case None => None
      case Some(q) => Replay(q, t[1..])
  }

  lemma {:induction false} ReplayAppend(ph: Phase, a: seq<Event>, b: seq<Event>)
    ensures Replay(ph, a + b) == (match Replay(ph, a) case None => None case Some(q) => Replay(q, b))
    decreases |a|
  {
    if a == [] {
      assert a + b == b;
    } else {
      assert (a + b)[1..] == a[1..] + b;
      match Step(ph, a[0]) {
        case None =>
        case Some(q) => ReplayAppend(q, a[1..], b);
      }
    }
  }

  lemma {:induction false} ReplayInsidePass(t: seq<Event>)
    requires forall j :: 0 <= j < |t| ==> ProcessEvent(t[j])
    ensures Replay(Running, t) == Some(Running)
  {
    if t != [] {
      assert forall j :: 0 <= j < |t[1..]| ==> t[1..][j] == t[j + 1];
      ReplayInsidePass(t[1..]);
    }
  }

  /** One run of `start` goes from idle, through one pass, back to idle. */
  lemma TickAlternates(interval: JsNumber, list: ListResult, answer: nat -> PullResult)
    ensures Replay(Idle, TickTrace(interval, list, answer)) == Some(Idle)
  {
    var mid := match list
      case ListFailed(msg) => [CheckFailed(msg)]
      case Listed(procs) => CycleTrace(procs, answer);
    if list.Listed? {
      CycleOnlyProcessEvents(list.procs, answer);
      ReplayInsidePass(mid);
    } else {
      assert Replay(Running, mid) == Some(Running);
    }
    var last := [Scheduled(NextDelay(interval))];
    assert TickTrace(interval, list, answer) == [ListRequested] + (mid + last);
    ReplayAppend(Idle, [ListRequested], mid + last);
    ReplayAppend(Running, mid, last);
  }

  /**
   * Passes never overlap: the whole run is accepted by the two-state machine,
   * so a new pass starts only after the previous one armed its timer.
   */
  lemma {:induction false} StartAlternates(interval: JsNumber, lists: seq<ListResult>, answers: nat -> nat -> PullResult)
    ensures Replay(Idle, StartTrace(interval, lists, answers)) == Some(Idle)
    decreases |lists|
  {
    if lists != [] {
      var n := |lists| - 1;
      StartAlternates(interval, lists[..n], answers);
      TickAlternates(interval, lists[n], answers(n));
      ReplayAppend(Idle, StartTrace(interval, lists[..n], answers), TickTrace(interval, lists[n], answers(n)));
    }
  }

  /** The delays passed to the timer, in order. */
  function Schedules(t: seq<Event>): seq<JsNumber> {
    if t == [] then []
    else (if t[0].Scheduled? then [t[0].delay] else []) + Schedules(t[1..])
  }

  lemma {:induction false} SchedulesAppend(a: seq<Event>, b: seq<Event>)
    ensures Schedules(a + b) == Schedules(a) + Schedules(b)
  {
    if a != [] {
      assert (a + b)[1..] == a[1..] + b;
      SchedulesAppend(a[1..], b);
    } else {
      assert a + b == b;
    }
  }

  lemma {:induction false} NoSchedulesInsidePass(t: seq<Event>)
    requires forall j :: 0 <= j < |t| ==> ProcessEvent(t[j])
    ensures Schedules(t) == []
  {
    if t != [] {
      assert forall j :: 0 <= j < |t[1..]| ==> t[1..][j] == t[j + 1];
      NoSchedulesInsidePass(t[1..]);
    }
  }

  /**
   * Every run of `start` that completes, including one whose list call
   * failed, arms the timer exactly once, as its last step.
   */
  lemma TickSchedulesOnce(interval: JsNumber, list: ListResult, answer: nat -> PullResult)
    ensures Schedules(TickTrace(interval, list, answer)) == [NextDelay(interval)]
    ensures TickTrace(interval, list, answer)[|TickTrace(interval, list, answer)| - 1] == Scheduled(NextDelay(interval))
  {
    var mid := match list
      case ListFailed(msg) => [CheckFailed(msg)]
      case Listed(procs) => CycleTrace(procs, answer);
    if list.Listed? {
      CycleOnlyProcessEvents(list.procs, answer);
      NoSchedulesInsidePass(mid);
    } else {
      assert Schedules(mid) == [];
    }
    var last := [Scheduled(NextDelay(interval))];
    assert TickTrace(interval, list, answer) == [ListRequested] + (mid + last);
    SchedulesAppend([ListRequested], mid + last);
    SchedulesAppend(mid, last);
  }

  /**
   * One timer per pass, whatever the passes met, and every delay is
   * `Math.max(interval, 1000)`, hence never below 1000 ms for a numeric interval.
   */
  lemma {:induction false} StartSchedules(interval: JsNumber, lists: seq<ListResult>, answers: nat -> nat -> PullResult)
    ensures |Schedules(StartTrace(interval, lists, answers))| == |lists|
    ensures forall j :: 0 <= j < |lists| ==> Schedules(StartTrace(interval, lists, answers))[j] == NextDelay(interval)
    ensures !interval.NaN? ==>
      forall j :: 0 <= j < |lists| ==> AtLeastFloor(Schedules(StartTrace(interval, lists, answers))[j])
    decreases |lists|
  {
    if lists != [] {
      var n := |lists| - 1;
      var before := StartTrace(interval, lists[..n], answers);
      StartSchedules(interval, lists[..n], answers);
      TickSchedulesOnce(interval, lists[n], answers(n));
      SchedulesAppend(before, TickTrace(interval, lists[n], answers(n)));
      var s := Schedules(StartTrace(interval, lists, answers));
      assert s == Schedules(before) + [NextDelay(interval)];
      forall j | 0 <= j < |lists| ensures s[j] == NextDelay(interval) {
        if j < n {
          assert s[j] == Schedules(before)[j];
        }
      }
    }
  }

  /**
   * One run of `start`: await the pass, catch and log the error it throws,
   * then arm the timer.
   */
  method RunOnce(interval: JsNumber, list: ListResult, answer: nat -> PullResult) returns (tick: seq<Event>)
    ensures tick == TickTrace(interval, list, answer)
  {
    var pass, err := Check(list, answer);
    match err {
      case Some(msg) =>
        tick := pass + [CheckFailed(msg)];
      case None =>
        tick := pass;
    }
    tick := tick + [Scheduled(NextDelay(interval))];
  }

  /**
   * `start`, run for `|lists|` passes: each pass is awaited to the end, a
   * failure it throws is caught and logged, and only then is the next pass
   * scheduled.
   */
  method Start(interval: JsNumber, lists: seq<ListResult>, answers: nat -> nat -> PullResult)
    returns (trace: seq<Event>)
    ensures trace == StartTrace(interval, lists, answers)
    ensures Replay(Idle, trace) == Some(Idle)
    ensures |Schedules(trace)| == |lists|
    ensures forall j :: 0 <= j < |lists| ==> Schedules(trace)[j] == NextDelay(interval)
  {
    trace := [];
    var k := 0;
    while k < |lists|
      invariant 0 <= k <= |lists|
      invariant trace == StartTrace(interval, lists[..k], answers)
    {
      assert lists[..k + 1][..k] == lists[..k];
      var tick := RunOnce(interval, lists[k], answers(k));
      trace := trace + tick;
      k := k + 1;
    }
    assert lists[..k] == lists;
    assert Replay(Idle, trace) == Some(Idle) by {
      StartAlternates(interval, lists, answers);
    }
    assert |Schedules(trace)| == |lists| && forall j :: 0 <= j < |lists| ==> Schedules(trace)[j] == NextDelay(interval) by {
      StartSchedules(interval, lists, answers);
    }
  }
}
