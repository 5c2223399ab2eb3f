/**
 * One pass over the process list (`check`): list the processes, then handle
 * them one at a time in list order.
 */
module Cycle {
  import opened Wrappers
  import opened Pm2
  import opened Events
  import opened PullProc

  /**
   * The events of handling `procs` in order; `answer(i)` is how the pull of
   * the process at list position `i` settles.
   */
  function CycleTrace(procs: seq<Proc>, answer: nat -> PullResult): (t: seq<Event>)
    ensures |procs| <= |t| <= 3 * |procs|
    ensures procs != [] ==> t[|t| - 1] == Handled(procs[|procs| - 1].name, HandleProc(procs[|procs| - 1], answer(|procs| - 1)))
    decreases |procs|
  {
    if procs == [] then []
    else
      var n := |procs| - 1;
      CycleTrace(procs[..n], answer) + ProcTrace(procs[n], answer(n))
  }

  /** Reference definition: the names of the processes the guard lets through, in list order. */
  function EligibleNames(procs: seq<Proc>): seq<string> {
    if procs == [] then []
    else (if Eligible(procs[0]) then [procs[0].name] else []) + EligibleNames(procs[1..])
  }

  lemma {:induction false} EligibleNamesSnoc(s: seq<Proc>, x: Proc)
    ensures EligibleNames(s + [x]) == EligibleNames(s) + (if Eligible(x) then [x.name] else [])
  {
    if s == [] {
      assert [x][1..] == [];
      assert s + [x] == [x];
    } else {
      assert (s + [x])[1..] == s[1..] + [x];
      EligibleNamesSnoc(s[1..], x);
    }
  }

  /**
   * Exactly the processes with a `pm2_env` and no `versioning` are pulled,
   * each exactly once per occurrence in the list, under its own name and in
   * list order.
   */
  lemma {:induction false} CyclePullCalls(procs: seq<Proc>, answer: nat -> PullResult)
    ensures PullCalls(CycleTrace(procs, answer)) == EligibleNames(procs)
    decreases |procs|
  {
    if procs != [] {
      var n := |procs| - 1;
      CyclePullCalls(procs[..n], answer);
      PullCallsAppend(CycleTrace(procs[..n], answer), ProcTrace(procs[n], answer(n)));
      if Eligible(procs[n]) {
        ProcPulled(procs[n], answer(n));
      } else {
        ProcSkipped(procs[n], answer(n));
      }
      assert procs == procs[..n] + [procs[n]];
      EligibleNamesSnoc(procs[..n], procs[n]);
    }
  }

  /**
   * Every listed process, from the first to the last, is handled, in list
   * order, with the outcome its own pull result gives, whatever happened to
   * the processes before it.
   */
  lemma {:induction false} CycleHandledInOrder(procs: seq<Proc>, answer: nat -> PullResult)
    ensures |Handlings(CycleTrace(procs, answer))| == |procs|
    ensures forall i :: 0 <= i < |procs| ==>
      Handlings(CycleTrace(procs, answer))[i] == Handled(procs[i].name, HandleProc(procs[i], answer(i)))
    decreases |procs|
  {
    if procs != [] {
      var n := |procs| - 1;
      var before := CycleTrace(procs[..n], answer);
      CycleHandledInOrder(procs[..n], answer);
      HandlingsAppend(before, ProcTrace(procs[n], answer(n)));
      ProcHandledOnce(procs[n], answer(n));
      var h := Handlings(CycleTrace(procs, answer));
      assert h == Handlings(before) + [Handled(procs[n].name, HandleProc(procs[n], answer(n)))];
      forall i | 0 <= i < |procs|
        ensures h[i] == Handled(procs[i].name, HandleProc(procs[i], answer(i)))
      {
        if i < n {
          assert h[i] == Handlings(before)[i];
          assert procs[..n][i] == procs[i];
        }
      }
    }
  }

  /** A pass emits only per-process events: it neither lists nor schedules. */
  lemma {:induction false} CycleOnlyProcessEvents(procs: seq<Proc>, answer: nat -> PullResult)
    ensures forall j :: 0 <= j < |CycleTrace(procs, answer)| ==> ProcessEvent(CycleTrace(procs, answer)[j])
    decreases |procs|
  {
    if procs != [] {
      var n := |procs| - 1;
      CycleOnlyProcessEvents(procs[..n], answer);
      ProcHandledOnce(procs[n], answer(n));
    }
  }

  /**
   * The notification never holds a pull back: every `Notified` event is
   * immediately followed by the pull of the same process.
   */
  lemma {:induction false} CycleNotifyThenPull(procs: seq<Proc>, answer: nat -> PullResult)
    ensures forall j :: 0 <= j < |CycleTrace(procs, answer)| && CycleTrace(procs, answer)[j].Notified? ==>
      j + 1 < |CycleTrace(procs, answer)| &&
      CycleTrace(procs, answer)[j + 1] == PullCalled(CycleTrace(procs, answer)[j].name)
    decreases |procs|
  {
    if procs != [] {
      var n := |procs| - 1;
      var before := CycleTrace(procs[..n], answer);
      var seg := ProcTrace(procs[n], answer(n));
      CycleNotifyThenPull(procs[..n], answer);
      if Eligible(procs[n]) {
        ProcPulled(procs[n], answer(n));
      } else {
        ProcSkipped(procs[n], answer(n));
      }
      var t := before + seg;
      forall j | 0 <= j < |t| && t[j].Notified?
        ensures j + 1 < |t| && t[j + 1] == PullCalled(t[j].name)
      {
        if j < |before| {
          assert t[j] == before[j];
        } else {
          assert t[j] == seg[j - |before|];
        }
      }
    }
  }

  /**
   * No pull goes ahead without the notification: every `PullCalled` event of a
   * pass comes right after the `Notified` event of the same process.
   */
  lemma {:induction false} CyclePullAfterNotify(procs: seq<Proc>, answer: nat -> PullResult)
    ensures forall j :: 0 <= j < |CycleTrace(procs, answer)| && CycleTrace(procs, answer)[j].PullCalled? ==>
      0 < j && CycleTrace(procs, answer)[j - 1] == Notified(CycleTrace(procs, answer)[j].name)
    decreases |procs|
  {
    if procs != [] {
      var n := |procs| - 1;
      var before := CycleTrace(procs[..n], answer);
      var seg := ProcTrace(procs[n], answer(n));
      CyclePullAfterNotify(procs[..n], answer);
      if Eligible(procs[n]) {
        ProcPulled(procs[n], answer(n));
      } else {
        ProcSkipped(procs[n], answer(n));
      }
      var t := before + seg;
      forall j | 0 <= j < |t| && t[j].PullCalled?
        ensures 0 < j && t[j - 1] == Notified(t[j].name)
      {
        if j < |before| {
          assert t[j] == before[j];
          assert t[j - 1] == before[j - 1];
        } else {
          assert t[j] == seg[j - |before|];
          assert t[j - 1] == seg[j - 1 - |before|];
        }
      }
    }
  }

  /**
   * The pull of a process is awaited to its outcome before anything else
   * happens: every `PullCalled` event of a pass is immediately followed by the
   * `Handled` event of the same process.
   */
  lemma {:induction false} CyclePullThenOutcome(procs: seq<Proc>, answer: nat -> PullResult)
    ensures forall j :: 0 <= j < |CycleTrace(procs, answer)| && CycleTrace(procs, answer)[j].PullCalled? ==>
      j + 1 < |CycleTrace(procs, answer)| &&
      CycleTrace(procs, answer)[j + 1].Handled? &&
      CycleTrace(procs, answer)[j + 1].name == CycleTrace(procs, answer)[j].name
    decreases |procs|
  {
    if procs != [] {
      var n := |procs| - 1;
      var before := CycleTrace(procs[..n], answer);
      var seg := ProcTrace(procs[n], answer(n));
      CyclePullThenOutcome(procs[..n], answer);
      if Eligible(procs[n]) {
        ProcPulled(procs[n], answer(n));
      } else {
        ProcSkipped(procs[n], answer(n));
      }
      var t := before + seg;
      forall j | 0 <= j < |t| && t[j].PullCalled?
        ensures j + 1 < |t| && t[j + 1].Handled? && t[j + 1].name == t[j].name
      {
        if j < |before| {
          assert t[j] == before[j];
        } else {
          assert t[j] == seg[j - |before|];
        }
      }
    }
  }

  lemma {:induction false} NoEligibleNames(procs: seq<Proc>)
    requires forall i :: 0 <= i < |procs| ==> !Eligible(procs[i])
    ensures EligibleNames(procs) == []
  {
    if procs != [] {
      assert forall i :: 0 <= i < |procs[1..]| ==> procs[1..][i] == procs[i + 1];
      NoEligibleNames(procs[1..]);
    }
  }

  /**
   * The inverted guard over a whole pass: when every listed process is
   * under version control, nothing is pulled at all.
   */
  lemma VersionedFleetNeverPulled(procs: seq<Proc>, answer: nat -> PullResult)
    requires forall i :: 0 <= i < |procs| ==> HasVersionControl(procs[i])
    ensures PullCalls(CycleTrace(procs, answer)) == []
  {
    forall i | 0 <= i < |procs| ensures !Eligible(procs[i]) {
      InvertedGuard(procs[i], answer(i));
    }
    NoEligibleNames(procs);
    CyclePullCalls(procs, answer);
  }

  /**
   * `check`: request the list; when it fails, the error propagates before any
   * process is touched; otherwise handle the processes one by one in list order.
   */
  method Check(list: ListResult, answer: nat -> PullResult) returns (trace: seq<Event>, err: Option<string>)
    ensures err == (if list.ListFailed? then Some(list.message) else None)
    ensures list.ListFailed? ==> trace == [ListRequested]
    ensures list.Listed? ==> trace == [ListRequested] + CycleTrace(list.procs, answer)
  {
    match list {
      case ListFailed(msg) =>
        trace, err := [ListRequested], Some(msg);
      case Listed(procs) =>
        var handled := [];
        var i := 0;
        while i < |procs|
          invariant 0 <= i <= |procs|
          invariant handled == CycleTrace(procs[..i], answer)
        {
          assert procs[..i + 1][..i] == procs[..i];
          handled := handled + ProcTrace(procs[i], answer(i));
          i := i + 1;
        }
        assert procs[..i] == procs;
        trace, err := [ListRequested] + handled, None;
    }
  }
}
