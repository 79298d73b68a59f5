// serve ends once its input has: what is left can always be finished, received and written.

module SchedulerProgress {
  import opened Scheduler
  import opened SchedulerSafety
  import opened ServeStates

  ghost predicate IsPath(p: seq<System>) {
    |p| > 0 && forall i :: 0 <= i < |p| - 1 ==> Next(p[i], p[i + 1])
  }

  // Steps until every goroutine is done and every result received.
  function Left(s: System): nat {
    2 * |s.workers| + |s.results| + 2 * s.cancelWorkers + s.cancelResults
  }

  // The next step towards the end.
  ghost function Drain(s: System): Action {
    if s.results != [] then TakeResult(true)
    else if s.workers != {} then
      var t :| t in s.workers;
      FinishWorker(t, Lost)
    else if s.cancelResults > 0 then TakeCancelResult
    else if s.cancelWorkers > 0 then FinishCancelForward
    else ReturnDrained
  }

  lemma DrainStep(s: System)
    requires Inv(s) && s.status.Running? && s.eof
    ensures Enabled(s, Drain(s))
    ensures var t := Apply(s, Drain(s));
            if Left(s) == 0 then t.status.ReturnedNil? else t.status.Running? && t.eof && Left(t) < Left(s)
  {
    hide OriginsOk, AnswersOk, IdsOk, Forwarded;
    if s.results != [] {
      TakeLeaves(s);
      hide Take;
    }
  }

  lemma TakeLeaves(s: System)
    requires s.results != [] && s.status.Running?
    ensures var t := Take(s, true);
            && t.status.Running? && t.eof == s.eof && t.results == s.results[1..] && t.workers == s.workers
            && t.cancelWorkers == s.cancelWorkers && t.cancelResults == s.cancelResults
  {
  }

  lemma {:induction false} PathToReturn(s: System) returns (p: seq<System>)
    requires Inv(s) && s.status.Running? && s.eof
    ensures IsPath(p) && |p| > 0 && p[0] == s && p[|p| - 1].status.ReturnedNil? && |p| <= Left(s) + 2
    decreases Left(s)
  {
    DrainStep(s);
    hide *;
    var t := Apply(s, Drain(s));
    IsNext(s, Drain(s));
    if Left(s) == 0 {
      OneState(t);
      PathCons(s, [t]);
      p := [s] + [t];
    } else {
      ActionKeepsInv(s, Drain(s));
      var rest := PathToReturn(t);
      PathCons(s, rest);
      p := [s] + rest;
    }
  }

  lemma IsNext(s: System, a: Action)
    requires Enabled(s, a)
    ensures Next(s, Apply(s, a))
  {
  }

  lemma OneState(s: System)
    ensures IsPath([s])
  {
  }

  lemma PathCons(s: System, rest: seq<System>)
    requires |rest| > 0 && IsPath(rest) && Next(s, rest[0])
    ensures IsPath([s] + rest)
  {
    hide Next;
    var p := [s] + rest;
    forall i | 0 <= i < |p| - 1 ensures Next(p[i], p[i + 1]) {
      if i > 0 {
        assert p[i] == rest[i - 1] && p[i + 1] == rest[i];
      }
    }
  }

  // Reading the last frame ends the input; from every state after it serve can return nil in a bounded number
  // of steps, and until it returns there is always a step towards that.
  lemma ServeCanReturn(s: System) returns (p: seq<System>)
    requires Reachable(s) && s.status.Running? && s.eof
    ensures IsPath(p) && p[0] == s && p[|p| - 1].status.ReturnedNil? && |p| <= 34
  {
    ReachableInv(s);
    p := PathToReturn(s);
  }

  lemma LastFrameEndsInput(s: System, frame: Frame, written: bool)
    requires Reachable(s) && Enabled(s, ReadFrame(frame, true, written))
    ensures Apply(s, ReadFrame(frame, true, written)).eof
  {
  }

  // At the start any frame can be read.
  lemma StartReads(frame: Frame, last: bool)
    ensures Reachable(START) && Enabled(START, ReadFrame(frame, last, true))
  {
    assert IsRun([START]) && [START][|[START]| - 1] == START;
  }
}
