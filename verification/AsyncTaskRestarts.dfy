/**
 What a starting instance does for tasks whose server died while it ran them: it puts back to pending what is stored
 as running, and without one such a task is never taken up again.
*/
module AsyncTaskRestarts {
  import opened Options
  import opened AsyncTaskProtocol
  import opened AsyncTaskReruns

  /** An instance that starts turns what is running to pending, leaves every other status alone, and touches neither
      locks nor workers nor handlers. */
  lemma StartTurnsRunningToPending(known: TaskId -> bool, s: State, t: TaskId)
    ensures Apply(known, s, InitInstance).Some?
    ensures var u := Apply(known, s, InitInstance).value;
      && (t in u.status <==> t in s.status)
      && (t in s.status && s.status[t].RUNNING? ==> u.status[t] == PENDING)
      && (t in s.status && !s.status[t].RUNNING? ==> u.status[t] == s.status[t])
      && u.locks == s.locks && u.workers == s.workers && u.handlers == s.handlers
  {
  }

  ghost predicate NoStart(steps: seq<Step>) {
    forall step :: step in steps ==> !step.InitInstance?
  }

  /** Some living worker of the task runs it, is about to, or waits to. */
  ghost predicate InReach(s: State, t: TaskId) {
    Awaited(s, t) || Runs(s, t)
  }

  /** A task that is not pending and that nobody can come to run. */
  ghost predicate OutOfReach(known: TaskId -> bool, s: State, t: TaskId) {
    && t in s.status && !s.status[t].PENDING?
    && forall w :: w in s.workers && s.workers[w].task == t ==>
         var phase := s.workers[w].phase;
         !phase.Locked? && !phase.Running? && (phase.Waiting? ==> !known(t))
  }

  lemma WorkKeepsOut(known: TaskId -> bool, s: State, step: Step, u: State, t: TaskId)
    requires OutOfReach(known, s, t) && IsWork(step) && Apply(known, s, step) == Some(u)
    ensures OutOfReach(known, u, t)
  {
  }

  lemma StepKeepsOut(known: TaskId -> bool, s: State, step: Step, u: State, t: TaskId)
    requires OutOfReach(known, s, t) && Apply(known, s, step) == Some(u) && !step.InitInstance?
    ensures OutOfReach(known, u, t)
  {
    if IsWork(step) {
      WorkKeepsOut(known, s, step, u, t);
    }
  }

  lemma {:induction false} RunKeepsOut(known: TaskId -> bool, steps: seq<Step>, more: seq<Step>, t: TaskId)
    requires After(known, steps).Some? && After(known, steps + more).Some? && NoStart(more)
    requires OutOfReach(known, After(known, steps).value, t)
    ensures OutOfReach(known, After(known, steps + more).value, t)
  {
    if more == [] {
      assert steps + more == steps;
    } else {
      var front, last := more[..|more| - 1], more[|more| - 1];
      assert (steps + more)[..|steps + more| - 1] == steps + front;
      RunKeepsOut(known, steps, front, t);
      StepKeepsOut(known, After(known, steps + front).value, last, After(known, steps + more).value, t);
    }
  }

  /** What runs has an implementation. */
  lemma RunsIsKnown(known: TaskId -> bool, steps: seq<Step>, t: TaskId)
    requires After(known, steps).Some? && Runs(After(known, steps).value, t)
    ensures known(t)
  {
    RunKeepsInvariant(known, steps);
    var s := After(known, steps).value;
    var w :| w in s.workers && s.workers[w].task == t && s.workers[w].phase.Running?;
    assert SlotConsistent(known, s.workers[w]);
  }

  /** A number above all that are taken. */
  lemma {:induction false} Above(taken: set<HandlerId>) returns (h: HandlerId)
    ensures h !in taken && forall k :: k in taken ==> k < h
    decreases taken
  {
    h := 0;
    if taken != {} {
      var k :| k in taken;
      var rest := Above(taken - {k});
      h := if rest > k then rest else k + 1;
      assert forall x :: x in taken ==> x == k || x in taken - {k};
    }
  }

  /** A handler that finds the task pending has a worker waiting for it. */
  lemma PendingCanRun(known: TaskId -> bool, steps: seq<Step>, s: State, t: TaskId) returns (longer: seq<Step>)
    requires After(known, steps) == Some(s) && t in s.status && s.status[t].PENDING? && known(t)
    ensures Onward(steps, longer) && After(known, longer).Some? && Runs(After(known, longer).value, t)
  {
    var h := Above(s.handlers.Keys);
    var u := Apply(known, s, NewHandler(h, [t])).value;
    longer := Snoc(known, steps, s, NewHandler(h, [t]), u);
    assert Worker(h, 0) in u.workers && u.workers[Worker(h, 0)] == Slot(t, Waiting, []);
    RunKeepsInvariant(known, longer);
    longer := AwaitedCanRun(known, longer, u, t);
  }

  /** From any reachable state and without an instance starting, what is stored can come to run if and only if it has
      an implementation, and is pending or some living worker runs it, is about to, or waits to. */
  lemma RunsWithoutStartExactlyWhen(known: TaskId -> bool, steps: seq<Step>, t: TaskId)
    requires After(known, steps).Some? && t in After(known, steps).value.status
    ensures var s := After(known, steps).value;
      (exists more :: NoStart(more) && After(known, steps + more).Some? && Runs(After(known, steps + more).value, t))
      <==> known(t) && (s.status[t].PENDING? || InReach(s, t))
  {
    var s := After(known, steps).value;
    RunKeepsInvariant(known, steps);
    if known(t) && (s.status[t].PENDING? || InReach(s, t)) {
      var longer := steps;
      if Awaited(s, t) {
        longer := AwaitedCanRun(known, steps, s, t);
      } else if !Runs(s, t) {
        longer := PendingCanRun(known, steps, s, t);
      }
      assert longer == steps + longer[|steps|..] && NoStart(longer[|steps|..]);
    } else {
      forall more | NoStart(more) && After(known, steps + more).Some? && Runs(After(known, steps + more).value, t)
        ensures false
      {
        RunsIsKnown(known, steps + more, t);
        RunKeepsOut(known, steps, more, t);
      }
    }
  }

  /** So what is stored as running when the worker that ran it has died is stuck until an instance starts; and with
      one it can always come to run, if it has an implementation. */
  lemma OrphanRunsExactlyWhenKnown(known: TaskId -> bool, steps: seq<Step>, t: TaskId)
    requires After(known, steps).Some? && t in After(known, steps).value.status
    requires After(known, steps).value.status[t].RUNNING?
    ensures (exists more :: After(known, steps + more).Some? && Runs(After(known, steps + more).value, t)) <==> known(t)
    ensures !InReach(After(known, steps).value, t) ==>
      !exists more :: NoStart(more) && After(known, steps + more).Some? && Runs(After(known, steps + more).value, t)
  {
    var s := After(known, steps).value;
    RunsWithoutStartExactlyWhen(known, steps, t);
    if known(t) {
      var u := Apply(known, s, InitInstance).value;
      var longer := Snoc(known, steps, s, InitInstance, u);
      longer := PendingCanRun(known, longer, u, t);
      assert longer == steps + longer[|steps|..];
    } else {
      forall more | After(known, steps + more).Some? && Runs(After(known, steps + more).value, t) ensures false {
        RunsIsKnown(known, steps + more, t);
      }
    }
  }
}
