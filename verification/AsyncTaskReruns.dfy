/**
 When a task that has been brought to an outcome can run again. The status is looked at when a handler reads
 its snapshot, and not again under the lock.
*/
module AsyncTaskReruns {
  import opened Options
  import opened AsyncTaskProtocol

  predicate Concluded(s: State, t: TaskId) {
    t in s.status && (s.status[t].SUCCESS? || s.status[t].ERROR?)
  }

  ghost predicate Runs(s: State, t: TaskId) {
    exists w :: w in s.workers && s.workers[w].task == t && s.workers[w].phase.Running?
  }

  /** A worker of the task lives that has not got as far as running it. */
  ghost predicate Awaited(s: State, t: TaskId) {
    exists w :: w in s.workers && s.workers[w].task == t && (s.workers[w].phase.Waiting? || s.workers[w].phase.Locked?)
  }

  /** No worker of the task runs it or can still come to. */
  ghost predicate Settled(known: TaskId -> bool, s: State, t: TaskId) {
    && Concluded(s, t)
    && forall w :: w in s.workers && s.workers[w].task == t ==>
         var phase := s.workers[w].phase;
         !phase.Locked? && !phase.Running? && !phase.Ran? && (phase.Waiting? ==> !known(t))
  }

  lemma WorkKeepsSettled(known: TaskId -> bool, s: State, step: Step, u: State, t: TaskId)
    requires Settled(known, s, t) && IsWork(step) && Apply(known, s, step) == Some(u)
    ensures Settled(known, u, t)
  {
  }

  lemma StepKeepsSettled(known: TaskId -> bool, s: State, step: Step, u: State, t: TaskId)
    requires Settled(known, s, t) && Apply(known, s, step) == Some(u)
    ensures Settled(known, u, t)
  {
    if IsWork(step) {
      WorkKeepsSettled(known, s, step, u, t);
    }
  }

  lemma {:induction false} RunKeepsSettled(known: TaskId -> bool, steps: seq<Step>, more: seq<Step>, t: TaskId)
    requires After(known, steps).Some? && After(known, steps + more).Some?
    requires Settled(known, After(known, steps).value, t)
    ensures Settled(known, After(known, steps + more).value, t)
  {
    if more == [] {
      assert steps + more == steps;
    } else {
      var front, last := more[..|more| - 1], more[|more| - 1];
      assert (steps + more)[..|steps + more| - 1] == steps + front;
      RunKeepsSettled(known, steps, front, t);
      StepKeepsSettled(known, After(known, steps + front).value, last, After(known, steps + more).value, t);
    }
  }

  /** In a reachable state nobody runs a concluded task, or is about to save its outcome. */
  lemma ConcludedIsNotRun(known: TaskId -> bool, steps: seq<Step>, t: TaskId, w: Worker)
    requires After(known, steps).Some? && Concluded(After(known, steps).value, t)
    requires w in After(known, steps).value.workers && After(known, steps).value.workers[w].task == t
    ensures var phase := After(known, steps).value.workers[w].phase;
      !phase.Running? && !phase.Ran? && (phase.Locked? ==> known(t))
  {
    RunKeepsInvariant(known, steps);
    var s := After(known, steps).value;
    assert SlotConsistent(known, s.workers[w]) && StatusMatch(s, w);
  }

  /** Without a worker awaiting it, or without an implementation, a concluded task is settled. */
  lemma ConcludedIsSettled(known: TaskId -> bool, steps: seq<Step>, t: TaskId)
    requires After(known, steps).Some? && Concluded(After(known, steps).value, t)
    requires !known(t) || !Awaited(After(known, steps).value, t)
    ensures Settled(known, After(known, steps).value, t)
  {
    var s := After(known, steps).value;
    forall w | w in s.workers && s.workers[w].task == t
      ensures var phase := s.workers[w].phase;
        !phase.Locked? && !phase.Running? && !phase.Ran? && (phase.Waiting? ==> !known(t))
    {
      ConcludedIsNotRun(known, steps, t, w);
    }
  }

  /** A longer history, with no instance starting in what it adds. */
  ghost predicate Onward(steps: seq<Step>, longer: seq<Step>) {
    steps <= longer && forall i :: |steps| <= i < |longer| ==> !longer[i].InitInstance?
  }

  /** The worker that has the lock of a task can start to run it. */
  lemma LockedCanRun(known: TaskId -> bool, steps: seq<Step>, s: State, w: Worker) returns (longer: seq<Step>)
    requires After(known, steps) == Some(s) && w in s.workers && s.workers[w].phase.Locked?
    ensures Onward(steps, longer) && After(known, longer).Some?
    ensures Runs(After(known, longer).value, s.workers[w].task)
  {
    var u := Apply(known, s, SaveRunning(w)).value;
    longer := Snoc(known, steps, s, SaveRunning(w), u);
    assert w in u.workers && u.workers[w].phase.Running?;
  }

  /** So can a waiting one, if the lock is free. */
  lemma WaitingCanRun(known: TaskId -> bool, steps: seq<Step>, s: State, w: Worker) returns (longer: seq<Step>)
    requires After(known, steps) == Some(s) && w in s.workers && s.workers[w].phase.Waiting?
    requires known(s.workers[w].task) && s.workers[w].task !in s.locks
    ensures Onward(steps, longer) && After(known, longer).Some?
    ensures Runs(After(known, longer).value, s.workers[w].task)
  {
    var v := Apply(known, s, Start(w)).value;
    longer := Snoc(known, steps, s, Start(w), v);
    longer := LockedCanRun(known, longer, v, w);
  }

  lemma WaitingCanRunAfterReclaim(known: TaskId -> bool, steps: seq<Step>, s: State, w: Worker)
    returns (longer: seq<Step>)
    requires After(known, steps) == Some(s) && w in s.workers && s.workers[w].phase.Waiting?
    requires var t := s.workers[w].task; known(t) && t in s.locks && s.locks[t] !in s.workers
    ensures Onward(steps, longer) && After(known, longer).Some?
    ensures Runs(After(known, longer).value, s.workers[w].task)
  {
    var t := s.workers[w].task;
    var u := s.(locks := s.locks - {t});
    longer := Snoc(known, steps, s, ReclaimLock(t), u);
    longer := WaitingCanRun(known, longer, u, w);
  }

  lemma WaitingCanRunAfterRelease(known: TaskId -> bool, steps: seq<Step>, s: State, w: Worker)
    returns (longer: seq<Step>)
    requires After(known, steps) == Some(s) && w in s.workers && s.workers[w].phase.Waiting?
    requires var t := s.workers[w].task; known(t) && t in s.locks && s.locks[t] in s.workers
    requires var t := s.workers[w].task; s.workers[s.locks[t]].task == t && s.workers[s.locks[t]].phase.Ended?
    ensures Onward(steps, longer) && After(known, longer).Some?
    ensures Runs(After(known, longer).value, s.workers[w].task)
  {
    var v := s.locks[s.workers[w].task];
    var u := Apply(known, s, ReleaseLock(v)).value;
    longer := Snoc(known, steps, s, ReleaseLock(v), u);
    longer := WaitingCanRun(known, longer, u, w);
  }

  lemma WaitingCanRunAfterSave(known: TaskId -> bool, steps: seq<Step>, s: State, w: Worker)
    returns (longer: seq<Step>)
    requires After(known, steps) == Some(s) && w in s.workers && s.workers[w].phase.Waiting?
    requires var t := s.workers[w].task; known(t) && t in s.locks && s.locks[t] in s.workers
    requires var t := s.workers[w].task; s.workers[s.locks[t]].task == t && s.workers[s.locks[t]].phase.Ran?
    requires s.locks[s.workers[w].task].h in s.handlers
    ensures Onward(steps, longer) && After(known, longer).Some?
    ensures Runs(After(known, longer).value, s.workers[w].task)
  {
    var v := s.locks[s.workers[w].task];
    var u := Apply(known, s, SaveResult(v)).value;
    longer := Snoc(known, steps, s, SaveResult(v), u);
    longer := WaitingCanRunAfterRelease(known, longer, u, w);
  }

  /** Whoever waits for the lock of a task that has an implementation, or has just got it, can come to run it. */
  lemma AwaitedCanRun(known: TaskId -> bool, steps: seq<Step>, s: State, t: TaskId) returns (longer: seq<Step>)
    requires After(known, steps) == Some(s) && Invariant(known, s) && known(t) && Awaited(s, t)
    ensures Onward(steps, longer) && After(known, longer).Some? && Runs(After(known, longer).value, t)
  {
    var w :| w in s.workers && s.workers[w].task == t && (s.workers[w].phase.Waiting? || s.workers[w].phase.Locked?);
    if s.workers[w].phase.Locked? {
      longer := LockedCanRun(known, steps, s, w);
    } else if t !in s.locks {
      longer := WaitingCanRun(known, steps, s, w);
    } else if s.locks[t] !in s.workers {
      longer := WaitingCanRunAfterReclaim(known, steps, s, w);
    } else {
      match s.workers[s.locks[t]].phase {
        case Locked => longer := LockedCanRun(known, steps, s, s.locks[t]);
        case Running => longer := steps;
        case Ran(_) => longer := WaitingCanRunAfterSave(known, steps, s, w);
        case _ => longer := WaitingCanRunAfterRelease(known, steps, s, w);
      }
    }
  }

  /** From any reachable state, a task that is stored as a success or an error can come to run again if and only
      if it has an implementation and some worker from an older snapshot is still waiting for its lock, or has
      just got it. */
  lemma RunsAgainExactlyWhenAwaited(known: TaskId -> bool, steps: seq<Step>, t: TaskId)
    requires After(known, steps).Some? && Concluded(After(known, steps).value, t)
    ensures (exists more :: After(known, steps + more).Some? && Runs(After(known, steps + more).value, t))
      <==> known(t) && Awaited(After(known, steps).value, t)
  {
    if known(t) && Awaited(After(known, steps).value, t) {
      RunKeepsInvariant(known, steps);
      var longer := AwaitedCanRun(known, steps, After(known, steps).value, t);
      assert longer == steps + longer[|steps|..];
    } else {
      ConcludedIsSettled(known, steps, t);
      forall more | After(known, steps + more).Some? && Runs(After(known, steps + more).value, t) ensures false {
        RunKeepsSettled(known, steps, more, t);
      }
    }
  }

  /** A run in which this happens: a worker that waited with an old snapshot locks and runs, from start to end, a
      task that another handler has already brought to success. */
  lemma StaleSnapshotRunsAgain(known: TaskId -> bool) returns (steps: seq<Step>)
    requires known(0)
    ensures After(known, steps).Some?
    ensures var s := After(known, steps).value; var first, second := Worker(0, 0), Worker(1, 0);
      && first in s.workers && s.workers[first] == Slot(0, Finished(true), [RUNNING, SUCCESS])
      && second in s.workers && s.workers[second] == Slot(0, Finished(true), [RUNNING, SUCCESS])
  {
    var u;
    steps, u := TwoSnapshots(known);
    steps, u := RunThrough(known, steps, u, Worker(0, 0));
    steps, u := RunThrough(known, steps, u, Worker(1, 0));
  }

  /** Two handlers read the same pending task. */
  lemma TwoSnapshots(known: TaskId -> bool) returns (steps: seq<Step>, u: State)
    ensures After(known, steps) == Some(u) && u.locks == map[] && 0 in u.handlers && 1 in u.handlers
    ensures forall h :: h == 0 || h == 1 ==>
      Worker(h, 0) in u.workers && u.workers[Worker(h, 0)] == Slot(0, Waiting, [])
  {
    var s := INIT.(status := map[0 := PENDING]);
    steps := Snoc(known, [], INIT, AddTask(0), s);
    var t := Apply(known, s, NewHandler(0, [0])).value;
    steps := Snoc(known, steps, s, NewHandler(0, [0]), t);
    u := Apply(known, t, NewHandler(1, [0])).value;
    steps := Snoc(known, steps, t, NewHandler(1, [0]), u);
  }

  /** A waiting worker whose task is not locked can take it from lock to release, whatever its status is. */
  lemma RunThrough(known: TaskId -> bool, steps: seq<Step>, s: State, w: Worker) returns (longer: seq<Step>, t: State)
    requires After(known, steps) == Some(s) && w in s.workers && w.h in s.handlers
    requires s.workers[w].phase.Waiting? && s.workers[w].writes == []
    requires known(s.workers[w].task) && s.workers[w].task !in s.locks
    ensures After(known, longer) == Some(t)
    ensures t.workers == s.workers[w := Slot(s.workers[w].task, Finished(true), [RUNNING, SUCCESS])]
    ensures t.locks == s.locks && t.handlers.Keys == s.handlers.Keys
  {
    var u;
    longer, u := LockAndRun(known, steps, s, w);
    longer, t := SaveAndRelease(known, longer, u, w);
    assert t.locks == s.locks;
  }

  lemma SaveAndRelease(known: TaskId -> bool, steps: seq<Step>, s: State, w: Worker)
    returns (longer: seq<Step>, t: State)
    requires After(known, steps) == Some(s) && w in s.workers && w.h in s.handlers
    requires s.workers[w].phase == Ran(true) && s.workers[w].writes == [RUNNING]
    ensures After(known, longer) == Some(t)
    ensures t.workers == s.workers[w := Slot(s.workers[w].task, Finished(true), [RUNNING, SUCCESS])]
    ensures t.locks == s.locks - {s.workers[w].task} && t.handlers.Keys == s.handlers.Keys
  {
    var u := Apply(known, s, SaveResult(w)).value;
    longer := Snoc(known, steps, s, SaveResult(w), u);
    t := Apply(known, u, ReleaseLock(w)).value;
    longer := Snoc(known, longer, u, ReleaseLock(w), t);
    assert t.workers[w].writes == [RUNNING, SUCCESS];
    assert t.workers == s.workers[w := t.workers[w]];
  }

  lemma LockAndRun(known: TaskId -> bool, steps: seq<Step>, s: State, w: Worker) returns (longer: seq<Step>, t: State)
    requires After(known, steps) == Some(s) && w in s.workers
    requires s.workers[w].phase.Waiting? && s.workers[w].writes == []
    requires known(s.workers[w].task) && s.workers[w].task !in s.locks
    ensures After(known, longer) == Some(t)
    ensures t.workers == s.workers[w := Slot(s.workers[w].task, Ran(true), [RUNNING])]
    ensures t.locks == s.locks[s.workers[w].task := w] && t.handlers == s.handlers
  {
    var task := s.workers[w].task;
    var s1 := Apply(known, s, Start(w)).value;
    longer := Snoc(known, steps, s, Start(w), s1);
    var s2 := Apply(known, s1, SaveRunning(w)).value;
    longer := Snoc(known, longer, s1, SaveRunning(w), s2);
    t := Apply(known, s2, Run(w, true)).value;
    longer := Snoc(known, longer, s2, Run(w, true), t);
    assert t.workers[w].writes == [RUNNING];
    assert t.workers == s.workers[w := Slot(task, Ran(true), [RUNNING])];
  }
}
