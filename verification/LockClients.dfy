/**
 The locks that migrations and asynchronous tasks count on, as exclusive locks: each step of theirs is a step of
 such a lock, or none, and whatever such a lock does at any moment is a step of theirs. So what is proved of them
 holds over every lock whose steps are those of an exclusive one.
*/
module LockClients {
  import opened Options
  import opened ExclusiveLock
  import M = MigrationProtocol
  import A = AsyncTaskProtocol

  ghost function PassView(s: M.State): View<M.PassId> {
    View(s.holder, set p | p in s.passes && !s.passes[p].Idle?)
  }

  lemma InsidePass(s: M.State, p: M.PassId)
    ensures p in PassView(s).inside <==> !M.PassOf(s, p).Idle?
  {
  }

  lemma BecomePassView(s: M.State, p: M.PassId, pass: M.Pass)
    ensures PassView(M.Become(s, p, pass)).holder == s.holder
    ensures PassView(M.Become(s, p, pass)).inside
      == if pass.Idle? then PassView(s).inside - {p} else PassView(s).inside + {p}
  {
  }

  /** Every step of the migrations is a step of an exclusive lock, or none. */
  lemma MigrationStepIsNext(tasks: seq<M.Task>, s: M.State, step: M.Step, t: M.State)
    requires M.PassesInformed(tasks, s) && M.Apply(tasks, s, step) == Some(t)
    ensures Next(PassView(s), PassView(t))
  {
    if step.Reclaim? {
      InsidePass(s, s.holder.value);
      assert PassView(t).inside == PassView(s).inside;
      assert TakeAway(PassView(s), PassView(t));
    } else {
      var p := step.p;
      InsidePass(s, p);
      assert t == M.Become(t, p, M.PassOf(t, p));
      PassMoves(s, t, p);
    }
  }

  lemma PassMoves(s: M.State, t: M.State, p: M.PassId)
    requires t.passes == s.passes[p := M.PassOf(t, p)]
    requires M.PassOf(s, p).Idle? || s.holder == Some(p)
    requires M.PassOf(s, p).Idle? && !M.PassOf(t, p).Idle? ==> s.holder == None && t.holder == Some(p)
    requires M.PassOf(s, p).Idle? && M.PassOf(t, p).Idle? ==> t.holder == s.holder
    requires !M.PassOf(s, p).Idle? && !M.PassOf(t, p).Idle? ==> t.holder == s.holder
    requires !M.PassOf(s, p).Idle? && M.PassOf(t, p).Idle? ==> t.holder == s.holder || t.holder == None
    ensures Next(PassView(s), PassView(t))
  {
    var v, w := PassView(s), PassView(t);
    InsidePass(s, p);
    BecomePassView(s, p, M.PassOf(t, p));
    assert w.inside == PassView(M.Become(s, p, M.PassOf(t, p))).inside;
    if M.PassOf(t, p).Idle? {
      if p !in v.inside {
        assert v.inside - {p} == v.inside;
      } else if t.holder == s.holder {
        assert Die(v, w);
      } else {
        assert GiveBack(v, w);
      }
    } else if p in v.inside {
      assert v.inside + {p} == v.inside;
    } else {
      assert Take(v, w);
    }
  }

  /** A pass that has run through its tasks, or could not read the log, gives the lock back. */
  lemma PassGivesBack(tasks: seq<M.Task>, s: M.State, p: M.PassId)
    requires var pass := M.PassOf(s, p); pass.Starting? || (pass.Looping? && pass.i == |tasks|)
    ensures var t := M.Apply(tasks, s, if M.PassOf(s, p).Starting? then M.ReadLog(p, false) else M.Finish(p));
      t.Some? && PassView(t.value) == View(None, PassView(s).inside - {p})
  {
    BecomePassView(s.(holder := None), p, M.Idle);
    assert PassView(s.(holder := None)).inside == PassView(s).inside;
  }

  /** What an exclusive lock does to the passes, they follow: whoever is idle can take it when it is free, who is
      inside can die at any moment and give it back at its end, and a dead holder's lock can be taken away. */
  lemma MigrationFollowsLock(tasks: seq<M.Task>, s: M.State, p: M.PassId, asyncOnly: bool)
    requires M.PassesInformed(tasks, s)
    ensures s.holder.None? && M.PassOf(s, p).Idle? ==>
      var t := M.Apply(tasks, s, M.Acquire(p, asyncOnly));
      t.Some? && PassView(t.value) == View(Some(p), PassView(s).inside + {p})
    ensures p in PassView(s).inside ==>
      var t := M.Apply(tasks, s, M.Crash(p));
      t.Some? && PassView(t.value) == View(s.holder, PassView(s).inside - {p})
    ensures var pass := M.PassOf(s, p); pass.Starting? || (pass.Looping? && pass.i == |tasks|) ==>
      var t := M.Apply(tasks, s, if pass.Starting? then M.ReadLog(p, false) else M.Finish(p));
      t.Some? && PassView(t.value) == View(None, PassView(s).inside - {p})
    ensures s.holder.Some? && s.holder.value !in PassView(s).inside ==>
      var t := M.Apply(tasks, s, M.Reclaim);
      t.Some? && PassView(t.value) == View(None, PassView(s).inside)
  {
    InsidePass(s, p);
    if s.holder.Some? {
      InsidePass(s, s.holder.value);
    }
    BecomePassView(s.(holder := Some(p)), p, M.Starting(asyncOnly));
    BecomePassView(s, p, M.Idle);
    assert PassView(s.(holder := Some(p))).inside == PassView(s).inside;
    assert PassView(s.(holder := None)).inside == PassView(s).inside;
    if p in PassView(s).inside {
      assert M.Apply(tasks, s, M.Crash(p)).value.passes == s.passes[p := M.Idle];
      assert PassView(M.Apply(tasks, s, M.Crash(p)).value).inside == PassView(M.Become(s, p, M.Idle)).inside;
    }
    if M.PassOf(s, p).Starting? || (M.PassOf(s, p).Looping? && M.PassOf(s, p).i == |tasks|) {
      PassGivesBack(tasks, s, p);
    }
  }

  // Asynchronous tasks, each with a lock of its own

  ghost function TaskView(s: A.State, task: A.TaskId): View<A.Worker> {
    View(if task in s.locks then Some(s.locks[task]) else None,
      set w | w in s.workers && s.workers[w].task == task && A.Held(s.workers[w].phase))
  }

  /** Every step of handlers, workers and instances is, for each task, a step of an exclusive lock, or none. */
  lemma TaskStepIsNext(known: A.TaskId -> bool, s: A.State, step: A.Step, t: A.State, task: A.TaskId)
    requires A.LocksMatch(s) && A.WorkersMatch(s) && A.Apply(known, s, step) == Some(t)
    ensures Next(TaskView(s, task), TaskView(t, task))
  {
    match step {
      case AddTask(_) =>
      case InitInstance =>
      case NewHandler(_, _) => NewHandlerSameView(known, s, step, t, task);
      case Crash(_) => CrashIsNext(known, s, step, t, task);
      case ReclaimLock(_) => ReclaimIsNext(known, s, step, t, task);
      case Start(_) => StartIsNext(known, s, step, t, task);
      case ReleaseLock(_) => ReleaseIsNext(known, s, step, t, task);
      case _ => ProgressIsNext(known, s, step, t, task);
    }
  }

  lemma NewHandlerSameView(known: A.TaskId -> bool, s: A.State, step: A.Step, t: A.State, task: A.TaskId)
    requires A.WorkersMatch(s) && step.NewHandler? && A.Apply(known, s, step) == Some(t)
    ensures TaskView(s, task) == TaskView(t, task)
  {
    assert TaskView(t, task).inside == TaskView(s, task).inside;
  }

  lemma ReclaimIsNext(known: A.TaskId -> bool, s: A.State, step: A.Step, t: A.State, task: A.TaskId)
    requires step.ReclaimLock? && A.Apply(known, s, step) == Some(t)
    ensures Next(TaskView(s, task), TaskView(t, task))
  {
    assert TaskView(t, task).inside == TaskView(s, task).inside;
    assert step.task == task ==> TakeAway(TaskView(s, task), TaskView(t, task));
  }

  lemma StartIsNext(known: A.TaskId -> bool, s: A.State, step: A.Step, t: A.State, task: A.TaskId)
    requires A.LocksMatch(s) && step.Start? && A.Apply(known, s, step) == Some(t)
    ensures Next(TaskView(s, task), TaskView(t, task))
  {
    var v, w, me := TaskView(s, task), TaskView(t, task), step.w;
    InsideAfterWork(s, t, me, task);
    if me in w.inside {
      assert Take(v, w);
    } else {
      assert w.inside == v.inside && w.holder == v.holder;
    }
  }

  lemma ReleaseIsNext(known: A.TaskId -> bool, s: A.State, step: A.Step, t: A.State, task: A.TaskId)
    requires A.LocksMatch(s) && step.ReleaseLock? && A.Apply(known, s, step) == Some(t)
    ensures Next(TaskView(s, task), TaskView(t, task))
  {
    var v, w, me := TaskView(s, task), TaskView(t, task), step.w;
    InsideAfterWork(s, t, me, task);
    if me in v.inside {
      assert GiveBack(v, w);
    } else {
      assert w.inside == v.inside && w.holder == v.holder;
    }
  }

  lemma ProgressIsNext(known: A.TaskId -> bool, s: A.State, step: A.Step, t: A.State, task: A.TaskId)
    requires A.LocksMatch(s) && A.Apply(known, s, step) == Some(t)
    requires step.SaveRunning? || step.Run? || step.SaveResult?
    ensures Next(TaskView(s, task), TaskView(t, task))
  {
    var v, w, me := TaskView(s, task), TaskView(t, task), step.w;
    InsideAfterWork(s, t, me, task);
    assert w.inside == v.inside && w.holder == v.holder;
  }

  lemma InsideAfterWork(s: A.State, t: A.State, me: A.Worker, task: A.TaskId)
    requires me in s.workers && me in t.workers && t.workers == s.workers[me := t.workers[me]]
    ensures var v, w := TaskView(s, task), TaskView(t, task);
      w.inside == if me in w.inside then v.inside + {me} else v.inside - {me}
  {
  }

  lemma CrashIsNext(known: A.TaskId -> bool, s: A.State, step: A.Step, t: A.State, task: A.TaskId)
    requires A.LocksMatch(s) && step.Crash? && A.Apply(known, s, step) == Some(t)
    ensures Next(TaskView(s, task), TaskView(t, task))
  {
    var v, w := TaskView(s, task), TaskView(t, task);
    if x :| x in v.inside && x.h == step.h {
      assert w.inside == v.inside - {x};
      assert Die(v, w);
    } else {
      assert w.inside == v.inside;
    }
  }

  /** And what an exclusive lock does to the workers of a task, they follow. */
  lemma TaskFollowsLock(known: A.TaskId -> bool, s: A.State, task: A.TaskId, w: A.Worker)
    requires A.LocksMatch(s) && A.WorkersMatch(s) && w in s.workers && s.workers[w].task == task
    ensures task !in s.locks && s.workers[w].phase.Waiting? && known(task) ==>
      var t := A.Apply(known, s, A.Start(w));
      t.Some? && TaskView(t.value, task) == View(Some(w), TaskView(s, task).inside + {w})
    ensures w in TaskView(s, task).inside ==>
      var t := A.Apply(known, s, A.Crash(w.h));
      t.Some? && TaskView(t.value, task) == View(TaskView(s, task).holder, TaskView(s, task).inside - {w})
    ensures s.workers[w].phase.Ended? ==>
      var t := A.Apply(known, s, A.ReleaseLock(w));
      t.Some? && TaskView(t.value, task) == View(None, TaskView(s, task).inside - {w})
    ensures task in s.locks && s.locks[task] !in TaskView(s, task).inside ==>
      var t := A.Apply(known, s, A.ReclaimLock(task));
      t.Some? && TaskView(t.value, task) == View(None, TaskView(s, task).inside)
  {
    var v := TaskView(s, task);
    if task !in s.locks && s.workers[w].phase.Waiting? && known(task) {
      assert TaskView(A.Apply(known, s, A.Start(w)).value, task).inside == v.inside + {w};
    }
    if w in v.inside {
      assert TaskView(A.Apply(known, s, A.Crash(w.h)).value, task).inside == v.inside - {w};
    }
    if s.workers[w].phase.Ended? {
      InsideAfterWork(s, A.Apply(known, s, A.ReleaseLock(w)).value, w, task);
    }
    if task in s.locks && s.locks[task] !in v.inside {
      assert s.locks[task] !in s.workers;
      assert TaskView(A.Apply(known, s, A.ReclaimLock(task)).value, task).inside == v.inside;
    }
  }
}
