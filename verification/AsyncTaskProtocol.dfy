/**
 Asynchronous tasks over any number of server instances. Each call of the handler reads the pending tasks
 and starts one worker per task, each under the task's own lock; instances that start put running tasks
 back to pending, and whole handlers may crash.
*/
module AsyncTaskProtocol {
  import opened Options

  type TaskId = nat
  type HandlerId = nat

  datatype Status = PENDING | RUNNING | SUCCESS | ERROR

  datatype Phase = Waiting | Unknown | Refused | Locked | Running | Ran(ok: bool) | Ended(ok: bool) | Finished(ok: bool)

  /** The worker of the i-th task in a handler's snapshot. */
  datatype Worker = Worker(h: HandlerId, i: nat)

  /** How far a worker has got; `writes` are the statuses it has saved for its task. */
  datatype Slot = Slot(task: TaskId, phase: Phase, writes: seq<Status>)

  datatype Handler = Handler(snapshot: seq<TaskId>, inSuccess: nat, inError: nat, crashed: bool)

  datatype State = State(
    status: map<TaskId, Status>, locks: map<TaskId, Worker>,
    workers: map<Worker, Slot>, handlers: map<HandlerId, Handler>)

  datatype Step =
    | AddTask(task: TaskId)
    | InitInstance
    | NewHandler(h: HandlerId, snapshot: seq<TaskId>)
    | Start(w: Worker)
    | SaveRunning(w: Worker)
    | Run(w: Worker, ok: bool)
    | SaveResult(w: Worker)
    | ReleaseLock(w: Worker)
    | Crash(h: HandlerId)
    | ReclaimLock(task: TaskId)

  predicate Held(phase: Phase) {
    phase.Locked? || phase.Running? || phase.Ran? || phase.Ended?
  }

  function Final(ok: bool): Status {
    if ok then SUCCESS else ERROR
  }

  /** A step of one worker, given its slot: the slot it goes to, and what becomes of its lock and its task. */
  function Work(known: TaskId -> bool, s: State, slot: Slot, step: Step): Option<(State, Slot)> {
    match step
    case Start(w) =>
      if !slot.phase.Waiting? then None
      else if !known(slot.task) then Some((s, slot.(phase := Unknown)))
      else if slot.task in s.locks then Some((s, slot.(phase := Refused)))
      else Some((s.(locks := s.locks[slot.task := w]), slot.(phase := Locked)))
    case SaveRunning(w) =>
      if !slot.phase.Locked? then None
      else Some((
        s.(status := s.status[slot.task := RUNNING]),
        slot.(phase := Running, writes := slot.writes + [RUNNING])))
    case Run(w, ok) =>
      if !slot.phase.Running? then None else Some((s, slot.(phase := Ran(ok))))
    case SaveResult(w) =>
      if !slot.phase.Ran? || w.h !in s.handlers then None
      else
        var ok, handler := slot.phase.ok, s.handlers[w.h];
        var counted :=
          if ok then handler.(inSuccess := handler.inSuccess + 1) else handler.(inError := handler.inError + 1);
        Some((s.(status := s.status[slot.task := Final(ok)], handlers := s.handlers[w.h := counted]),
          slot.(phase := Ended(ok), writes := slot.writes + [Final(ok)])))
    case ReleaseLock(w) =>
      if !slot.phase.Ended? then None
      else Some((s.(locks := s.locks - {slot.task}), slot.(phase := Finished(slot.phase.ok))))
    case _ => None
  }

  predicate IsWork(step: Step) {
    step.Start? || step.SaveRunning? || step.Run? || step.SaveResult? || step.ReleaseLock?
  }

  /** One worker for each task of a snapshot. */
  function FreshWorkers(h: HandlerId, snapshot: seq<TaskId>): (ws: map<Worker, Slot>)
    ensures forall w: Worker :: w in ws <==> w.h == h && w.i < |snapshot|
    ensures forall w :: w in ws ==> ws[w] == Slot(snapshot[w.i], Waiting, [])
  {
    var ws := map i: nat | 0 <= i < |snapshot| :: Worker(h, i) := Slot(snapshot[i], Waiting, []);
    assert forall w: Worker :: w.h == h && w.i < |snapshot| ==> w == Worker(h, w.i) && w in ws;
    ws
  }

  /** One step; `known` tells whether the name of a task has an implementation. */
  function Apply(known: TaskId -> bool, s: State, step: Step): Option<State> {
    match step
    case AddTask(t) => if t in s.status then None else Some(s.(status := s.status[t := PENDING]))
    case InitInstance =>
      Some(s.(status := map t | t in s.status :: if s.status[t].RUNNING? then PENDING else s.status[t]))
    case NewHandler(h, snapshot) =>
      if h !in s.handlers && forall t :: t in snapshot ==> t in s.status && s.status[t].PENDING? then
        Some(s.(
          handlers := s.handlers[h := Handler(snapshot, 0, 0, false)],
          workers := s.workers + FreshWorkers(h, snapshot)))
      else None
    case Crash(h) =>
      if h in s.handlers then
        Some(s.(
          handlers := s.handlers[h := s.handlers[h].(crashed := true)],
          workers := map w | w in s.workers && w.h != h :: s.workers[w]))
      else None
    case ReclaimLock(t) =>
      if t in s.locks && s.locks[t] !in s.workers then Some(s.(locks := s.locks - {t})) else None
    case _ =>
      if step.w !in s.workers then None
      else
        match Work(known, s, s.workers[step.w], step)
        case None => None
        case Some((t, slot)) => Some(t.(workers := s.workers[step.w := slot]))
  }

  const INIT := State(map[], map[], map[], map[])

  function After(known: TaskId -> bool, steps: seq<Step>): Option<State> {
    if steps == [] then Some(INIT)
    else
      var before := After(known, steps[..|steps| - 1]);
      if before.None? then None else Apply(known, before.value, steps[|steps| - 1])
  }

  // ---------------------------------------------------------------------------------------------

  /** Who works on a task holds its lock; a lock of a worker that lives is held for its task; and the
      workers of a handler are one per task of its snapshot. */
  ghost predicate LocksMatch(s: State) {
    HeldAreLocked(s) && LocksAreHeld(s) && forall t :: t in s.locks ==> s.locks[t].h in s.handlers
  }

  ghost predicate HeldAreLocked(s: State) {
    forall w :: w in s.workers && Held(s.workers[w].phase) ==>
      s.workers[w].task in s.locks && s.locks[s.workers[w].task] == w
  }

  ghost predicate LocksAreHeld(s: State) {
    forall t :: t in s.locks && s.locks[t] in s.workers ==>
      s.workers[s.locks[t]].task == t && Held(s.workers[s.locks[t]].phase)
  }

  ghost predicate WorkersMatch(s: State) {
    && (forall w :: w in s.workers ==>
          && w.h in s.handlers && !s.handlers[w.h].crashed
          && w.i < |s.handlers[w.h].snapshot| && s.workers[w].task == s.handlers[w.h].snapshot[w.i])
    && (forall h, i: nat :: h in s.handlers && !s.handlers[h].crashed && i < |s.handlers[h].snapshot| ==>
          Worker(h, i) in s.workers)
  }

  /** What a worker has written is told by its phase. */
  ghost predicate SlotConsistent(known: TaskId -> bool, slot: Slot) {
    && slot.writes == (match slot.phase
         case Running => [RUNNING]
         case Ran(_) => [RUNNING]
         case Ended(ok) => [RUNNING, Final(ok)]
         case Finished(ok) => [RUNNING, Final(ok)]
         case _ => [])
    && (slot.phase.Unknown? ==> !known(slot.task))
    && (!slot.phase.Unknown? && !slot.phase.Waiting? ==> known(slot.task))
  }

  predicate EndedWith(slot: Slot, ok: bool) {
    slot.phase == Ended(ok) || slot.phase == Finished(ok)
  }

  /** Among the first n workers of a handler, those that ended with the given outcome. */
  ghost function Count(workers: map<Worker, Slot>, h: HandlerId, n: nat, ok: bool): nat {
    if n == 0 then 0
    else
      var w := Worker(h, n - 1);
      Count(workers, h, n - 1, ok) + (if w in workers && EndedWith(workers[w], ok) then 1 else 0)
  }

  lemma {:induction false} CountSame(before: map<Worker, Slot>, after: map<Worker, Slot>, h: HandlerId, n: nat,
      ok: bool)
    requires forall i: nat :: i < n ==> (Worker(h, i) in before <==> Worker(h, i) in after)
    requires forall i: nat :: i < n && Worker(h, i) in before ==>
      EndedWith(before[Worker(h, i)], ok) == EndedWith(after[Worker(h, i)], ok)
    ensures Count(before, h, n, ok) == Count(after, h, n, ok)
  {
    if n > 0 {
      CountSame(before, after, h, n - 1, ok);
    }
  }

  lemma {:induction false} CountUpdate(workers: map<Worker, Slot>, w: Worker, slot: Slot, n: nat, ok: bool)
    requires w in workers && w.i < n
    ensures Count(workers[w := slot], w.h, n, ok) == Count(workers, w.h, n, ok)
      - (if EndedWith(workers[w], ok) then 1 else 0) + (if EndedWith(slot, ok) then 1 else 0)
  {
    if w.i < n - 1 {
      CountUpdate(workers, w, slot, n - 1, ok);
    } else {
      CountSame(workers, workers[w := slot], w.h, n - 1, ok);
    }
  }

  lemma {:induction false} CountWaiting(workers: map<Worker, Slot>, h: HandlerId, n: nat, ok: bool)
    requires forall i: nat :: i < n && Worker(h, i) in workers ==> workers[Worker(h, i)].phase.Waiting?
    ensures Count(workers, h, n, ok) == 0
  {
    if n > 0 {
      CountWaiting(workers, h, n - 1, ok);
    }
  }

  ghost predicate CountersMatch(s: State, h: HandlerId) {
    h in s.handlers && !s.handlers[h].crashed ==>
      && s.handlers[h].inSuccess == Count(s.workers, h, |s.handlers[h].snapshot|, true)
      && s.handlers[h].inError == Count(s.workers, h, |s.handlers[h].snapshot|, false)
  }

  /** What a worker's step changes: its own slot, its handler's counters when it ends, and the lock and
      the status of its own task. */
  lemma WorkShape(known: TaskId -> bool, s: State, step: Step, t: State)
    requires IsWork(step) && Apply(known, s, step) == Some(t)
    ensures step.w in s.workers && step.w in t.workers && t.workers == s.workers[step.w := t.workers[step.w]]
    ensures t.workers[step.w].task == s.workers[step.w].task
    ensures t.handlers.Keys == s.handlers.Keys
    ensures forall h :: h in s.handlers ==>
      t.handlers[h].snapshot == s.handlers[h].snapshot && t.handlers[h].crashed == s.handlers[h].crashed
  {
  }

  lemma WorkCounts(known: TaskId -> bool, s: State, step: Step, t: State)
    requires IsWork(step) && Apply(known, s, step) == Some(t) && step.w.h in s.handlers
    ensures step.w in s.workers && step.w in t.workers && step.w.h in t.handlers
    ensures forall h :: h in s.handlers && h != step.w.h ==> h in t.handlers && t.handlers[h] == s.handlers[h]
    ensures var a, b := s.workers[step.w], t.workers[step.w];
      && t.handlers[step.w.h].inSuccess == s.handlers[step.w.h].inSuccess
           - (if EndedWith(a, true) then 1 else 0) + (if EndedWith(b, true) then 1 else 0)
      && t.handlers[step.w.h].inError == s.handlers[step.w.h].inError
           - (if EndedWith(a, false) then 1 else 0) + (if EndedWith(b, false) then 1 else 0)
  {
  }

  lemma ProgressKeepsLocks(known: TaskId -> bool, s: State, step: Step, t: State)
    requires LocksMatch(s) && WorkersMatch(s) && Apply(known, s, step) == Some(t)
    requires step.SaveRunning? || step.Run? || step.SaveResult?
    ensures LocksMatch(t)
  {
  }

  lemma StartKeepsHeldLocked(known: TaskId -> bool, s: State, step: Step, t: State)
    requires HeldAreLocked(s) && Apply(known, s, step) == Some(t) && step.Start?
    ensures HeldAreLocked(t)
  {
  }

  lemma StartKeepsLocksHeld(known: TaskId -> bool, s: State, step: Step, t: State)
    requires LocksAreHeld(s) && Apply(known, s, step) == Some(t) && step.Start?
    ensures LocksAreHeld(t)
  {
  }

  lemma StartKeepsLocks(known: TaskId -> bool, s: State, step: Step, t: State)
    requires LocksMatch(s) && WorkersMatch(s) && Apply(known, s, step) == Some(t) && step.Start?
    ensures LocksMatch(t)
  {
    StartKeepsHeldLocked(known, s, step, t);
    StartKeepsLocksHeld(known, s, step, t);
  }

  lemma ReleaseKeepsLocks(known: TaskId -> bool, s: State, step: Step, t: State)
    requires LocksMatch(s) && WorkersMatch(s) && Apply(known, s, step) == Some(t) && step.ReleaseLock?
    ensures LocksMatch(t)
  {
  }

  lemma OtherKeepsLocks(known: TaskId -> bool, s: State, step: Step, t: State)
    requires LocksMatch(s) && WorkersMatch(s) && !IsWork(step) && Apply(known, s, step) == Some(t)
    ensures LocksMatch(t)
  {
  }

  lemma OtherKeepsWorkers(known: TaskId -> bool, s: State, step: Step, t: State)
    requires WorkersMatch(s) && !IsWork(step) && Apply(known, s, step) == Some(t)
    ensures WorkersMatch(t)
  {
  }

  lemma WorkKeepsWorkers(s: State, t: State, w: Worker)
    requires WorkersMatch(s) && w in s.workers && w in t.workers && t.workers == s.workers[w := t.workers[w]]
    requires t.workers[w].task == s.workers[w].task && t.handlers.Keys == s.handlers.Keys
    requires forall h :: h in s.handlers ==>
      t.handlers[h].snapshot == s.handlers[h].snapshot && t.handlers[h].crashed == s.handlers[h].crashed
    ensures WorkersMatch(t)
  {
  }

  lemma StepKeepsWorkers(known: TaskId -> bool, s: State, step: Step, t: State)
    requires WorkersMatch(s) && Apply(known, s, step) == Some(t)
    ensures WorkersMatch(t)
  {
    if IsWork(step) {
      WorkShape(known, s, step, t);
      WorkKeepsWorkers(s, t, step.w);
    } else {
      OtherKeepsWorkers(known, s, step, t);
    }
  }

  lemma StepKeepsSlots(known: TaskId -> bool, s: State, step: Step, t: State)
    requires forall w :: w in s.workers ==> SlotConsistent(known, s.workers[w])
    requires Apply(known, s, step) == Some(t)
    ensures forall w :: w in t.workers ==> SlotConsistent(known, t.workers[w])
  {
  }

  lemma WorkKeepsCounters(known: TaskId -> bool, s: State, step: Step, t: State, h: HandlerId)
    requires WorkersMatch(s) && CountersMatch(s, h) && IsWork(step) && Apply(known, s, step) == Some(t)
    ensures CountersMatch(t, h)
  {
    WorkShape(known, s, step, t);
    WorkCounts(known, s, step, t);
    if h in t.handlers && !t.handlers[h].crashed {
      var n := |t.handlers[h].snapshot|;
      if step.w.h == h {
        CountUpdate(s.workers, step.w, t.workers[step.w], n, true);
        CountUpdate(s.workers, step.w, t.workers[step.w], n, false);
      } else {
        CountSame(s.workers, t.workers, h, n, true);
        CountSame(s.workers, t.workers, h, n, false);
      }
    }
  }

  lemma OtherKeepsCounters(known: TaskId -> bool, s: State, step: Step, t: State, h: HandlerId)
    requires WorkersMatch(s) && CountersMatch(s, h) && !IsWork(step) && Apply(known, s, step) == Some(t)
    ensures CountersMatch(t, h)
  {
    if h in t.handlers && !t.handlers[h].crashed {
      var n := |t.handlers[h].snapshot|;
      if h in s.handlers {
        CountSame(s.workers, t.workers, h, n, true);
        CountSame(s.workers, t.workers, h, n, false);
      } else {
        CountWaiting(t.workers, h, n, true);
        CountWaiting(t.workers, h, n, false);
      }
    }
  }

  lemma StepKeepsCounters(known: TaskId -> bool, s: State, step: Step, t: State, h: HandlerId)
    requires WorkersMatch(s) && CountersMatch(s, h) && Apply(known, s, step) == Some(t)
    ensures CountersMatch(t, h)
  {
    if IsWork(step) {
      WorkKeepsCounters(known, s, step, t, h);
    } else {
      OtherKeepsCounters(known, s, step, t, h);
    }
  }

  /** The task of a worker is stored; while the worker runs it, its status says running, or pending again if
      another instance has started meanwhile; once the worker has ended it, the status is the outcome. */
  ghost predicate StatusMatch(s: State, w: Worker) {
    w in s.workers ==>
      var slot := s.workers[w];
      && slot.task in s.status
      && (slot.phase.Running? || slot.phase.Ran? ==> s.status[slot.task].RUNNING? || s.status[slot.task].PENDING?)
      && (slot.phase.Ended? ==> s.status[slot.task] == Final(slot.phase.ok))
  }

  lemma WorkKeepsStatus(known: TaskId -> bool, s: State, step: Step, t: State, w: Worker)
    requires LocksMatch(s) && WorkersMatch(s) && StatusMatch(s, w) && IsWork(step) && Apply(known, s, step) == Some(t)
    ensures StatusMatch(t, w)
  {
  }

  lemma OtherKeepsStatus(known: TaskId -> bool, s: State, step: Step, t: State, w: Worker)
    requires WorkersMatch(s) && StatusMatch(s, w) && !IsWork(step) && Apply(known, s, step) == Some(t)
    ensures StatusMatch(t, w)
  {
  }

  lemma StepKeepsStatus(known: TaskId -> bool, s: State, step: Step, t: State, w: Worker)
    requires LocksMatch(s) && WorkersMatch(s) && StatusMatch(s, w) && Apply(known, s, step) == Some(t)
    ensures StatusMatch(t, w)
  {
    if IsWork(step) {
      WorkKeepsStatus(known, s, step, t, w);
    } else {
      OtherKeepsStatus(known, s, step, t, w);
    }
  }

  ghost predicate Invariant(known: TaskId -> bool, s: State) {
    && LocksMatch(s) && WorkersMatch(s)
    && (forall w :: w in s.workers ==> SlotConsistent(known, s.workers[w]) && StatusMatch(s, w))
    && (forall h :: h in s.handlers ==> CountersMatch(s, h))
  }

  lemma {:induction false} RunKeepsInvariant(known: TaskId -> bool, steps: seq<Step>)
    requires After(known, steps).Some?
    ensures Invariant(known, After(known, steps).value)
  {
    if steps != [] {
      var front, step := steps[..|steps| - 1], steps[|steps| - 1];
      RunKeepsInvariant(known, front);
      var s, t := After(known, front).value, After(known, steps).value;
      if step.Start? {
        StartKeepsLocks(known, s, step, t);
      } else if step.ReleaseLock? {
        ReleaseKeepsLocks(known, s, step, t);
      } else if IsWork(step) {
        ProgressKeepsLocks(known, s, step, t);
      } else {
        OtherKeepsLocks(known, s, step, t);
      }
      StepKeepsWorkers(known, s, step, t);
      StepKeepsSlots(known, s, step, t);
      forall w | w in t.workers ensures StatusMatch(t, w) {
        StepKeepsStatus(known, s, step, t, w);
      }
      forall h | h in t.handlers ensures CountersMatch(t, h) {
        StepKeepsCounters(known, s, step, t, h);
      }
    }
  }

  /** At most one worker runs a task at a time, whatever other instances do when they start. */
  lemma OneWorkerPerTask(known: TaskId -> bool, steps: seq<Step>, v: Worker, w: Worker)
    requires After(known, steps).Some?
    requires var s := After(known, steps).value;
      && v in s.workers && w in s.workers && s.workers[v].task == s.workers[w].task
      && Held(s.workers[v].phase) && Held(s.workers[w].phase)
    ensures v == w
  {
    RunKeepsInvariant(known, steps);
  }

  ghost function EndedSet(workers: map<Worker, Slot>, h: HandlerId, n: nat, ok: bool): set<nat> {
    set i: nat | 0 <= i < n && Worker(h, i) in workers && EndedWith(workers[Worker(h, i)], ok)
  }

  lemma {:induction false} CountIsCardinality(workers: map<Worker, Slot>, h: HandlerId, n: nat, ok: bool)
    ensures Count(workers, h, n, ok) == |EndedSet(workers, h, n, ok)|
  {
    if n > 0 {
      CountIsCardinality(workers, h, n - 1, ok);
      var fewer, all := EndedSet(workers, h, n - 1, ok), EndedSet(workers, h, n, ok);
      if Worker(h, n - 1) in workers && EndedWith(workers[Worker(h, n - 1)], ok) {
        assert all == fewer + {n - 1};
      } else {
        assert all == fewer;
      }
    }
  }

  predicate Done(phase: Phase) {
    phase.Finished? || phase.Refused? || phase.Unknown?
  }

  /** What a handler that has finished has done: every task of its snapshot was saved as running and then as
      exactly one outcome, with its lock given back; or was refused its lock, or has no implementation, and
      was not written at all. The counters are the numbers of the two outcomes. */
  lemma FinishedHandlerReport(known: TaskId -> bool, steps: seq<Step>, h: HandlerId)
    requires After(known, steps).Some? && h in After(known, steps).value.handlers
    requires var s := After(known, steps).value;
      !s.handlers[h].crashed && forall w :: w in s.workers && w.h == h ==> Done(s.workers[w].phase)
    ensures var s := After(known, steps).value; var n := |s.handlers[h].snapshot|;
      && (forall i: nat :: i < n ==>
            && Worker(h, i) in s.workers && s.workers[Worker(h, i)].task == s.handlers[h].snapshot[i]
            && var slot := s.workers[Worker(h, i)];
               match slot.phase
               case Finished(ok) => slot.writes == [RUNNING, Final(ok)] && Worker(h, i) !in s.locks.Values
               case Unknown => slot.writes == [] && !known(slot.task)
               case _ => slot.phase.Refused? && slot.writes == [] && known(slot.task))
      && s.handlers[h].inSuccess == |EndedSet(s.workers, h, n, true)|
      && s.handlers[h].inError == |EndedSet(s.workers, h, n, false)|
  {
    RunKeepsInvariant(known, steps);
    var s := After(known, steps).value;
    var n := |s.handlers[h].snapshot|;
    CountIsCardinality(s.workers, h, n, true);
    CountIsCardinality(s.workers, h, n, false);
    forall i: nat | i < n ensures Worker(h, i) in s.workers && Worker(h, i) !in s.locks.Values {
      assert Done(s.workers[Worker(h, i)].phase);
    }
  }

  lemma Snoc(known: TaskId -> bool, steps: seq<Step>, s: State, step: Step, t: State) returns (longer: seq<Step>)
    requires After(known, steps) == Some(s) && Apply(known, s, step) == Some(t)
    ensures longer == steps + [step] && After(known, longer) == Some(t)
  {
    longer := steps + [step];
    assert longer[..|steps|] == steps;
  }

  predicate OfHandler(step: Step, me: HandlerId) {
    if IsWork(step) then step.w.h == me else (step.NewHandler? || step.Crash?) && step.h == me
  }

  ghost predicate SameFor(s: State, t: State, me: HandlerId) {
    && (me in t.handlers <==> me in s.handlers)
    && (me in s.handlers ==> t.handlers[me] == s.handlers[me])
    && (forall w: Worker :: w.h == me ==>
          (w in t.workers <==> w in s.workers) && (w in s.workers ==> t.workers[w] == s.workers[w]))
  }

  lemma OtherWorkSame(known: TaskId -> bool, s: State, step: Step, t: State, me: HandlerId)
    requires WorkersMatch(s) && Apply(known, s, step) == Some(t) && IsWork(step) && step.w.h != me
    ensures SameFor(s, t, me)
  {
    WorkShape(known, s, step, t);
    WorkCounts(known, s, step, t);
  }

  lemma OtherStepSame(known: TaskId -> bool, s: State, step: Step, t: State, me: HandlerId)
    requires WorkersMatch(s) && Apply(known, s, step) == Some(t) && !OfHandler(step, me)
    ensures SameFor(s, t, me)
  {
    if IsWork(step) {
      OtherWorkSame(known, s, step, t, me);
    }
  }

  /** A handler's workers and counters are touched by its own steps only. */
  lemma {:induction false} OthersHistory(known: TaskId -> bool, before: seq<Step>, steps: seq<Step>, me: HandlerId)
    requires After(known, before + steps).Some? && forall step :: step in steps ==> !OfHandler(step, me)
    ensures After(known, before).Some? && SameFor(After(known, before).value, After(known, before + steps).value, me)
  {
    if steps == [] {
      assert before + steps == before;
    } else {
      var front, last := steps[..|steps| - 1], steps[|steps| - 1];
      var longer := before + front;
      assert before + steps == longer + [last] && (longer + [last])[..|longer|] == longer;
      OthersHistory(known, before, front, me);
      RunKeepsInvariant(known, longer);
      OtherStepSame(known, After(known, longer).value, last, After(known, before + steps).value, me);
    }
  }
}
