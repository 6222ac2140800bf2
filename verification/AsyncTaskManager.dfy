/**
 The task handler of one instance, as code that takes the protocol's steps while other handlers and
 instances take theirs.
*/
module AsyncTaskManager {
  import opened Options
  import opened AsyncTaskProtocol

  /** A worker that has been started and is not done. */
  predicate InFlight(phase: Phase) {
    !phase.Waiting? && !Done(phase)
  }

  /** Where a worker can go next, when its run goes well or not. */
  predicate Follows(before: Phase, after: Phase, ok: bool) {
    match before
    case Waiting => after.Locked? || after.Refused? || after.Unknown?
    case Locked => after.Running?
    case Running => after == Ran(ok)
    case Ran(b) => after == Ended(b)
    case Ended(b) => after == Finished(b)
    case _ => false
  }

  /** How many steps a worker has before it at most. */
  function Rank(phase: Phase): nat {
    match phase
    case Waiting => 5
    case Locked => 4
    case Running => 3
    case Ran(_) => 2
    case Ended(_) => 1
    case _ => 0
  }

  function One(phase: Phase): nat {
    if InFlight(phase) then 1 else 0
  }

  function Sum(f: Phase -> nat, phases: seq<Phase>): nat {
    if phases == [] then 0 else f(phases[0]) + Sum(f, phases[1..])
  }

  lemma {:induction false} SumUpdate(f: Phase -> nat, phases: seq<Phase>, i: nat, phase: Phase)
    requires i < |phases|
    ensures Sum(f, phases[i := phase]) == Sum(f, phases) - f(phases[i]) + f(phase)
  {
    if i == 0 {
      assert phases[i := phase][1..] == phases[1..];
    } else {
      assert phases[i := phase][1..] == phases[1..][i - 1 := phase];
      SumUpdate(f, phases[1..], i - 1, phase);
    }
  }

  lemma {:induction false} SumNone(f: Phase -> nat, phases: seq<Phase>)
    requires forall phase :: phase in phases ==> f(phase) == 0
    ensures Sum(f, phases) == 0
  {
    if phases != [] {
      assert phases[0] in phases;
      SumNone(f, phases[1..]);
    }
  }

  /** As long as some worker is not done, one can go on, or be started without there being too many. */
  lemma SomeCanGoOn(phases: seq<Phase>, parallel: nat, k: nat)
    requires parallel > 0 && k < |phases| && !Done(phases[k])
    ensures exists i :: 0 <= i < |phases| && !Done(phases[i]) && (phases[i].Waiting? ==> Sum(One, phases) < parallel)
  {
    if forall phase :: phase in phases ==> One(phase) == 0 {
      SumNone(One, phases);
    } else {
      var phase :| phase in phases && One(phase) != 0;
      var i :| 0 <= i < |phases| && phases[i] == phase;
    }
  }

  /** What the phases say of runs is how the runs went. */
  ghost predicate AsRun(phases: seq<Phase>, tasks: seq<TaskId>, fails: TaskId -> bool) {
    && |phases| == |tasks|
    && forall j :: 0 <= j < |phases| && (phases[j].Ran? || phases[j].Ended? || phases[j].Finished?) ==>
         phases[j].ok == !fails(tasks[j])
  }

  /** One worker's step keeps to the bound on workers in flight, and brings the whole nearer to its end. */
  lemma FollowKeeps(phases: seq<Phase>, i: nat, phase: Phase, tasks: seq<TaskId>, fails: TaskId -> bool, parallel: nat)
    requires i < |phases| && AsRun(phases, tasks, fails) && Follows(phases[i], phase, !fails(tasks[i]))
    requires Sum(One, phases) <= parallel && (phases[i].Waiting? ==> Sum(One, phases) < parallel)
    ensures var after := phases[i := phase];
      AsRun(after, tasks, fails) && Sum(One, after) <= parallel && Sum(Rank, after) < Sum(Rank, phases)
  {
    SumUpdate(One, phases, i, phase);
    SumUpdate(Rank, phases, i, phase);
  }

  /** Where the workers of a handler are. */
  ghost function PhasesAt(s: State, me: HandlerId): seq<Phase> {
    if me !in s.handlers then []
    else
      seq(|s.handlers[me].snapshot|, i requires 0 <= i =>
        if Worker(me, i) in s.workers then s.workers[Worker(me, i)].phase else Waiting)
  }

  /** How many workers of a handler are in flight after a history. */
  ghost function FlightAt(known: TaskId -> bool, h: seq<Step>, me: HandlerId): nat {
    if After(known, h).None? then 0 else Sum(One, PhasesAt(After(known, h).value, me))
  }

  /** In all that a history adds to another, no more workers are in flight at once. */
  ghost predicate Within(known: TaskId -> bool, before: seq<Step>, after: seq<Step>, me: HandlerId, parallel: nat) {
    before <= after && forall k :: |before| <= k <= |after| ==> FlightAt(known, after[..k], me) <= parallel
  }

  lemma WithinBoth(known: TaskId -> bool, a: seq<Step>, b: seq<Step>, c: seq<Step>, me: HandlerId, parallel: nat)
    requires Within(known, a, b, me, parallel) && Within(known, b, c, me, parallel)
    ensures Within(known, a, c, me, parallel)
  {
    forall k | |a| <= k <= |c| ensures FlightAt(known, c[..k], me) <= parallel {
      if k <= |b| {
        assert c[..k] == b[..k];
      }
    }
  }

  lemma OneStepWithin(known: TaskId -> bool, h: seq<Step>, step: Step, me: HandlerId, parallel: nat)
    requires FlightAt(known, h, me) <= parallel && FlightAt(known, h + [step], me) <= parallel
    ensures Within(known, h, h + [step], me, parallel)
  {
    forall k | |h| <= k <= |h + [step]| ensures FlightAt(known, (h + [step])[..k], me) <= parallel {
      assert (h + [step])[..k] == if k == |h| then h else h + [step];
    }
  }

  lemma {:induction false} PrefixRuns(known: TaskId -> bool, h: seq<Step>, k: nat)
    requires After(known, h).Some? && k <= |h|
    ensures After(known, h[..k]).Some?
  {
    if k < |h| {
      PrefixRuns(known, h[..|h| - 1], k);
      assert h[..|h| - 1][..k] == h[..k];
    } else {
      assert h[..k] == h;
    }
  }

  /** What others do leaves the number in flight as it is. */
  lemma OthersWithin(known: TaskId -> bool, h: seq<Step>, e: seq<Step>, me: HandlerId)
    requires After(known, h + e).Some? && forall step :: step in e ==> !OfHandler(step, me)
    ensures Within(known, h, h + e, me, FlightAt(known, h, me))
  {
    forall k | |h| <= k <= |h + e| ensures FlightAt(known, (h + e)[..k], me) <= FlightAt(known, h, me) {
      PrefixRuns(known, h + e, k);
      assert (h + e)[..k] == h + e[..k - |h|];
      OthersHistory(known, h, e[..k - |h|], me);
      SamePhases(After(known, h).value, After(known, h + e[..k - |h|]).value, me);
    }
  }

  lemma SamePhases(s: State, t: State, me: HandlerId)
    requires SameFor(s, t, me)
    ensures PhasesAt(t, me) == PhasesAt(s, me)
  {
  }

  /** Some worker that may go on. */
  method Choose(phases: seq<Phase>, parallel: nat) returns (i: nat)
    requires 0 < parallel && exists k :: 0 <= k < |phases| && !Done(phases[k])
    ensures i < |phases| && !Done(phases[i]) && (phases[i].Waiting? ==> Sum(One, phases) < parallel)
  {
    ghost var k :| 0 <= k < |phases| && !Done(phases[k]);
    SomeCanGoOn(phases, parallel, k);
    i :| 0 <= i < |phases| && !Done(phases[i]) && (phases[i].Waiting? ==> Sum(One, phases) < parallel);
  }

  class AsyncTaskManager {
    const known: TaskId -> bool
    const me: HandlerId
    var steps: seq<Step>

    ghost predicate Valid() reads this {
      After(known, steps).Some?
    }

    function World(): State
      requires Valid()
      reads this
    {
      After(known, steps).value
    }

    /** The handler's own part of the world. */
    ghost predicate Mine(handler: Handler, phases: seq<Phase>)
      requires Valid()
      reads this
    {
      && me in World().handlers && World().handlers[me] == handler && !handler.crashed && |phases| == |handler.snapshot|
      && forall i: nat :: i < |phases| ==>
           Worker(me, i) in World().workers && World().workers[Worker(me, i)].phase == phases[i]
    }

    constructor (known: TaskId -> bool, me: HandlerId, history: seq<Step>)
      requires After(known, history).Some?
      ensures Valid() && steps == history && this.known == known && this.me == me
    {
      this.known, this.me, steps := known, me, history;
    }

    method Others()
      requires Valid()
      modifies `steps
      ensures Valid() && Within(known, old(steps), steps, me, FlightAt(known, old(steps), me))
      ensures me in World().handlers <==> me in old(World().handlers)
      ensures forall handler, phases :: old(Mine(handler, phases)) ==> Mine(handler, phases)
    {
      var e: seq<Step> := *;
      if After(known, steps + e).Some? && forall step :: step in e ==> !OfHandler(step, me) {
        OthersHistory(known, steps, e, me);
        OthersWithin(known, steps, e, me);
        steps := steps + e;
      } else {
        assert steps[..|steps|] == steps;
      }
    }

    method Do(step: Step)
      requires Valid() && Apply(known, World(), step).Some? && OfHandler(step, me) && !step.Crash?
      modifies `steps
      ensures Valid() && steps == old(steps) + [step]
      ensures World() == Apply(known, old(World()), step).value
    {
      steps := steps + [step];
      assert steps[..|steps| - 1] == old(steps);
    }

    /** What the handler knows of its workers is how many are in flight. */
    lemma FlightIs(handler: Handler, phases: seq<Phase>)
      requires Valid() && Mine(handler, phases)
      ensures FlightAt(known, steps, me) == Sum(One, phases)
    {
      assert PhasesAt(World(), me) == phases;
    }

    /** Reads the pending tasks, in some order. */
    method GetPendingTasks() returns (tasks: seq<TaskId>)
      requires Valid()
      ensures forall t :: t in tasks <==> t in World().status && World().status[t].PENDING?
      ensures forall i, j :: 0 <= i < j < |tasks| ==> tasks[i] != tasks[j]
    {
      var pending := set t | t in World().status && World().status[t].PENDING?;
      tasks := [];
      while pending != {}
        invariant forall t :: t in tasks || t in pending <==> t in World().status && World().status[t].PENDING?
        invariant forall t :: t in tasks ==> t !in pending
        invariant forall i, j :: 0 <= i < j < |tasks| ==> tasks[i] != tasks[j]
        decreases pending
      {
        var t :| t in pending;
        tasks, pending := tasks + [t], pending - {t};
      }
    }

    /** The next step of one worker: take the lock, save as running, run, save the outcome and count it, or give the
        lock back. */
    method Advance(i: nat, ok: bool, ghost handler: Handler, ghost phases: seq<Phase>)
      returns (phase: Phase, ghost counted: Handler)
      requires Valid() && Mine(handler, phases) && i < |phases| && !Done(phases[i])
      modifies `steps
      ensures Valid() && steps != [] && Mine(counted, phases[i := phase])
      ensures Follows(phases[i], phase, ok) && counted == Counted(handler, phases[i])
      ensures old(steps) <= steps[..|steps| - 1]
      ensures Within(known, old(steps), steps[..|steps| - 1], me, Sum(One, phases))
    {
      FlightIs(handler, phases);
      Others();
      var w := Worker(me, i);
      var step := NextStep(World().workers[w].phase, w, ok);
      Do(step);
      phase, counted := World().workers[w].phase, World().handlers[me];
    }

    function NextStep(phase: Phase, w: Worker, ok: bool): Step {
      match phase
      case Waiting => Start(w)
      case Locked => SaveRunning(w)
      case Running => Run(w, ok)
      case Ran(_) => SaveResult(w)
      case _ => ReleaseLock(w)
    }

    /** A worker that saves its outcome is counted. */
    function Counted(handler: Handler, before: Phase): Handler {
      match before
      case Ran(ok) =>
        if ok then handler.(inSuccess := handler.inSuccess + 1) else handler.(inError := handler.inError + 1)
      case _ => handler
    }

    /** Reads the pending tasks and sets up a worker for each. */
    method Begin() returns (tasks: seq<TaskId>, ghost begun: seq<Step>)
      requires Valid() && me !in World().handlers
      modifies `steps
      ensures Valid() && old(steps) <= begun && steps == begun + [NewHandler(me, tasks)]
      ensures ReadPending(begun, tasks)
      ensures Mine(Handler(tasks, 0, 0, false), seq(|tasks|, _ => Waiting))
      ensures Within(known, begun, steps, me, 0)
    {
      Others();
      begun := steps;
      tasks := GetPendingTasks();
      Do(NewHandler(me, tasks));
      NoneInFlight(begun, tasks);
    }

    /** To begin with, nobody is in flight. */
    lemma NoneInFlight(begun: seq<Step>, tasks: seq<TaskId>)
      requires Valid() && Mine(Handler(tasks, 0, 0, false), seq(|tasks|, _ => Waiting))
      requires After(known, begun).Some? && me !in After(known, begun).value.handlers
      requires steps == begun + [NewHandler(me, tasks)]
      ensures Within(known, begun, steps, me, 0)
    {
      FlightIs(Handler(tasks, 0, 0, false), seq(|tasks|, _ => Waiting));
      SumNone(One, seq(|tasks|, _ => Waiting));
      assert PhasesAt(After(known, begun).value, me) == [];
      OneStepWithin(known, begun, NewHandler(me, tasks), me, 0);
    }

    /** After a history, these are all the pending tasks. */
    ghost predicate ReadPending(begun: seq<Step>, tasks: seq<TaskId>) {
      && After(known, begun).Some?
      && var status := After(known, begun).value.status;
         forall t :: t in tasks <==> t in status && status[t].PENDING?
    }

    /** Some worker that may goes on by one step. */
    method Round(tasks: seq<TaskId>, fails: TaskId -> bool, parallel: nat, phases: seq<Phase>, ghost handler: Handler)
      returns (i: nat, after: seq<Phase>, ghost counted: Handler)
      requires Valid() && Mine(handler, phases) && AsRun(phases, tasks, fails)
      requires 0 < parallel && Sum(One, phases) <= parallel && exists k :: 0 <= k < |phases| && !Done(phases[k])
      modifies `steps
      ensures Valid() && i < |phases| && Mine(counted, after) && AsRun(after, tasks, fails)
      ensures Within(known, old(steps), steps, me, parallel)
      ensures counted == Counted(handler, phases[i])
      ensures Sum(One, after) <= parallel && Sum(Rank, after) < Sum(Rank, phases)
    {
      i := Choose(phases, parallel);
      var phase;
      phase, counted := Advance(i, !fails(tasks[i]), handler, phases);
      after := phases[i := phase];
      FollowKeeps(phases, i, phase, tasks, fails, parallel);
      FlightIs(counted, after);
      OneMoreWithin(old(steps), Sum(One, phases), parallel);
    }

    lemma OneMoreWithin(before: seq<Step>, flight: nat, parallel: nat)
      requires steps != [] && Within(known, before, steps[..|steps| - 1], me, flight) && flight <= parallel
      requires FlightAt(known, steps, me) <= parallel
      ensures Within(known, before, steps, me, parallel)
    {
      forall k | |before| <= k <= |steps| ensures FlightAt(known, steps[..k], me) <= parallel {
        if k < |steps| {
          assert steps[..|steps| - 1][..k] == steps[..k];
        } else {
          assert steps[..k] == steps;
        }
      }
    }

    /** Lets the workers go on, one step at a time and in any order, until all are done. */
    method RunWorkers(tasks: seq<TaskId>, fails: TaskId -> bool, parallel: nat)
      returns (inSuccess: nat, inError: nat, ghost phases: seq<Phase>)
      requires Valid() && 0 < parallel && Mine(Handler(tasks, 0, 0, false), seq(|tasks|, _ => Waiting))
      modifies `steps
      ensures Valid() && Mine(Handler(tasks, inSuccess, inError, false), phases)
      ensures Within(known, old(steps), steps, me, parallel)
      ensures AsRun(phases, tasks, fails) && forall phase :: phase in phases ==> Done(phase)
    {
      inSuccess, inError := 0, 0;
      var current := seq(|tasks|, _ => Waiting);
      ghost var handler := Handler(tasks, 0, 0, false);
      SumNone(One, current);
      FlightIs(handler, current);
      assert steps[..|steps|] == steps;
      while exists k :: 0 <= k < |current| && !Done(current[k])
        invariant Valid() && Mine(handler, current) && AsRun(current, tasks, fails)
        invariant Within(known, old(steps), steps, me, parallel)
        invariant handler == Handler(tasks, inSuccess, inError, false) && Sum(One, current) <= parallel
        decreases Sum(Rank, current)
      {
        var i, after;
        ghost var before := steps;
        i, after, handler := Round(tasks, fails, parallel, current, handler);
        WithinBoth(known, old(steps), before, steps, me, parallel);
        if current[i].Ran? {
          if current[i].ok {
            inSuccess := inSuccess + 1;
          } else {
            inError := inError + 1;
          }
        }
        current := after;
      }
      phases := current;
    }

    /** One call of the handler. The workers of its snapshot, which is all that is pending when it begins, go on one
        step at a time and in any order, at most `nbrTasksInParallel` of them in flight at once. It ends with every
        task of the snapshot done, those that it ran with the outcome of the run, and returns how many it brought to
        success and to error; `fails` tells how the runs will go. */
    method HandleAsyncTasks(fails: TaskId -> bool, nbrTasksInParallel: int)
      returns (inSuccess: nat, inError: nat, ghost begun: seq<Step>)
      requires Valid() && me !in World().handlers
      modifies `steps
      ensures Valid() && old(steps) <= begun <= steps && me in World().handlers
      ensures Within(known, begun, steps, me, if nbrTasksInParallel > 0 then nbrTasksInParallel else 1)
      ensures ReadPending(begun, World().handlers[me].snapshot)
      ensures forall w :: w in World().workers && w.h == me ==>
        var slot := World().workers[w];
        Done(slot.phase) && (slot.phase.Finished? ==> slot.phase.ok == !fails(slot.task))
      ensures var n := |World().handlers[me].snapshot|;
        && inSuccess == |EndedSet(World().workers, me, n, true)|
        && inError == |EndedSet(World().workers, me, n, false)|
    {
      var tasks;
      tasks, begun := Begin();
      ghost var phases;
      ghost var started := steps;
      var parallel := if nbrTasksInParallel > 0 then nbrTasksInParallel else 1;
      inSuccess, inError, phases := RunWorkers(tasks, fails, parallel);
      assert Within(known, begun, started, me, parallel);
      WithinBoth(known, begun, started, steps, me, parallel);
      AllDone(Handler(tasks, inSuccess, inError, false), phases);
    }

    /** An instance that starts: what is stored as running goes back to pending, and then it handles what is
        pending. */
    method Init(fails: TaskId -> bool, nbrTasksInParallel: int)
      returns (inSuccess: nat, inError: nat, ghost started: seq<Step>, ghost begun: seq<Step>)
      requires Valid() && me !in World().handlers
      modifies `steps
      ensures Valid() && old(steps) <= started && started + [InitInstance] <= begun <= steps && me in World().handlers
      ensures ReadPending(begun, World().handlers[me].snapshot)
      ensures forall w :: w in World().workers && w.h == me ==> Done(World().workers[w].phase)
    {
      Others();
      started := steps;
      steps := steps + [InitInstance];
      assert steps[..|started|] == started;
      inSuccess, inError, begun := HandleAsyncTasks(fails, nbrTasksInParallel);
    }

    /** A handler whose phases are all done reports as it should. */
    lemma AllDone(handler: Handler, phases: seq<Phase>)
      requires Valid() && Mine(handler, phases) && forall phase :: phase in phases ==> Done(phase)
      ensures forall w :: w in World().workers && w.h == me ==>
        && Done(World().workers[w].phase) && w.i < |phases| && w.i < |handler.snapshot|
        && World().workers[w].phase == phases[w.i] && World().workers[w].task == handler.snapshot[w.i]
      ensures handler.inSuccess == |EndedSet(World().workers, me, |handler.snapshot|, true)|
      ensures handler.inError == |EndedSet(World().workers, me, |handler.snapshot|, false)|
    {
      RunKeepsInvariant(known, steps);
      forall w | w in World().workers && w.h == me
        ensures w.i < |phases| && w.i < |handler.snapshot| && Done(World().workers[w].phase)
        ensures World().workers[w].phase == phases[w.i] && World().workers[w].task == handler.snapshot[w.i]
      {
        assert w == Worker(me, w.i) && World().workers[w].phase == phases[w.i];
      }
      FinishedHandlerReport(known, steps, me);
    }
  }
}
