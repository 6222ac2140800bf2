/**
 Migrations over the lease locks: the two step systems taken together. A pass starts when its process gets the
 migration lock's record inserted, ends by deleting it, and dies with its process; everything else that a process
 does with leases leaves the passes alone. No step of a pass tests who holds the lock.
*/
module LeasedMigrations {
  import opened Options
  import opened LeaseIsExclusive
  import L = LeaseProtocol
  import M = MigrationProtocol

  /** `m.holder` is bookkeeping: the owner of the record stored under the lock's id. */
  datatype State = State(l: L.State, m: M.State)

  /** A step of a lease, by which a pass may start with the given kind, or a step of a pass inside the lock. */
  datatype Step = Lease(step: L.Step, asyncOnly: bool) | Work(work: M.Step)

  ghost predicate IsWork(step: M.Step) {
    (step.ReadLog? && step.ok) || step.Visit? || step.Migrate? || step.Save?
  }

  /** A pass that has run through its tasks, or could not read the log. */
  ghost predicate AtItsEnd(tasks: seq<M.Task>, pass: M.Pass) {
    pass.Starting? || (pass.Looping? && pass.i == |tasks|)
  }

  /** What a step of the leases does to the passes. */
  ghost function Followed(tasks: seq<M.Task>, id: L.LockId, s: State, step: L.Step, asyncOnly: bool): Option<M.State> {
    match step
    case Insert(p) =>
      var phase := L.PhaseOf(s.l, p);
      if !phase.Inserting? || phase.lock.id != id || id in s.l.store then Some(s.m)
      else if M.PassOf(s.m, p).Idle? then Some(M.Become(s.m, p, M.Starting(asyncOnly)))
      else None
    case Release(p) =>
      if !Holds(s.l, p, id) then Some(s.m)
      else if AtItsEnd(tasks, M.PassOf(s.m, p)) then Some(M.Become(s.m, p, M.Idle))
      else None
    case Crash(p) => M.Apply(tasks, s.m, M.Crash(p))
    case _ => Some(s.m)
  }

  ghost predicate Holds(l: L.State, p: L.Proc, id: L.LockId) {
    L.PhaseOf(l, p).Holding? && L.PhaseOf(l, p).lock.id == id
  }

  ghost function Apply(tasks: seq<M.Task>, id: L.LockId, s: State, step: Step): Option<State> {
    match step
    case Work(work) =>
      if IsWork(work) && M.Apply(tasks, s.m, work).Some? then Some(s.(m := M.Apply(tasks, s.m, work).value)) else None
    case Lease(a, asyncOnly) =>
      var l, m := L.Apply(s.l, a), Followed(tasks, id, s, a, asyncOnly);
      if l.None? || m.None? then None
      else Some(State(l.value, m.value.(holder := ViewOf(l.value, id).holder)))
  }

  ghost function After(tasks: seq<M.Task>, log0: seq<M.Entry>, id: L.LockId, steps: seq<Step>): Option<State> {
    if steps == [] then Some(State(L.INIT, M.Init(log0)))
    else
      var before := After(tasks, log0, id, steps[..|steps| - 1]);
      if before.None? then None else Apply(tasks, id, before.value, steps[|steps| - 1])
  }

  /** The history of the leases alone. */
  ghost function Leases(steps: seq<Step>): seq<L.Step> {
    if steps == [] then []
    else Leases(steps[..|steps| - 1]) + match steps[|steps| - 1] { case Lease(a, _) => [a] case Work(_) => [] }
  }

  lemma {:induction false} LeasesRun(tasks: seq<M.Task>, log0: seq<M.Entry>, id: L.LockId, steps: seq<Step>)
    requires After(tasks, log0, id, steps).Some?
    ensures L.After(Leases(steps)) == Some(After(tasks, log0, id, steps).value.l)
  {
    if steps != [] {
      var front, last := steps[..|steps| - 1], steps[|steps| - 1];
      LeasesRun(tasks, log0, id, front);
      if last.Lease? {
        L.AfterSnoc(Leases(front), last.step);
      } else {
        assert Leases(steps) == Leases(front);
      }
    }
  }

  /** Histories of the leases in which owners' records are stored all along, and what is deleted to reclaim it is
      nobody's who lives. */
  ghost predicate Safe(h: seq<L.Step>) {
    h != [] ==>
      var front, last := h[..|h| - 1], h[|h| - 1];
      && Safe(front) && L.After(front).Some? && L.OwnersStored(L.After(front).value)
      && (Reclaims(L.After(front).value, last) ==>
            MayDelete(L.After(front).value, L.PhaseOf(L.After(front).value, last.p).lock.id))
  }

  lemma {:induction false} TimedRunIsSafe(h: seq<L.Step>, margin: int, delay: nat)
    requires delay <= margin && L.TimedRun(h, margin, delay, false)
    ensures Safe(h)
  {
    if h != [] {
      TimedRunIsSafe(h[..|h| - 1], margin, delay);
      L.RunKeepsInvariant(h[..|h| - 1], margin, delay);
    }
  }

  lemma {:induction false} AtomicRunIsSafe(h: seq<L.Step>, margin: int)
    requires 0 <= margin && L.AtomicRun(h, margin)
    ensures Safe(h)
  {
    if h != [] {
      AtomicRunIsSafe(h[..|h| - 1], margin);
      L.AtomicRunKeepsInvariant(h[..|h| - 1], margin);
    }
  }

  /** Who holds the lock is in a pass, and nobody else; and the bookkeeping is right. */
  ghost predicate Coupled(s: State, id: L.LockId) {
    && (forall p: L.Proc :: Holds(s.l, p, id) <==> !M.PassOf(s.m, p).Idle?)
    && s.m.holder == ViewOf(s.l, id).holder
  }

  /** A step of the passes, or none. */
  ghost predicate MigrationNext(tasks: seq<M.Task>, m: M.State, n: M.State) {
    n == m || exists step :: M.Apply(tasks, m, step) == Some(n)
  }

  /** Whose phase and whose pass stay as they were. */
  ghost predicate SameOthers(s: State, t: State, p: L.Proc) {
    && (forall q: L.Proc :: q != p ==> L.PhaseOf(t.l, q) == L.PhaseOf(s.l, q))
    && (forall q: L.Proc :: q != p ==> M.PassOf(t.m, q) == M.PassOf(s.m, q))
  }

  lemma OneMoves(s: State, t: State, id: L.LockId, p: L.Proc)
    requires Coupled(s, id) && SameOthers(s, t, p) && t.m.holder == ViewOf(t.l, id).holder
    requires Holds(t.l, p, id) <==> !M.PassOf(t.m, p).Idle?
    ensures Coupled(t, id)
  {
    forall q: L.Proc ensures Holds(t.l, q, id) <==> !M.PassOf(t.m, q).Idle? {
      assert Holds(s.l, q, id) <==> !M.PassOf(s.m, q).Idle?;
    }
  }

  lemma LeaseMovesOne(tasks: seq<M.Task>, id: L.LockId, s: State, step: Step, t: State)
    requires step.Lease? && !step.step.Tick? && Apply(tasks, id, s, step) == Some(t)
    ensures SameOthers(s, t, step.step.p)
  {
    L.OthersUntouched(s.l, step.step, t.l);
  }

  lemma InsertRefines(tasks: seq<M.Task>, id: L.LockId, s: State, step: Step, t: State)
    requires Coupled(s, id) && L.OwnersStored(s.l) && Apply(tasks, id, s, step) == Some(t)
    requires step.Lease? && step.step.Insert?
    ensures Coupled(t, id) && MigrationNext(tasks, s.m, t.m)
  {
    var p := step.step.p;
    var lock := L.PhaseOf(s.l, p).lock;
    LeaseMovesOne(tasks, id, s, step, t);
    assert Holds(s.l, p, id) <==> !M.PassOf(s.m, p).Idle?;
    if lock.id == id && id !in s.l.store {
      assert M.Apply(tasks, s.m, M.Acquire(p, step.asyncOnly)) == Some(t.m);
    }
    OneMoves(s, t, id, p);
  }

  lemma ReleaseRefines(tasks: seq<M.Task>, id: L.LockId, s: State, step: Step, t: State)
    requires Coupled(s, id) && L.OwnersStored(s.l) && Apply(tasks, id, s, step) == Some(t)
    requires step.Lease? && step.step.Release?
    ensures Coupled(t, id) && MigrationNext(tasks, s.m, t.m)
  {
    var p := step.step.p;
    LeaseMovesOne(tasks, id, s, step, t);
    assert Holds(s.l, p, id) <==> !M.PassOf(s.m, p).Idle?;
    if Holds(s.l, p, id) {
      assert M.Apply(tasks, s.m, if M.PassOf(s.m, p).Starting? then M.ReadLog(p, false) else M.Finish(p)) == Some(t.m);
    }
    OneMoves(s, t, id, p);
  }

  lemma CrashRefines(tasks: seq<M.Task>, id: L.LockId, s: State, step: Step, t: State)
    requires Coupled(s, id) && Apply(tasks, id, s, step) == Some(t)
    requires step.Lease? && step.step.Crash?
    ensures Coupled(t, id) && MigrationNext(tasks, s.m, t.m)
  {
    LeaseMovesOne(tasks, id, s, step, t);
    assert M.Apply(tasks, s.m, M.Crash(step.step.p)) == Some(t.m);
    OneMoves(s, t, id, step.step.p);
  }

  lemma ReclaimRefines(tasks: seq<M.Task>, id: L.LockId, s: State, step: Step, t: State)
    requires Coupled(s, id) && Apply(tasks, id, s, step) == Some(t)
    requires step.Lease? && (step.step.Reclaim? || step.step.AtomicReclaim?)
    requires Reclaims(s.l, step.step) ==> MayDelete(s.l, L.PhaseOf(s.l, step.step.p).lock.id)
    ensures Coupled(t, id) && MigrationNext(tasks, s.m, t.m)
  {
    var p := step.step.p;
    LeaseMovesOne(tasks, id, s, step, t);
    assert Holds(s.l, p, id) <==> !M.PassOf(s.m, p).Idle?;
    if t.m != s.m {
      var other := s.m.holder.value;
      assert Holds(s.l, other, id) <==> !M.PassOf(s.m, other).Idle?;
      assert M.Apply(tasks, s.m, M.Reclaim) == Some(t.m);
    }
    OneMoves(s, t, id, p);
  }

  lemma OtherRefines(tasks: seq<M.Task>, id: L.LockId, s: State, step: Step, t: State)
    requires Coupled(s, id) && Apply(tasks, id, s, step) == Some(t) && step.Lease?
    requires step.step.Create? || step.step.GiveUp? || step.step.Read? || step.step.Test?
    ensures Coupled(t, id) && t.m == s.m
  {
    var p := step.step.p;
    LeaseMovesOne(tasks, id, s, step, t);
    assert Holds(s.l, p, id) <==> !M.PassOf(s.m, p).Idle?;
    OneMoves(s, t, id, p);
  }

  lemma TickRefines(tasks: seq<M.Task>, id: L.LockId, s: State, step: Step, t: State)
    requires Coupled(s, id) && Apply(tasks, id, s, step) == Some(t) && step.Lease? && step.step.Tick?
    ensures Coupled(t, id) && t.m == s.m
  {
    forall p: L.Proc ensures Holds(t.l, p, id) <==> !M.PassOf(t.m, p).Idle? {
      assert Holds(s.l, p, id) <==> !M.PassOf(s.m, p).Idle?;
    }
  }

  lemma WorkRefines(tasks: seq<M.Task>, id: L.LockId, s: State, step: Step, t: State)
    requires Coupled(s, id) && Apply(tasks, id, s, step) == Some(t) && step.Work?
    ensures Coupled(t, id) && MigrationNext(tasks, s.m, t.m)
  {
    var p := step.work.p;
    M.OthersUntouched(tasks, s.m, step.work, t.m);
    assert Holds(s.l, p, id) <==> !M.PassOf(s.m, p).Idle?;
    OneMoves(s, t, id, p);
  }

  /** While what is deleted to reclaim a lock is nobody's who lives, each step of both systems together is a step of
      the migrations over an exclusive lock, or none. */
  lemma StepRefines(tasks: seq<M.Task>, id: L.LockId, s: State, step: Step, t: State)
    requires Coupled(s, id) && Apply(tasks, id, s, step) == Some(t)
    requires step.Lease? ==> L.OwnersStored(s.l)
    requires step.Lease? && Reclaims(s.l, step.step) ==> MayDelete(s.l, L.PhaseOf(s.l, step.step.p).lock.id)
    ensures Coupled(t, id) && MigrationNext(tasks, s.m, t.m)
  {
    match step {
      case Work(_) => WorkRefines(tasks, id, s, step, t);
      case Lease(Tick(_), _) => TickRefines(tasks, id, s, step, t);
      case Lease(Insert(_), _) => InsertRefines(tasks, id, s, step, t);
      case Lease(Release(_), _) => ReleaseRefines(tasks, id, s, step, t);
      case Lease(Crash(_), _) => CrashRefines(tasks, id, s, step, t);
      case Lease(Reclaim(_), _) => ReclaimRefines(tasks, id, s, step, t);
      case Lease(AtomicReclaim(_), _) => ReclaimRefines(tasks, id, s, step, t);
      case _ => OtherRefines(tasks, id, s, step, t);
    }
  }

  /** So a run over leases that are safe is a run of the migrations over an exclusive lock. */
  lemma {:induction false} RunRefines(tasks: seq<M.Task>, log0: seq<M.Entry>, id: L.LockId, steps: seq<Step>)
    returns (work: seq<M.Step>)
    requires After(tasks, log0, id, steps).Some? && Safe(Leases(steps))
    ensures var s := After(tasks, log0, id, steps).value;
      Coupled(s, id) && M.After(tasks, log0, work) == Some(s.m)
  {
    work := [];
    if steps != [] {
      var front, last := steps[..|steps| - 1], steps[|steps| - 1];
      LeasesRun(tasks, log0, id, front);
      if last.Lease? {
        assert Leases(steps)[..|Leases(steps)| - 1] == Leases(front);
      } else {
        assert Leases(steps) == Leases(front);
      }
      work := RunRefines(tasks, log0, id, front);
      var s, t := After(tasks, log0, id, front).value, After(tasks, log0, id, steps).value;
      StepRefines(tasks, id, s, last, t);
      if t.m != s.m {
        var step :| M.Apply(tasks, s.m, step) == Some(t.m);
        M.AfterSnoc(tasks, log0, work, step);
        work := work + [step];
      }
    }
  }

  /** No migration's completions, with its record from before, exceed one by more than those lost to a crash or a
      failed save before being recorded. */
  ghost predicate Once(log0: seq<M.Entry>, m: M.State) {
    forall e: M.Entry :: m.completions[e] + M.Recorded(log0, e) <= 1 + m.lost[e]
  }

  /** Both systems in a run of the leases under bounds. */
  ghost predicate LeadsTimed(tasks: seq<M.Task>, log0: seq<M.Entry>, id: L.LockId, steps: seq<Step>, s: State,
      margin: int, delay: nat, holdersCrash: bool) {
    && M.DistinctTasks(tasks) && M.NoDuplicates(log0) && After(tasks, log0, id, steps) == Some(s)
    && L.TimedRun(Leases(steps), margin, delay, holdersCrash)
  }

  ghost predicate LeadsAtomic(tasks: seq<M.Task>, log0: seq<M.Entry>, id: L.LockId, steps: seq<Step>, s: State,
      margin: int) {
    && M.DistinctTasks(tasks) && M.NoDuplicates(log0) && After(tasks, log0, id, steps) == Some(s)
    && L.AtomicRun(Leases(steps), margin)
  }

  lemma SafeRunsOnce(tasks: seq<M.Task>, log0: seq<M.Entry>, id: L.LockId, steps: seq<Step>)
    requires M.DistinctTasks(tasks) && M.NoDuplicates(log0)
    requires After(tasks, log0, id, steps).Some? && Safe(Leases(steps))
    ensures Once(log0, After(tasks, log0, id, steps).value.m)
  {
    var work := RunRefines(tasks, log0, id, steps);
    forall e: M.Entry
      ensures var m := After(tasks, log0, id, steps).value.m; m.completions[e] + M.Recorded(log0, e) <= 1 + m.lost[e]
    {
      M.RunOnce(tasks, log0, work, e);
    }
  }

  // Two processes inside run a migration twice

  /** Lease steps alone: passes start, end and die with the locks, and do nothing in between. */
  ghost function Lifted(h: seq<L.Step>): seq<Step> {
    if h == [] then [] else Lifted(h[..|h| - 1]) + [Lease(h[|h| - 1], false)]
  }

  ghost predicate AtStart(s: State, id: L.LockId, log0: seq<M.Entry>) {
    && s.m.log == log0 && s.m.completions == multiset{} && s.m.lost == multiset{}
    && forall p: L.Proc :: M.PassOf(s.m, p) == if Holds(s.l, p, id) then M.Starting(false) else M.Idle
  }

  lemma StaysAtStart(tasks: seq<M.Task>, log0: seq<M.Entry>, id: L.LockId, s: State, a: L.Step, l: L.State)
    requires AtStart(s, id, log0) && L.Apply(s.l, a) == Some(l)
    ensures var t := Apply(tasks, id, s, Lease(a, false)); t.Some? && t.value.l == l && AtStart(t.value, id, log0)
  {
    if !a.Tick? {
      assert M.PassOf(s.m, a.p) == if Holds(s.l, a.p, id) then M.Starting(false) else M.Idle;
    }
    var t := Apply(tasks, id, s, Lease(a, false)).value;
    forall p: L.Proc ensures M.PassOf(t.m, p) == if Holds(t.l, p, id) then M.Starting(false) else M.Idle {
      assert M.PassOf(s.m, p) == if Holds(s.l, p, id) then M.Starting(false) else M.Idle;
      if !a.Tick? && p != a.p {
        LeaseMovesOne(tasks, id, s, Lease(a, false), t);
      }
    }
  }

  lemma {:induction false} LiftedRuns(tasks: seq<M.Task>, log0: seq<M.Entry>, id: L.LockId, h: seq<L.Step>)
    requires L.After(h).Some?
    ensures Leases(Lifted(h)) == h
    ensures After(tasks, log0, id, Lifted(h)).Some?
    ensures var s := After(tasks, log0, id, Lifted(h)).value; s.l == L.After(h).value && AtStart(s, id, log0)
  {
    if h != [] {
      var front, last := h[..|h| - 1], h[|h| - 1];
      LiftedRuns(tasks, log0, id, front);
      assert Lifted(h)[..|Lifted(h)| - 1] == Lifted(front);
      StaysAtStart(tasks, log0, id, After(tasks, log0, id, Lifted(front)).value, last, L.After(h).value);
    }
  }

  lemma Do(tasks: seq<M.Task>, log0: seq<M.Entry>, id: L.LockId, steps: seq<Step>, s: State, work: M.Step, m: M.State)
    returns (more: seq<Step>)
    requires After(tasks, log0, id, steps) == Some(s) && IsWork(work) && M.Apply(tasks, s.m, work) == Some(m)
    ensures Leases(more) == Leases(steps) && After(tasks, log0, id, more) == Some(s.(m := m))
  {
    more := steps + [Work(work)];
    assert more[..|more| - 1] == steps;
    assert Leases(more) == Leases(steps);
  }

  /** A pass that has just started completes the first task, if it is not recorded and of its kind. */
  lemma Completes(tasks: seq<M.Task>, log0: seq<M.Entry>, id: L.LockId, steps: seq<Step>, s: State, p: L.Proc)
    returns (more: seq<Step>)
    requires tasks != [] && M.Key(tasks[0]) !in s.m.log && !tasks[0].isAsync
    requires After(tasks, log0, id, steps) == Some(s) && M.PassOf(s.m, p) == M.Starting(false)
    ensures Leases(more) == Leases(steps)
    ensures var completions := s.m.completions + multiset{M.Key(tasks[0])};
      var m := M.Become(s.m.(completions := completions), p, M.Completed(false, s.m.log, 0));
      After(tasks, log0, id, more) == Some(s.(m := m))
  {
    var m1 := M.Become(s.m, p, M.Looping(false, s.m.log, 0));
    more := Do(tasks, log0, id, steps, s, M.ReadLog(p, true), m1);
    var m2 := M.Become(m1, p, M.Executing(false, s.m.log, 0));
    more := Do(tasks, log0, id, more, s.(m := m1), M.Visit(p), m2);
    var completions := s.m.completions + multiset{M.Key(tasks[0])};
    var m3 := M.Become(m2.(completions := completions), p, M.Completed(false, s.m.log, 0));
    more := Do(tasks, log0, id, more, s.(m := m2), M.Migrate(p, true), m3);
    assert m3.passes == s.m.passes[p := M.Completed(false, s.m.log, 0)];
  }

  /** Any run of the leases that is not exclusive extends to one in which a migration completes twice, and nothing
      was lost. */
  lemma TwoInsideRunTwice(h: seq<L.Step>, p: L.Proc, q: L.Proc, id: L.LockId)
    returns (tasks: seq<M.Task>, steps: seq<Step>, s: State)
    requires L.After(h).Some? && p != q && Holds(L.After(h).value, p, id) && Holds(L.After(h).value, q, id)
    ensures Leases(steps) == h && M.DistinctTasks(tasks) && After(tasks, [], id, steps) == Some(s)
    ensures !Once([], s.m) && s.m.lost == multiset{}
  {
    var task := M.Task("", "", false);
    tasks := [task];
    LiftedRuns(tasks, [], id, h);
    var s0 := After(tasks, [], id, Lifted(h)).value;
    assert M.PassOf(s0.m, p) == M.Starting(false) && M.PassOf(s0.m, q) == M.Starting(false);
    steps := Completes(tasks, [], id, Lifted(h), s0, p);
    var s1 := After(tasks, [], id, steps).value;
    steps := Completes(tasks, [], id, steps, s1, q);
    s := After(tasks, [], id, steps).value;
    assert s.m.completions[M.Key(task)] == 2;
  }

  /** Migrations over the lease locks as the code has them run once, in every run without crashes of holders in which
      tests follow their reads within `delay` and holders keep `margin` in reserve, if and only if
      `delay <= margin`. */
  lemma RunsOnceExactlyWhenPrompt(margin: int, delay: nat)
    ensures (forall tasks, log0, id, steps, s ::
      LeadsTimed(tasks, log0, id, steps, s, margin, delay, false) ==> Once(log0, s.m)) <==> delay <= margin
  {
    if delay <= margin {
      forall tasks, log0, id, steps, s | LeadsTimed(tasks, log0, id, steps, s, margin, delay, false)
        ensures Once(log0, s.m)
      {
        TimedRunIsSafe(Leases(steps), margin, delay);
        SafeRunsOnce(tasks, log0, id, steps);
      }
    } else {
      var l := L.SlowTestBreaksExclusion(margin, delay);
      var h :| L.TimedRun(h, margin, delay, false) && L.After(h) == Some(l);
      var p, q := TwoInside(l);
      var tasks, steps, s := TwoInsideRunTwice(h, p, q, L.PhaseOf(l, p).lock.id);
      assert LeadsTimed(tasks, [], L.PhaseOf(l, p).lock.id, steps, s, margin, delay, false);
    }
  }

  lemma TwoInside(l: L.State) returns (p: L.Proc, q: L.Proc)
    requires !L.Exclusive(l)
    ensures p != q && L.PhaseOf(l, p).Holding? && Holds(l, q, L.PhaseOf(l, p).lock.id)
  {
    p, q :| L.PhaseOf(l, p).Holding? && L.PhaseOf(l, q).Holding?
      && L.PhaseOf(l, p).lock.id == L.PhaseOf(l, q).lock.id && p != q;
  }

  /** Once holders may crash, no bounds suffice: a migration completes twice although none of its completions was
      lost. */
  lemma CrashRunsTwice(margin: int, delay: nat)
    returns (tasks: seq<M.Task>, id: L.LockId, steps: seq<Step>, s: State)
    ensures LeadsTimed(tasks, [], id, steps, s, margin, delay, true)
    ensures !Once([], s.m) && s.m.lost == multiset{}
  {
    var l := L.CrashDefeatsEveryBound(margin, delay);
    var h :| L.TimedRun(h, margin, delay, true) && L.After(h) == Some(l);
    var p, q := TwoInside(l);
    id := L.PhaseOf(l, p).lock.id;
    tasks, steps, s := TwoInsideRunTwice(h, p, q, id);
  }

  /** Over the variant with an atomic reclaim they run once, in every run with any crashes, if and only if live
      holders never outstay their expiry. */
  lemma RunsOnceExactlyWhenInTime(margin: int)
    ensures (forall tasks, log0, id, steps, s ::
      LeadsAtomic(tasks, log0, id, steps, s, margin) ==> Once(log0, s.m)) <==> 0 <= margin
  {
    if 0 <= margin {
      forall tasks, log0, id, steps, s | LeadsAtomic(tasks, log0, id, steps, s, margin) ensures Once(log0, s.m) {
        AtomicRunIsSafe(Leases(steps), margin);
        SafeRunsOnce(tasks, log0, id, steps);
      }
    } else {
      var h := L.OverstayBreaksExclusion(margin);
      var l := L.After(h).value;
      var p, q := TwoInside(l);
      var tasks, steps, s := TwoInsideRunTwice(h, p, q, L.PhaseOf(l, p).lock.id);
      assert LeadsAtomic(tasks, [], L.PhaseOf(l, p).lock.id, steps, s, margin);
    }
  }
}
