/**
 When the lease locks are exclusive locks: seen through the records of one id and the processes that hold it,
 each step of the protocol is a step of an exclusive lock, or none.
*/
module LeaseIsExclusive {
  import opened Options
  import opened ExclusiveLock
  import L = LeaseProtocol

  ghost function ViewOf(s: L.State, id: L.LockId): View<L.Proc> {
    View(if id in s.store then Some(s.store[id].owner) else None,
      set p | p in s.procs && s.procs[p].Holding? && s.procs[p].lock.id == id)
  }

  lemma InsideIsHolding(s: L.State, id: L.LockId, p: L.Proc)
    ensures p in ViewOf(s, id).inside <==> L.PhaseOf(s, p).Holding? && L.PhaseOf(s, p).lock.id == id
  {
  }

  /** A change of one process's phase changes who is inside by that process at most. */
  lemma BecomeView(s: L.State, p: L.Proc, phase: L.Phase, id: L.LockId)
    ensures ViewOf(L.Become(s, p, phase), id).holder == ViewOf(s, id).holder
    ensures ViewOf(L.Become(s, p, phase), id).inside
      == if phase.Holding? && phase.lock.id == id then ViewOf(s, id).inside + {p} else ViewOf(s, id).inside - {p}
  {
  }

  /** No live process holds the id. */
  ghost predicate MayDelete(s: L.State, id: L.LockId) {
    forall p: L.Proc :: !(L.PhaseOf(s, p).Holding? && L.PhaseOf(s, p).lock.id == id)
  }

  lemma DeleteIsTakeAway(s: L.State, p: L.Proc, phase: L.Phase, id: L.LockId, other: L.LockId)
    requires !L.PhaseOf(s, p).Holding? && !phase.Holding? && MayDelete(s, other)
    ensures Next(ViewOf(s, id), ViewOf(L.Become(s.(store := s.store - {other}), p, phase), id))
  {
    var t := s.(store := s.store - {other});
    BecomeView(t, p, phase, id);
    InsideIsHolding(s, id, p);
    assert ViewOf(t, id).inside == ViewOf(s, id).inside;
    assert ViewOf(s, id).inside - {p} == ViewOf(s, id).inside;
    if id == other && id in s.store {
      InsideIsHolding(s, id, s.store[id].owner);
      assert TakeAway(ViewOf(s, id), ViewOf(L.Become(t, p, phase), id));
    }
  }

  lemma InsertIsTake(s: L.State, p: L.Proc, lock: L.Lock, id: L.LockId)
    requires L.OwnersStored(s) && !L.PhaseOf(s, p).Holding? && lock.owner == p && lock.id !in s.store
    ensures Next(ViewOf(s, id), ViewOf(L.Become(s.(store := s.store[lock.id := lock]), p, L.Holding(lock)), id))
  {
    var t := s.(store := s.store[lock.id := lock]);
    BecomeView(t, p, L.Holding(lock), id);
    InsideIsHolding(s, id, p);
    assert ViewOf(t, id).inside == ViewOf(s, id).inside;
    if id == lock.id {
      assert Take(ViewOf(s, id), ViewOf(L.Become(t, p, L.Holding(lock)), id));
    } else {
      assert ViewOf(s, id).inside - {p} == ViewOf(s, id).inside;
    }
  }

  lemma ReleaseIsGiveBack(s: L.State, p: L.Proc, id: L.LockId)
    requires L.OwnersStored(s) && L.PhaseOf(s, p).Holding?
    ensures Next(ViewOf(s, id), ViewOf(L.Become(s.(store := s.store - {L.PhaseOf(s, p).lock.id}), p, L.Idle), id))
  {
    var own := L.PhaseOf(s, p).lock.id;
    var t := s.(store := s.store - {own});
    BecomeView(t, p, L.Idle, id);
    InsideIsHolding(s, id, p);
    assert ViewOf(t, id).inside == ViewOf(s, id).inside;
    if id == own {
      assert GiveBack(ViewOf(s, id), ViewOf(L.Become(t, p, L.Idle), id));
    } else {
      assert ViewOf(s, id).inside - {p} == ViewOf(s, id).inside;
    }
  }

  /** A step that moves one process, and not into the critical section, and leaves the records alone. */
  lemma PhaseChangeIsNext(s: L.State, p: L.Proc, phase: L.Phase, id: L.LockId)
    requires !phase.Holding?
    ensures Next(ViewOf(s, id), ViewOf(L.Become(s, p, phase), id))
  {
    BecomeView(s, p, phase, id);
    if p in ViewOf(s, id).inside {
      assert Die(ViewOf(s, id), ViewOf(L.Become(s, p, phase), id));
    } else {
      assert ViewOf(s, id).inside - {p} == ViewOf(s, id).inside;
    }
  }

  /** The step deletes a record in order to reclaim it. */
  predicate Reclaims(s: L.State, step: L.Step) {
    match step
    case Reclaim(p) => L.PhaseOf(s, p).Reclaiming?
    case AtomicReclaim(p) =>
      (match L.PhaseOf(s, p)
       case Reading(lock) => lock.id in s.store && L.Expired(s.store[lock.id], s.now)
       case _ => false)
    case _ => false
  }

  /** What a step needs to be one of an exclusive lock: owners' records are stored, and a process that deletes
      to reclaim finds nobody inside. */
  lemma StepIsNext(s: L.State, step: L.Step, t: L.State, id: L.LockId)
    requires L.OwnersStored(s) && L.Apply(s, step) == Some(t)
    requires Reclaims(s, step) ==> MayDelete(s, L.PhaseOf(s, step.p).lock.id)
    ensures Next(ViewOf(s, id), ViewOf(t, id))
  {
    match step {
      case Tick(_) => assert ViewOf(t, id) == ViewOf(s, id);
      case Insert(p) =>
        if L.PhaseOf(t, p).Holding? {
          InsertIsTake(s, p, L.PhaseOf(s, p).lock, id);
        } else {
          PhaseChangeIsNext(s, p, L.PhaseOf(t, p), id);
        }
      case Release(p) => ReleaseIsGiveBack(s, p, id);
      case Reclaim(p) => DeleteIsTakeAway(s, p, L.PhaseOf(t, p), id, L.PhaseOf(s, p).lock.id);
      case AtomicReclaim(p) =>
        if Reclaims(s, step) {
          DeleteIsTakeAway(s, p, L.PhaseOf(t, p), id, L.PhaseOf(s, p).lock.id);
        } else {
          PhaseChangeIsNext(s, p, L.PhaseOf(t, p), id);
        }
      case _ => PhaseChangeIsNext(s, step.p, L.PhaseOf(t, step.p), id);
    }
  }

  /** The code as it is: in every run without crashes of holders, in which tests follow reads within the margin
      that holders keep, each step is one of an exclusive lock. */
  lemma TimedRunIsExclusive(steps: seq<L.Step>, margin: int, delay: nat, id: L.LockId)
    requires steps != [] && delay <= margin && L.TimedRun(steps, margin, delay, false)
    ensures var front := steps[..|steps| - 1];
      && L.After(front).Some? && L.After(steps).Some?
      && Next(ViewOf(L.After(front).value, id), ViewOf(L.After(steps).value, id))
  {
    var front, last := steps[..|steps| - 1], steps[|steps| - 1];
    L.RunKeepsInvariant(front, margin, delay);
    StepIsNext(L.After(front).value, last, L.After(steps).value, id);
  }

  /** The variant with an atomic reclaim: the same in every run with any crashes, in which live holders do not
      outstay their expiry. */
  lemma AtomicRunIsExclusive(steps: seq<L.Step>, margin: int, id: L.LockId)
    requires steps != [] && 0 <= margin && L.AtomicRun(steps, margin)
    ensures var front := steps[..|steps| - 1];
      && L.After(front).Some? && L.After(steps).Some?
      && Next(ViewOf(L.After(front).value, id), ViewOf(L.After(steps).value, id))
  {
    var front, last := steps[..|steps| - 1], steps[|steps| - 1];
    L.AtomicRunKeepsInvariant(front, margin);
    StepIsNext(L.After(front).value, last, L.After(steps).value, id);
  }

  /** The code as it is, with crashes of holders, is not an exclusive lock under any bounds: some run ends with
      two inside. */
  lemma CrashingRunIsNotExclusive(margin: int, delay: nat) returns (s: L.State)
    ensures L.Reachable(s, margin, delay, true)
    ensures exists id, p, q :: p != q && p in ViewOf(s, id).inside && q in ViewOf(s, id).inside
  {
    s := L.CrashDefeatsEveryBound(margin, delay);
    var p, q :| L.PhaseOf(s, p).Holding? && L.PhaseOf(s, q).Holding?
      && L.PhaseOf(s, p).lock.id == L.PhaseOf(s, q).lock.id && p != q;
    InsideIsHolding(s, L.PhaseOf(s, p).lock.id, p);
    InsideIsHolding(s, L.PhaseOf(s, p).lock.id, q);
  }
}
