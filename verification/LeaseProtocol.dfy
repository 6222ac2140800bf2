/**
 The lease locks of the server, as a step system: any number of processes, one clock, and the
 shared `locks` collection. The atomic actions are those of the database (insert a record unless
 its id is taken, read a record, delete by id) and the passing of time; everything a process does
 between two of them is folded into the phase it is in.
*/
module LeaseProtocol {
  import opened Options

  type LockId = string
  type Proc = nat

  /** A lock object. `owner` is bookkeeping: no step ever tests it. */
  datatype Lock = Lock(id: LockId, owner: Proc, expiry: Option<int>)

  /** Where a process stands between two database actions. */
  datatype Phase =
    | Idle
    | Inserting(lock: Lock, retry: bool, failed: bool)
    | Reading(lock: Lock)
    | Testing(lock: Lock, seen: Option<Lock>, readAt: int)
    | Reclaiming(lock: Lock)
    | Holding(lock: Lock)

  datatype State = State(now: int, store: map<LockId, Lock>, procs: map<Proc, Phase>)

  datatype Step =
    | Create(p: Proc, id: LockId, validity: int)
    | Insert(p: Proc)
    | GiveUp(p: Proc)
    | Read(p: Proc)
    | Test(p: Proc)
    | Reclaim(p: Proc)
    | AtomicReclaim(p: Proc)
    | Release(p: Proc)
    | Crash(p: Proc)
    | Tick(delay: nat)

  const INIT := State(0, map[], map[])

  function PhaseOf(s: State, p: Proc): Phase {
    if p in s.procs then s.procs[p] else Idle
  }

  function Become(s: State, p: Proc, phase: Phase): State {
    s.(procs := s.procs[p := phase])
  }

  /** A record has expired once the clock is strictly past its date; one without a date never does. */
  predicate Expired(lock: Lock, now: int) {
    lock.expiry.Some? && lock.expiry.value < now
  }

  /** One step; None when the step is not enabled. */
  function Apply(s: State, step: Step): Option<State> {
    match step
    case Tick(delay) => Some(s.(now := s.now + delay))
    case Crash(p) => Some(Become(s, p, Idle))
    case Create(p, id, validity) =>
      if PhaseOf(s, p).Idle? then
        Some(Become(s, p, Inserting(Lock(id, p, if validity > 0 then Some(s.now + validity) else None), true, false)))
      else None
    case Insert(p) =>
      (match PhaseOf(s, p)
       case Inserting(lock, retry, _) =>
         if lock.id in s.store then Some(Become(s, p, Inserting(lock, retry, true)))
         else Some(Become(s.(store := s.store[lock.id := lock]), p, Holding(lock)))
       case _ => None)
    case GiveUp(p) =>
      (match PhaseOf(s, p)
       case Inserting(lock, retry, true) => Some(Become(s, p, if retry then Reading(lock) else Idle))
       case _ => None)
    case Read(p) =>
      (match PhaseOf(s, p)
       case Reading(lock) =>
         Some(Become(s, p, Testing(lock, if lock.id in s.store then Some(s.store[lock.id]) else None, s.now)))
       case _ => None)
    case Test(p) =>
      (match PhaseOf(s, p)
       case Testing(lock, seen, _) =>
         Some(Become(s, p, if seen.Some? && Expired(seen.value, s.now) then Reclaiming(lock) else Idle))
       case _ => None)
    case Reclaim(p) =>
      (match PhaseOf(s, p)
       case Reclaiming(lock) => Some(Become(s.(store := s.store - {lock.id}), p, Inserting(lock, false, false)))
       case _ => None)
    case AtomicReclaim(p) =>
      (match PhaseOf(s, p)
       case Reading(lock) =>
         if lock.id in s.store && Expired(s.store[lock.id], s.now) then
           Some(Become(s.(store := s.store - {lock.id}), p, Inserting(lock, false, false)))
         else Some(Become(s, p, Idle))
       case _ => None)
    case Release(p) =>
      (match PhaseOf(s, p)
       case Holding(lock) => Some(Become(s.(store := s.store - {lock.id}), p, Idle))
       case _ => None)
  }

  /** The state after a history of steps; None when some step was not enabled. */
  function After(steps: seq<Step>): Option<State> {
    if steps == [] then Some(INIT)
    else
      var before := After(steps[..|steps| - 1]);
      if before.None? then None else Apply(before.value, steps[|steps| - 1])
  }

  lemma AfterSnoc(steps: seq<Step>, step: Step)
    ensures After(steps + [step]) == if After(steps).None? then None else Apply(After(steps).value, step)
  {
    assert (steps + [step])[..|steps|] == steps;
  }

  /** A step changes the phase of the process that takes it, and of no other. */
  lemma OthersUntouched(s: State, step: Step, t: State)
    requires Apply(s, step) == Some(t)
    ensures forall q: Proc {:trigger PhaseOf(t, q)} ::
      (step.Tick? || q != step.p) ==> PhaseOf(t, q) == PhaseOf(s, q)
    ensures s.now <= t.now && (!step.Tick? ==> t.now == s.now)
  {
  }

  /** At most one process is inside the critical section of an id. */
  ghost predicate Exclusive(s: State) {
    forall p: Proc, q: Proc ::
      PhaseOf(s, p).Holding? && PhaseOf(s, q).Holding? && PhaseOf(s, p).lock.id == PhaseOf(s, q).lock.id ==> p == q
  }

  /** Every holder still has at least `margin` to go before its own expiration date. */
  ghost predicate HoldersInTime(s: State, margin: int) {
    forall p: Proc :: PhaseOf(s, p).Holding? && PhaseOf(s, p).lock.expiry.Some? ==>
      s.now + margin <= PhaseOf(s, p).lock.expiry.value
  }

  /** A process that has read a record tests it no later than `delay` after the read. */
  ghost predicate TestsPrompt(s: State, delay: nat) {
    forall p: Proc :: PhaseOf(s, p).Testing? ==> s.now <= PhaseOf(s, p).readAt + delay
  }

  /** The two bounds above, for one process. */
  predicate PhaseInTime(s: State, p: Proc, margin: int, delay: nat) {
    match PhaseOf(s, p)
    case Holding(lock) => lock.expiry.Some? ==> s.now + margin <= lock.expiry.value
    case Testing(_, _, readAt) => s.now <= readAt + delay
    case _ => true
  }

  /** The record of every holder is the one stored, and every stored record belongs to a holder. */
  ghost predicate OwnersStored(s: State) {
    && (forall p: Proc :: PhaseOf(s, p).Holding? ==>
          PhaseOf(s, p).lock.id in s.store && s.store[PhaseOf(s, p).lock.id] == PhaseOf(s, p).lock)
    && (forall p: Proc :: !PhaseOf(s, p).Idle? ==> PhaseOf(s, p).lock.owner == p)
    && (forall id :: id in s.store ==> s.store[id].id == id)
  }

  // ---------------------------------------------------------------------------------------------
  // The code as it is: read, test and delete are three separate actions.

  /** Histories in which the reclaim is not atomic and every state meets the two time bounds. */
  ghost predicate TimedRun(steps: seq<Step>, margin: int, delay: nat, holdersCrash: bool) {
    steps != [] ==>
      var front, last := steps[..|steps| - 1], steps[|steps| - 1];
      && TimedRun(front, margin, delay, holdersCrash)
      && After(front).Some? && After(steps).Some?
      && !last.AtomicReclaim?
      && (last.Crash? && !holdersCrash ==> !PhaseOf(After(front).value, last.p).Holding?)
      && HoldersInTime(After(steps).value, margin)
      && TestsPrompt(After(steps).value, delay)
  }

  /** What every step keeps: holders own their records, every record has a live holder, a record
      seen by a reader was far from its expiry when read, and no reclaim is ever under way. */
  ghost predicate LeaseInvariant(s: State, margin: int) {
    && OwnersStored(s)
    && (forall id :: id in s.store ==> PhaseOf(s, s.store[id].owner) == Holding(s.store[id]))
    && (forall p: Proc :: !PhaseOf(s, p).Reclaiming?)
    && (forall p: Proc ::
          PhaseOf(s, p).Testing? && PhaseOf(s, p).seen.Some? && PhaseOf(s, p).seen.value.expiry.Some? ==>
            PhaseOf(s, p).readAt + margin <= PhaseOf(s, p).seen.value.expiry.value)
  }

  lemma StepKeepsInvariant(s: State, step: Step, t: State, margin: int, delay: nat)
    requires delay <= margin
    requires LeaseInvariant(s, margin) && HoldersInTime(s, margin) && TestsPrompt(s, delay)
    requires !step.AtomicReclaim? && (step.Crash? ==> !PhaseOf(s, step.p).Holding?)
    requires Apply(s, step) == Some(t)
    ensures LeaseInvariant(t, margin)
  {
    OthersUntouched(s, step, t);
  }

  lemma {:induction false} RunKeepsInvariant(steps: seq<Step>, margin: int, delay: nat)
    requires delay <= margin && TimedRun(steps, margin, delay, false)
    ensures After(steps).Some?
    ensures LeaseInvariant(After(steps).value, margin)
    ensures HoldersInTime(After(steps).value, margin) && TestsPrompt(After(steps).value, delay)
  {
    if steps != [] {
      var front, last := steps[..|steps| - 1], steps[|steps| - 1];
      RunKeepsInvariant(front, margin, delay);
      StepKeepsInvariant(After(front).value, last, After(steps).value, margin, delay);
    }
  }

  /** The states a timed run can lead to. */
  ghost predicate Reachable(s: State, margin: int, delay: nat, holdersCrash: bool) {
    exists steps :: TimedRun(steps, margin, delay, holdersCrash) && After(steps) == Some(s)
  }

  lemma ReachableKeepsInvariant(s: State, margin: int, delay: nat)
    requires delay <= margin && Reachable(s, margin, delay, false)
    ensures LeaseInvariant(s, margin) && Exclusive(s)
  {
    var steps :| TimedRun(steps, margin, delay, false) && After(steps) == Some(s);
    RunKeepsInvariant(steps, margin, delay);
  }

  /** A timed run that leads to a given state. */
  ghost predicate Leads(h: seq<Step>, s: State, margin: int, delay: nat, holdersCrash: bool) {
    TimedRun(h, margin, delay, holdersCrash) && After(h) == Some(s)
  }

  /** A step that is no tick can make only the process that takes it miss a bound. */
  lemma StaysInTime(s: State, step: Step, t: State, margin: int, delay: nat)
    requires Apply(s, step) == Some(t) && !step.Tick? && HoldersInTime(s, margin) && TestsPrompt(s, delay)
    requires PhaseInTime(t, step.p, margin, delay)
    ensures HoldersInTime(t, margin) && TestsPrompt(t, delay)
  {
    OthersUntouched(s, step, t);
  }

  lemma LeadsInTime(h: seq<Step>, s: State, margin: int, delay: nat, holdersCrash: bool)
    requires Leads(h, s, margin, delay, holdersCrash)
    ensures HoldersInTime(s, margin) && TestsPrompt(s, delay)
  {
  }

  /** Takes one more step at the end of a timed run. Unless it is a tick, only the process that takes
      it can come to miss a bound. */
  lemma Go(h: seq<Step>, s: State, step: Step, t: State, margin: int, delay: nat, holdersCrash: bool)
    returns (k: seq<Step>)
    requires Leads(h, s, margin, delay, holdersCrash)
    requires !step.AtomicReclaim? && (step.Crash? && !holdersCrash ==> !PhaseOf(s, step.p).Holding?)
    requires Apply(s, step) == Some(t)
    requires
      if step.Tick? then HoldersInTime(t, margin) && TestsPrompt(t, delay) else PhaseInTime(t, step.p, margin, delay)
    ensures Leads(k, t, margin, delay, holdersCrash)
  {
    k := h + [step];
    assert k[..|h|] == h;
    if !step.Tick? {
      LeadsInTime(h, s, margin, delay, holdersCrash);
      StaysInTime(s, step, t, margin, delay);
    }
  }

  /** A process creates a lock on a free id and gets it at once. */
  lemma Enter(h: seq<Step>, s: State, p: Proc, id: LockId, validity: int, margin: int, delay: nat, holdersCrash: bool)
    returns (k: seq<Step>, t: State)
    requires Leads(h, s, margin, delay, holdersCrash) && PhaseOf(s, p).Idle? && id !in s.store
    requires 0 < validity && margin <= validity
    ensures var lock := Lock(id, p, Some(s.now + validity));
      t == State(s.now, s.store[id := lock], s.procs[p := Holding(lock)])
    ensures Leads(k, t, margin, delay, holdersCrash)
  {
    var lock := Lock(id, p, Some(s.now + validity));
    var u := Become(s, p, Inserting(lock, true, false));
    t := Become(u.(store := s.store[id := lock]), p, Holding(lock));
    k := Go(h, s, Create(p, id, validity), u, margin, delay, holdersCrash);
    k := Go(k, u, Insert(p), t, margin, delay, holdersCrash);
    assert t.procs == s.procs[p := Holding(lock)];
  }

  /** A process is refused a taken id and reads the record that is in its way. */
  lemma SeeRecord(h: seq<Step>, s: State, p: Proc, id: LockId, validity: int, margin: int, delay: nat,
      holdersCrash: bool)
    returns (k: seq<Step>, t: State)
    requires Leads(h, s, margin, delay, holdersCrash) && PhaseOf(s, p).Idle? && id in s.store && 0 < validity
    ensures t == Become(s, p, Testing(Lock(id, p, Some(s.now + validity)), Some(s.store[id]), s.now))
    ensures Leads(k, t, margin, delay, holdersCrash)
  {
    var lock := Lock(id, p, Some(s.now + validity));
    var u1 := Become(s, p, Inserting(lock, true, false));
    var u2 := Become(u1, p, Inserting(lock, true, true));
    var u3 := Become(u2, p, Reading(lock));
    t := Become(u3, p, Testing(lock, Some(s.store[id]), s.now));
    k := Go(h, s, Create(p, id, validity), u1, margin, delay, holdersCrash);
    k := Go(k, u1, Insert(p), u2, margin, delay, holdersCrash);
    k := Go(k, u2, GiveUp(p), u3, margin, delay, holdersCrash);
    k := Go(k, u3, Read(p), t, margin, delay, holdersCrash);
    assert t.procs == s.procs[p := PhaseOf(t, p)];
  }

  /** A process whose copy of the record has expired deletes whatever is stored under the id, and moves in. */
  lemma MoveIn(h: seq<Step>, s: State, p: Proc, margin: int, delay: nat, holdersCrash: bool)
    returns (k: seq<Step>, t: State)
    requires Leads(h, s, margin, delay, holdersCrash) && PhaseOf(s, p).Testing?
    requires PhaseOf(s, p).seen.Some? && Expired(PhaseOf(s, p).seen.value, s.now)
    requires PhaseOf(s, p).lock.expiry.Some? ==> s.now + margin <= PhaseOf(s, p).lock.expiry.value
    ensures var lock := PhaseOf(s, p).lock;
      t == State(s.now, s.store[lock.id := lock], s.procs[p := Holding(lock)])
    ensures Leads(k, t, margin, delay, holdersCrash)
  {
    var lock := PhaseOf(s, p).lock;
    var u1 := Become(s, p, Reclaiming(lock));
    var u2 := Become(u1.(store := s.store - {lock.id}), p, Inserting(lock, false, false));
    t := Become(u2.(store := u2.store[lock.id := lock]), p, Holding(lock));
    k := Go(h, s, Test(p), u1, margin, delay, holdersCrash);
    k := Go(k, u1, Reclaim(p), u2, margin, delay, holdersCrash);
    k := Go(k, u2, Insert(p), t, margin, delay, holdersCrash);
    assert t.procs == s.procs[p := Holding(lock)] && t.store == s.store[lock.id := lock];
  }

  /** A process holds a lease and has just the margin left of it. */
  lemma HolderAtMargin(a: int, margin: int, delay: nat) returns (h: seq<Step>, s: State)
    requires 0 < a && margin < a
    ensures Leads(h, s, margin, delay, false)
    ensures var lock := Lock("", 0, Some(a)); s == State(a - margin, map["" := lock], map[0 := Holding(lock)])
  {
    var s1;
    h, s1 := Enter([], INIT, 0, "", a, margin, delay, false);
    s := s1.(now := a - margin);
    h := Go(h, s1, Tick(a - margin), s, margin, delay, false);
  }

  /** A process is left with a copy of a record, read just before its holder released it in time. */
  lemma StaleCopy(a: int, margin: int, delay: nat) returns (h: seq<Step>, s: State)
    requires 0 < a && margin < a
    ensures Leads(h, s, margin, delay, false) && s.store == map[] && s.now == a - margin
    ensures s.procs
      == map[0 := Idle, 1 := Testing(Lock("", 1, Some(s.now + delay + a)), Some(Lock("", 0, Some(a))), s.now)]
  {
    var s1, s2;
    h, s1 := HolderAtMargin(a, margin, delay);
    h, s2 := SeeRecord(h, s1, 1, "", delay + a, margin, delay, false);
    s := Become(s2.(store := s2.store - {""}), 0, Idle);
    h := Go(h, s2, Release(0), s, margin, delay, false);
  }

  /** If a test may come later after its read than holders keep in reserve, two processes can get in:
      a slow reader still has its copy of a lease that was released in time, finds the copy expired, and
      deletes the record of the next holder. */
  lemma SlowTestBreaksExclusion(margin: int, delay: nat) returns (s: State)
    requires margin < delay
    ensures Reachable(s, margin, delay, false) && !Exclusive(s)
  {
    var a := if margin < 0 then 1 else margin + 1;
    var h, s1 := StaleCopy(a, margin, delay);
    var k, s2 := Enter(h, s1, 2, "", delay + a, margin, delay, false);
    var s3 := s2.(now := s2.now + delay);
    k := Go(k, s2, Tick(delay), s3, margin, delay, false);
    k, s := MoveIn(k, s3, 1, margin, delay, false);
    assert PhaseOf(s, 1).Holding? && PhaseOf(s, 2).Holding?;
  }

  /** The exact condition: leases exclude each other in every run in which holders keep `margin` in
      reserve and tests follow their reads within `delay`, if and only if `delay <= margin`. */
  lemma ExclusionExactlyWhenPrompt(margin: int, delay: nat)
    ensures (forall s :: Reachable(s, margin, delay, false) ==> Exclusive(s)) <==> delay <= margin
  {
    if delay <= margin {
      forall s | Reachable(s, margin, delay, false) ensures Exclusive(s) {
        ReachableKeepsInvariant(s, margin, delay);
      }
    } else {
      var s := SlowTestBreaksExclusion(margin, delay);
    }
  }

  /** Under the same bound, no reclaim ever gets to its delete, and a release deletes the releaser's
      own record and no other. */
  lemma ReleaseDeletesOwnRecord(s: State, p: Proc, margin: int, delay: nat)
    requires delay <= margin && Reachable(s, margin, delay, false)
    ensures forall q: Proc :: !PhaseOf(s, q).Reclaiming?
    ensures PhaseOf(s, p).Holding? ==>
      var lock := PhaseOf(s, p).lock;
      && lock.id in s.store && s.store[lock.id] == lock && lock.owner == p
      && Apply(s, Release(p)).Some?
      && Apply(s, Release(p)).value.store == map id | id in s.store && s.store[id].owner != p :: s.store[id]
  {
    ReachableKeepsInvariant(s, margin, delay);
  }

  /** A holder that crashes leaves its record behind; then no bound on tests and margins helps: of two
      reclaimers that saw the orphan, the slower deletes the record of the faster. */
  lemma CrashDefeatsEveryBound(margin: int, delay: nat) returns (s: State)
    ensures Reachable(s, margin, delay, true) && !Exclusive(s)
  {
    var a := if margin < 0 then 1 else margin + 1;
    var h: seq<Step> := [];
    var s1;
    h, s1 := Enter(h, INIT, 0, "", a, margin, delay, true);
    var s2 := Become(s1, 0, Idle);
    h := Go(h, s1, Crash(0), s2, margin, delay, true);
    var s3 := s2.(now := a + 1);
    h := Go(h, s2, Tick(a + 1), s3, margin, delay, true);
    var s4;
    h, s4 := SeeRecord(h, s3, 1, "", a, margin, delay, true);
    var s5;
    h, s5 := SeeRecord(h, s4, 2, "", a, margin, delay, true);
    var s6;
    h, s6 := MoveIn(h, s5, 1, margin, delay, true);
    h, s := MoveIn(h, s6, 2, margin, delay, true);
    assert PhaseOf(s, 1).Holding? && PhaseOf(s, 2).Holding?;
  }

  lemma Snoc(h: seq<Step>, s: State, step: Step, t: State) returns (k: seq<Step>)
    requires After(h) == Some(s) && Apply(s, step) == Some(t)
    ensures k == h + [step] && After(k) == Some(t)
  {
    k := h + [step];
    assert k[..|h|] == h;
  }

  /** The lock that a process carries is the one it last created, with the expiry it was given then. */
  lemma {:induction false} LockSinceCreate(h: seq<Step>, i: nat)
    requires i < |h| && h[i].Create? && After(h).Some?
    requires forall j :: i < j < |h| && h[j].Create? ==> h[j].p != h[i].p
    ensures After(h[..i]).Some?
    ensures var phase, created := PhaseOf(After(h).value, h[i].p), After(h[..i]).value.now;
      var expiry := if h[i].validity > 0 then Some(created + h[i].validity) else None;
      phase.Idle? || phase.lock == Lock(h[i].id, h[i].p, expiry)
  {
    var front, last := h[..|h| - 1], h[|h| - 1];
    if i < |h| - 1 {
      assert front[..i] == h[..i];
      LockSinceCreate(front, i);
      OthersUntouched(After(front).value, last, After(h).value);
    }
  }

  /** Since the expiry is fixed when the lock is created, the record of a process that gets in has expired by then
      if and only if it has been longer than the validity since the creation, for every history. */
  lemma EntersExpiredExactlyWhenLate(h: seq<Step>, i: nat)
    requires i < |h| && h[i].Create? && h[i].validity > 0 && After(h).Some?
    requires forall j :: i < j < |h| && h[j].Create? ==> h[j].p != h[i].p
    requires h[|h| - 1] == Insert(h[i].p) && PhaseOf(After(h).value, h[i].p).Holding?
    ensures After(h[..i]).Some? && h[i].id in After(h).value.store
    ensures var s := After(h).value;
      && s.store[h[i].id] == PhaseOf(s, h[i].p).lock
      && (Expired(s.store[h[i].id], s.now) <==> s.now - After(h[..i]).value.now > h[i].validity)
  {
    LockSinceCreate(h, i);
  }

  lemma RefusedWaiter(validity: int) returns (h: seq<Step>, s: State)
    requires 0 < validity
    ensures After(h) == Some(s)
    ensures var other, lock := Lock("", 1, None), Lock("", 0, Some(validity));
      s == State(0, map["" := other], map[1 := Holding(other), 0 := Inserting(lock, true, true)])
  {
    var other, lock := Lock("", 1, None), Lock("", 0, Some(validity));
    var s1 := Become(INIT, 1, Inserting(other, true, false));
    h := Snoc([], INIT, Create(1, "", 0), s1);
    var s2 := Become(s1.(store := s1.store["" := other]), 1, Holding(other));
    h := Snoc(h, s1, Insert(1), s2);
    var s3 := Become(s2, 0, Inserting(lock, true, false));
    h := Snoc(h, s2, Create(0, "", validity), s3);
    s := Become(s3, 0, Inserting(lock, true, true));
    h := Snoc(h, s3, Insert(0), s);
  }

  /** And it does happen: a process that is refused at first and waits longer than its own validity can get in.
      The lock of charging stations has half its waiting time. */
  lemma WaiterCanEnterExpired(validity: int, wait: nat) returns (h: seq<Step>, s: State)
    requires 0 < validity < wait
    ensures After(h) == Some(s) && h != [] && h[|h| - 1] == Insert(0)
    ensures PhaseOf(s, 0).Holding? && s.store == map["" := PhaseOf(s, 0).lock] && Expired(PhaseOf(s, 0).lock, s.now)
  {
    var s1;
    h, s1 := RefusedWaiter(validity);
    var lock := PhaseOf(s1, 0).lock;
    var s2 := s1.(now := wait);
    h := Snoc(h, s1, Tick(wait), s2);
    var s3 := Become(s2.(store := s2.store - {""}), 1, Idle);
    h := Snoc(h, s2, Release(1), s3);
    s := Become(s3.(store := s3.store["" := lock]), 0, Holding(lock));
    h := Snoc(h, s3, Insert(0), s);
  }

  // ---------------------------------------------------------------------------------------------
  // The variant in which read, test and delete are one database action. Processes may crash anywhere.

  /** Histories of the atomic variant in which every live holder keeps `margin` in reserve. */
  ghost predicate AtomicRun(steps: seq<Step>, margin: int) {
    steps != [] ==>
      var front, last := steps[..|steps| - 1], steps[|steps| - 1];
      && AtomicRun(front, margin)
      && After(steps).Some?
      && !last.Read? && !last.Test? && !last.Reclaim?
      && HoldersInTime(After(steps).value, margin)
  }

  ghost predicate AtomicInvariant(s: State) {
    && OwnersStored(s)
    && (forall p: Proc :: !PhaseOf(s, p).Reclaiming? && !PhaseOf(s, p).Testing?)
  }

  lemma {:induction false} AtomicRunKeepsInvariant(steps: seq<Step>, margin: int)
    requires 0 <= margin && AtomicRun(steps, margin)
    ensures After(steps).Some? && AtomicInvariant(After(steps).value) && HoldersInTime(After(steps).value, margin)
  {
    if steps != [] {
      var front, last := steps[..|steps| - 1], steps[|steps| - 1];
      AtomicRunKeepsInvariant(front, margin);
      OthersUntouched(After(front).value, last, After(steps).value);
    }
  }

  predicate HolderInTime(s: State, p: Proc, margin: int) {
    match PhaseOf(s, p)
    case Holding(lock) => lock.expiry.Some? ==> s.now + margin <= lock.expiry.value
    case _ => true
  }

  lemma StaysInTimeAtomic(s: State, step: Step, t: State, margin: int)
    requires Apply(s, step) == Some(t) && !step.Tick? && HoldersInTime(s, margin) && HolderInTime(t, step.p, margin)
    ensures HoldersInTime(t, margin)
  {
    OthersUntouched(s, step, t);
  }

  /** Takes one more step at the end of a run of the atomic variant. */
  lemma GoAtomic(h: seq<Step>, s: State, step: Step, t: State, margin: int) returns (k: seq<Step>)
    requires AtomicRun(h, margin) && After(h) == Some(s) && Apply(s, step) == Some(t)
    requires !step.Read? && !step.Test? && !step.Reclaim?
    requires if step.Tick? then HoldersInTime(t, margin) else HolderInTime(t, step.p, margin)
    ensures AtomicRun(k, margin) && After(k) == Some(t)
  {
    k := h + [step];
    assert k[..|h|] == h;
    if !step.Tick? {
      StaysInTimeAtomic(s, step, t, margin);
    }
  }

  /** A holder overstays its expiry by as much as a negative margin lets it. */
  lemma Overstay(margin: int) returns (h: seq<Step>, s: State)
    requires margin < 0
    ensures AtomicRun(h, margin) && After(h) == Some(s)
    ensures var lock := Lock("", 0, Some(1)); s == State(2, map["" := lock], map[0 := Holding(lock)])
  {
    var lock := Lock("", 0, Some(1));
    var s1 := Become(INIT, 0, Inserting(lock, true, false));
    h := GoAtomic([], INIT, Create(0, "", 1), s1, margin);
    var s2 := Become(s1.(store := s1.store["" := lock]), 0, Holding(lock));
    h := GoAtomic(h, s1, Insert(0), s2, margin);
    assert s2.procs == map[0 := Holding(lock)];
    s := s2.(now := 2);
    h := GoAtomic(h, s2, Tick(2), s, margin);
  }

  /** A process is refused an id whose record has expired, and is about to look at that record. */
  lemma RefusedByExpired(h: seq<Step>, s: State, p: Proc, lock: Lock, margin: int) returns (k: seq<Step>, t: State)
    requires AtomicRun(h, margin) && After(h) == Some(s) && PhaseOf(s, p).Idle?
    requires lock.id in s.store && lock == Lock(lock.id, p, Some(s.now + 1))
    ensures AtomicRun(k, margin) && After(k) == Some(t) && t == Become(s, p, Reading(lock))
  {
    var s1 := Become(s, p, Inserting(lock, true, false));
    k := GoAtomic(h, s, Create(p, lock.id, 1), s1, margin);
    var s2 := Become(s1, p, Inserting(lock, true, true));
    k := GoAtomic(k, s1, Insert(p), s2, margin);
    t := Become(s2, p, Reading(lock));
    k := GoAtomic(k, s2, GiveUp(p), t, margin);
    assert t.procs == s.procs[p := Reading(lock)];
  }

  /** A second process finds the record expired, and moves in. */
  lemma OverstayBreaksExclusion(margin: int) returns (h: seq<Step>)
    requires margin < 0
    ensures AtomicRun(h, margin) && !Exclusive(After(h).value)
  {
    var s, s1;
    h, s := Overstay(margin);
    var lock := Lock("", 1, Some(3));
    h, s1 := RefusedByExpired(h, s, 1, lock, margin);
    var s2 := Become(s1.(store := s1.store - {""}), 1, Inserting(lock, false, false));
    h := GoAtomic(h, s1, AtomicReclaim(1), s2, margin);
    var s3 := Become(s2.(store := s2.store["" := lock]), 1, Holding(lock));
    h := GoAtomic(h, s2, Insert(1), s3, margin);
    assert PhaseOf(s3, 0).Holding? && PhaseOf(s3, 1).Holding?;
  }

  /** With an atomic reclaim crashes do no harm: leases exclude each other, and every live holder's own
      record is the stored one, in every run, if and only if live holders never outstay their expiry. */
  lemma AtomicExclusionExactlyWhenInTime(margin: int)
    ensures (forall steps ::
      AtomicRun(steps, margin) ==> Exclusive(After(steps).value) && OwnersStored(After(steps).value))
      <==> 0 <= margin
  {
    if 0 <= margin {
      forall steps | AtomicRun(steps, margin)
        ensures Exclusive(After(steps).value) && OwnersStored(After(steps).value)
      {
        AtomicRunKeepsInvariant(steps, margin);
      }
    } else {
      var h := OverstayBreaksExclusion(margin);
    }
  }
}
