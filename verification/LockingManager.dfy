/**
 The locking manager as one process runs it. The object keeps the history of the database and clock as
 a list of protocol steps: the manager's own actions, and in between whatever the other processes and
 the clock do. Whatever is proved of all runs of the protocol therefore holds of this code.
*/
module LockingManager {
  import opened Options
  import opened LeaseProtocol
  import LockIdentity
  import Strings

  const LOCK_WAIT_MILLIS := 1000

  predicate OnlyOthers(steps: seq<Step>, me: Proc) {
    forall step :: step in steps ==> step.Tick? || step.p != me
  }

  /** What others do leaves this process where it stands, and never turns the clock back. */
  lemma {:induction false} OthersHistory(before: seq<Step>, steps: seq<Step>, me: Proc)
    requires After(before + steps).Some? && OnlyOthers(steps, me)
    ensures After(before).Some?
    ensures PhaseOf(After(before + steps).value, me) == PhaseOf(After(before).value, me)
    ensures After(before).value.now <= After(before + steps).value.now
  {
    if steps == [] {
      assert before + steps == before;
    } else {
      var front, last := steps[..|steps| - 1], steps[|steps| - 1];
      assert before + steps == (before + front) + [last];
      AfterSnoc(before + front, last);
      OthersHistory(before, front, me);
      OthersUntouched(After(before + front).value, last, After(before + steps).value);
    }
  }

  /** A history continues another, and in what it adds the process neither crashes nor takes the step of the
      atomic variant, which is not in the code. */
  ghost predicate Continues(before: seq<Step>, after: seq<Step>, me: Proc) {
    && before <= after
    && forall i :: |before| <= i < |after| && !after[i].Tick? && after[i].p == me
         ==> !after[i].Crash? && !after[i].AtomicReclaim?
  }

  /** The time after a history. */
  ghost function TimeOf(h: seq<Step>): int {
    if After(h).Some? then After(h).value.now else 0
  }

  predicate IsOwn(step: Step, me: Proc) {
    !step.Tick? && step.p == me
  }

  /** Where the attempt under way at position i began: at the start, or where a record was last reclaimed. */
  ghost function BeganAt(start: nat, h: seq<Step>, me: Proc, i: nat): (j: nat)
    requires start <= i <= |h|
    ensures start <= j <= i
  {
    if i == start then start
    else if h[i - 1] == Reclaim(me) then i
    else BeganAt(start, h, me, i - 1)
  }

  /** In what a history adds to another, the process gives up no earlier than the timeout after its attempt began. */
  ghost predicate WaitsOut(before: seq<Step>, after: seq<Step>, me: Proc, timeoutMillis: int) {
    before <= after && forall i :: |before| <= i < |after| && after[i] == GiveUp(me) ==>
      TimeOf(after[..BeganAt(|before|, after, me, i)]) + timeoutMillis <= TimeOf(after[..i])
  }

  /** In what it adds, the process never gives up. */
  ghost predicate NoGiveUp(before: seq<Step>, after: seq<Step>, me: Proc) {
    before <= after && forall i :: |before| <= i < |after| ==> after[i] != GiveUp(me)
  }

  lemma NoGiveUpBoth(a: seq<Step>, b: seq<Step>, c: seq<Step>, me: Proc)
    requires NoGiveUp(a, b, me) && NoGiveUp(b, c, me)
    ensures NoGiveUp(a, c, me)
  {
  }

  lemma {:induction false} BeganAtStart(start: nat, h: seq<Step>, me: Proc, i: nat)
    requires start <= i <= |h| && forall k :: start <= k < i ==> h[k] != Reclaim(me)
    ensures BeganAt(start, h, me, i) == start
  {
    if i > start {
      BeganAtStart(start, h, me, i - 1);
    }
  }

  lemma {:induction false} BeganInPrefix(start: nat, h: seq<Step>, longer: seq<Step>, me: Proc, i: nat)
    requires start <= i <= |h| && h <= longer
    ensures BeganAt(start, longer, me, i) == BeganAt(start, h, me, i)
  {
    if i > start {
      BeganInPrefix(start, h, longer, me, i - 1);
    }
  }

  lemma {:induction false} BeganAfterReclaim(start: nat, mid: nat, h: seq<Step>, me: Proc, i: nat)
    requires start < mid <= i <= |h| && h[mid - 1] == Reclaim(me)
    ensures BeganAt(start, h, me, i) == BeganAt(mid, h, me, i)
  {
    if i > mid {
      BeganAfterReclaim(start, mid, h, me, i - 1);
    }
  }

  /** The process does nothing but insert. */
  ghost predicate OnlyInserts(before: seq<Step>, after: seq<Step>, me: Proc) {
    before <= after && forall i :: |before| <= i < |after| && IsOwn(after[i], me) ==> after[i] == Insert(me)
  }

  /** What is hashed into the lock id of a scheduled task. */
  function TaskLockString(name: string): string {
    LockIdentity.IdentityString(LockIdentity.DEFAULT_TENANT, LockIdentity.SCHEDULER_TASK, name, LockIdentity.EXCLUSIVE)
  }

  lemma OneInsert(before: seq<Step>, mid: seq<Step>, after: seq<Step>, me: Proc)
    requires OnlyInserts(before, mid, me) && Continues(before, mid, me) && after == mid + [Insert(me)]
    ensures OnlyInserts(before, after, me) && Continues(before, after, me)
  {
  }

  /** An attempt that lasts until its timeout, and is given up then. */
  lemma OneGiveUp(before: seq<Step>, tried: seq<Step>, after: seq<Step>, me: Proc, timeoutMillis: int)
    requires OnlyInserts(before, tried, me) && tried + [GiveUp(me)] <= after
    requires NoGiveUp(tried + [GiveUp(me)], after, me) && TimeOf(before) + timeoutMillis <= TimeOf(tried)
    ensures WaitsOut(before, after, me, timeoutMillis)
  {
    assert forall k :: |before| <= k < |tried| ==> after[k] == tried[k] && tried[k] != GiveUp(me);
    forall i | |before| <= i < |after| && after[i] == GiveUp(me)
      ensures TimeOf(after[..BeganAt(|before|, after, me, i)]) + timeoutMillis <= TimeOf(after[..i])
    {
      assert i == |tried|;
      assert after[..i] == tried && after[..|before|] == before;
      BeganInPrefix(|before|, tried, after, me, i);
      BeganAtStart(|before|, tried, me, i);
    }
  }

  /** One attempt, a reclaim, and another. */
  lemma WaitsOutTwice(before: seq<Step>, reclaimed: seq<Step>, after: seq<Step>, me: Proc, timeoutMillis: int)
    requires WaitsOut(before, reclaimed, me, timeoutMillis) && WaitsOut(reclaimed, after, me, timeoutMillis)
    requires before < reclaimed && reclaimed[|reclaimed| - 1] == Reclaim(me)
    ensures WaitsOut(before, after, me, timeoutMillis)
  {
    forall i | |before| <= i < |after| && after[i] == GiveUp(me)
      ensures TimeOf(after[..BeganAt(|before|, after, me, i)]) + timeoutMillis <= TimeOf(after[..i])
    {
      if i < |reclaimed| {
        BeganInPrefix(|before|, reclaimed, after, me, i);
        assert reclaimed[i] == after[i] && after[..i] == reclaimed[..i];
        var j := BeganAt(|before|, reclaimed, me, i);
        assert after[..j] == reclaimed[..j];
      } else {
        assert after[|reclaimed| - 1] == reclaimed[|reclaimed| - 1];
        BeganAfterReclaim(|before|, |reclaimed|, after, me, i);
      }
    }
  }

  lemma TaskLockIs(name: string)
    ensures TaskLockString(name) == "default~scheduler-task~" + Strings.ToLower(name) + "~E"
  {
    assert "default" + "~" + "scheduler-task" + "~" == "default~scheduler-task~";
    assert "~" + "E" == "~E";
  }

  class LockingManager {
    const me: Proc
    const hash: string -> string
    var steps: seq<Step>
    ghost var inserts: nat
    /** How long it has slept by its own wish, in milliseconds. */
    ghost var slept: nat
    ghost var inserted: bool
    /** When the lock in hand was created, how long it is valid, and when its insert was last asked for. */
    ghost var createdAt: int
    ghost var validity: int
    ghost var askedAt: int

    ghost predicate Valid() reads this {
      After(steps).Some?
    }

    function World(): State
      requires Valid()
      reads this
    {
      After(steps).value
    }

    function Phase(): Phase
      requires Valid()
      reads this
    {
      PhaseOf(World(), me)
    }

    /** The expiry of the lock in hand is that of its creation. */
    ghost predicate Dated()
      requires Valid()
      reads this
    {
      Phase().Idle? || Phase().lock.expiry == if validity > 0 then Some(createdAt + validity) else None
    }

    /** A lock that the process has got has expired by now exactly when it is longer than its validity since its
        creation. */
    ghost predicate ExpiredExactlyWhenLate()
      requires Valid()
      reads this
    {
      Phase().Holding? && validity > 0 ==> (Expired(Phase().lock, World().now) <==> World().now - createdAt > validity)
    }

    lemma DatedTellsLateness()
      requires Valid() && Dated()
      ensures ExpiredExactlyWhenLate()
    {
    }

    constructor (me: Proc, hash: string -> string)
      ensures Valid() && World() == INIT && this.me == me && this.hash == hash
    {
      this.me, this.hash, steps := me, hash, [];
      inserts, slept, inserted := 0, 0, false;
    }

    /** Any number of steps of other processes, and any delay. */
    method Others()
      requires Valid()
      modifies `steps
      ensures Valid() && Continues(old(steps), steps, me) && OnlyInserts(old(steps), steps, me)
      ensures forall i :: |old(steps)| <= i < |steps| ==> !IsOwn(steps[i], me)
      ensures Phase() == old(Phase()) && old(World().now) <= World().now
    {
      var e: seq<Step> := *;
      if After(steps + e).Some? && OnlyOthers(e, me) {
        OthersHistory(steps, e, me);
        steps := steps + e;
      }
    }

    /** One of this process's own database actions. */
    method Do(step: Step)
      requires Valid() && Apply(World(), step).Some?
      requires step.Tick? || (step.p == me && !step.Crash? && !step.AtomicReclaim?)
      modifies `steps
      ensures Valid() && steps == old(steps) + [step]
      ensures World() == Apply(old(World()), step).value
    {
      AfterSnoc(steps, step);
      steps := steps + [step];
    }

    /** Sleeps for at least the wait time. */
    method Sleep()
      requires Valid()
      modifies `steps, `slept
      ensures Valid() && Continues(old(steps), steps, me) && OnlyInserts(old(steps), steps, me)
      ensures Phase() == old(Phase()) && old(World().now) + LOCK_WAIT_MILLIS <= World().now
      ensures slept == old(slept) + LOCK_WAIT_MILLIS
    {
      Others();
      Do(Tick(LOCK_WAIT_MILLIS));
      Others();
      slept := slept + LOCK_WAIT_MILLIS;
    }

    /** Starts out with a new lock object. */
    method Carry(id: LockId, validityMillis: int)
      requires Valid() && Phase().Idle?
      modifies `steps
      ensures Valid() && Continues(old(steps), steps, me) && World().now == old(World().now)
      ensures var expiry := if validityMillis > 0 then Some(World().now + validityMillis) else None;
        Phase() == Inserting(Lock(id, me, expiry), true, false)
    {
      Do(Create(me, id, validityMillis));
    }

    /** Creates a lock object, if tenant and key are given; false stands for the exception. Nothing is stored yet,
        and the expiry counts from now. */
    method CreateLock(tenantID: string, entity: LockIdentity.LockEntity, key: string, validitySecs: int)
      returns (ok: bool)
      requires Valid() && Phase().Idle?
      modifies `steps, `createdAt, `validity
      ensures Valid() && Continues(old(steps), steps, me) && Dated()
      ensures old(World().now) <= createdAt == World().now && validity == validitySecs * 1000
      ensures var created :=
          LockIdentity.CreateLock(hash, tenantID, entity, key, LockIdentity.EXCLUSIVE, validitySecs, createdAt);
        match created
        case Ok(lock) => ok && Phase() == Inserting(Lock(lock.id, me, lock.expirationDate), true, false)
        case _ => !ok && Phase() == Idle
    {
      Others();
      createdAt, validity := World().now, validitySecs * 1000;
      var created :=
        LockIdentity.CreateLock(hash, tenantID, entity, key, LockIdentity.EXCLUSIVE, validitySecs, World().now);
      ok := created.Ok?;
      if ok {
        Carry(created.lock.id, validitySecs * 1000);
      }
    }

    /** The insert into the collection; false when the id is taken. */
    method TryInsert() returns (ok: bool)
      requires Valid() && Phase().Inserting?
      modifies `steps
      ensures Valid() && steps == old(steps) + [Insert(me)] && World().now == old(World().now)
      ensures ok == (old(Phase().lock.id) !in old(World().store))
      ensures var lock := old(Phase().lock);
        if ok then Phase() == Holding(lock) && lock.id in World().store && World().store[lock.id] == lock
        else Phase() == Inserting(lock, old(Phase().retry), true)
    {
      ok := Phase().lock.id !in World().store;
      Do(Insert(me));
    }

    /** An attempt at inserting, some time after it was asked for. */
    method InsertLock() returns (ok: bool)
      requires Valid() && Phase().Inserting?
      modifies `steps, `inserts, `inserted, `askedAt
      ensures Valid() && Continues(old(steps), steps, me) && askedAt == old(World().now) <= World().now
      ensures OnlyInserts(old(steps), steps, me)
      ensures old(Dated()) ==> Dated() && ExpiredExactlyWhenLate()
      ensures inserts == old(inserts) + 1 && inserted == ok
      ensures var lock := old(Phase().lock);
        if ok then Phase() == Holding(lock) && lock.id in World().store && World().store[lock.id] == lock
        else Phase() == Inserting(lock, old(Phase().retry), true)
    {
      askedAt := World().now;
      Others();
      ghost var mid := steps;
      ok := TryInsert();
      OneInsert(old(steps), mid, steps, me);
      inserts, inserted := inserts + 1, ok;
      if Dated() {
        DatedTellsLateness();
      }
    }

    /** Tries until the timeout, or once without one; each insert that is refused before the timeout is followed by a
        second's sleep and, unless the timeout has come, by another insert. False stands for the exception, and comes no
        earlier than the timeout. No insert is asked for later than that; whether the record of one that succeeds has
        expired by then is told from the creation. */
    method AcquireExclusiveLock(timeoutSecs: int) returns (ok: bool)
      requires Valid() && Phase().Inserting?
      modifies `steps, `inserts, `slept, `inserted, `askedAt
      ensures Valid() && OnlyInserts(old(steps), steps, me) && old(World().now) <= World().now
      ensures !ok && timeoutSecs > 0 ==> old(World().now) + timeoutSecs * 1000 <= World().now
      ensures slept - old(slept)
        == if timeoutSecs <= 0 then 0 else 1000 * (inserts - old(inserts) - (if ok then 1 else 0))
      ensures old(World().now) <= askedAt <= old(World().now) + (if timeoutSecs > 0 then timeoutSecs * 1000 else 0)
      ensures Valid() && Continues(old(steps), steps, me) && inserted == ok
      ensures old(Dated()) ==> Dated() && ExpiredExactlyWhenLate()
      ensures old(inserts) < inserts <= old(inserts) + (if timeoutSecs > 0 then timeoutSecs else 1)
      ensures var lock := old(Phase().lock);
        if ok then Phase() == Holding(lock) && lock.id in World().store && World().store[lock.id] == lock
        else Phase() == Inserting(lock, old(Phase().retry), true)
    {
      ghost var begin := World().now;
      if timeoutSecs > 0 {
        var deadline := World().now + timeoutSecs * 1000;
        while true
          invariant inserts > old(inserts) ==> begin <= askedAt < deadline
          invariant Valid() && Continues(old(steps), steps, me) && old(inserts) <= inserts
          invariant OnlyInserts(old(steps), steps, me) && slept - old(slept) == 1000 * (inserts - old(inserts))
          invariant Phase().Inserting? && Phase().lock == old(Phase().lock) && Phase().retry == old(Phase().retry)
          invariant begin + LOCK_WAIT_MILLIS * (inserts - old(inserts)) <= World().now < deadline
          decreases deadline - World().now
        {
          ok := InsertLock();
          if ok {
            return;
          }
          Sleep();
          if World().now >= deadline {
            break;
          }
        }
        ok := false;
      } else {
        ok := InsertLock();
      }
    }

    /** Deletes the stored record of the process's lock, whoever it belongs to; tells whether there was one. */
    method ReleaseLock() returns (existed: bool)
      requires Valid() && (Phase().Holding? || Phase().Reclaiming?)
      modifies `steps
      ensures Valid() && Continues(old(steps), steps, me) && steps != []
      ensures steps[|steps| - 1] == if old(Phase().Holding?) then Release(me) else Reclaim(me)
      ensures NoGiveUp(old(steps), steps, me) && old(steps) <= steps[..|steps| - 1]
      ensures existed == (old(Phase().lock.id) in After(steps[..|steps| - 1]).value.store)
      ensures old(Phase().lock.id) !in World().store
      ensures Phase() == if old(Phase().Holding?) then Idle else Inserting(old(Phase().lock), false, false)
    {
      Others();
      existed := Phase().lock.id in World().store;
      ghost var before := steps;
      Do(if Phase().Holding? then Release(me) else Reclaim(me));
      assert steps[..|steps| - 1] == before;
    }

    /** Reads the record stored under the lock's id, if any. */
    method GetLock() returns (ghost read: seq<Step>)
      requires Valid() && Phase().Reading?
      modifies `steps
      ensures Valid() && Continues(old(steps), steps, me)
      ensures old(steps) <= read && After(read).Some? && steps == read + [Read(me)]
      ensures NoGiveUp(old(steps), steps, me)
      ensures var lock, w := old(Phase().lock), After(read).value;
        Phase() == Testing(lock, if lock.id in w.store then Some(w.store[lock.id]) else None, w.now)
    {
      Others();
      read := steps;
      Do(Read(me));
    }

    /** Tests whether the record that was read has expired by now. */
    method IsExpired() returns (expired: bool, ghost tested: seq<Step>)
      requires Valid() && Phase().Testing?
      modifies `steps
      ensures Valid() && Continues(old(steps), steps, me)
      ensures old(steps) <= tested && After(tested).Some? && steps == tested + [Test(me)]
      ensures NoGiveUp(old(steps), steps, me)
      ensures PhaseOf(After(tested).value, me) == old(Phase())
      ensures var seen := old(Phase().seen); expired == (seen.Some? && Expired(seen.value, After(tested).value.now))
      ensures Phase() == if expired then Reclaiming(old(Phase().lock)) else Idle
    {
      Others();
      tested := steps;
      Do(Test(me));
      expired := Phase().Reclaiming?;
    }

    /** Reads the record in the way and tests its expiry, which are two actions. */
    method ReadAndTest() returns (expired: bool, ghost tested: seq<Step>)
      requires Valid() && Phase().Reading?
      modifies `steps
      ensures Valid() && Continues(old(steps), steps, me) && NoGiveUp(old(steps), steps, me)
      ensures After(tested).Some? && PhaseOf(After(tested).value, me).Testing? && steps == tested + [Test(me)]
      ensures var s := After(tested).value; var seen := PhaseOf(s, me).seen;
        expired <==> seen.Some? && Expired(seen.value, s.now)
      ensures Phase() == if expired then Reclaiming(old(Phase().lock)) else Idle
    {
      var _ := GetLock();
      ghost var read := steps;
      expired, tested := IsExpired();
      NoGiveUpBoth(old(steps), read, steps, me);
    }

    /** Reads the record in the way, tests its expiry, and deletes it if expired: three separate actions. It is
        deleted exactly when the record that was read, if any, is expired at the time of the test. */
    method CheckAndReleaseExpiredLock() returns (released: bool, ghost tested: seq<Step>)
      requires Valid() && Phase().Reading?
      modifies `steps
      ensures Valid() && Continues(old(steps), steps, me)
      ensures Phase() == if released then Inserting(old(Phase().lock), false, false) else Idle
      ensures After(tested).Some? && PhaseOf(After(tested).value, me).Testing? && tested + [Test(me)] <= steps
      ensures var s := After(tested).value; var seen := PhaseOf(s, me).seen;
        released <==> seen.Some? && Expired(seen.value, s.now)
      ensures released ==> old(Phase().lock.id) !in World().store
      ensures NoGiveUp(old(steps), steps, me) && (released ==> steps[|steps| - 1] == Reclaim(me))
    {
      released, tested := ReadAndTest();
      if released {
        ghost var marked := steps;
        var _ := ReleaseLock();
        NoGiveUpBoth(old(steps), marked, steps, me);
      }
    }

    /** After a failed attempt: looks at the record in the way, if a retry is still allowed, and tells whether it was
        expired and has been deleted. */
    method GiveUpOrReclaim() returns (again: bool)
      requires Valid() && Phase().Inserting? && Phase().failed
      modifies `steps
      ensures Valid() && Continues(old(steps), steps, me)
      ensures old(steps) + [GiveUp(me)] <= steps && NoGiveUp(old(steps) + [GiveUp(me)], steps, me)
      ensures again ==> steps[|steps| - 1] == Reclaim(me)
      ensures Phase() == if again then Inserting(old(Phase().lock), false, false) else Idle
      ensures again ==> old(Phase().retry)
    {
      Do(GiveUp(me));
      again := false;
      if Phase().Reading? {
        ghost var tested;
        again, tested := CheckAndReleaseExpiredLock();
      }
    }

    /** If this history is within the bounds of the lease, nobody else holds the id that this process holds. */
    ghost predicate AloneInTimedRuns()
      requires Valid() && Phase().Holding?
      reads this
    {
      forall margin: int, delay: nat, q: Proc ::
        delay <= margin && TimedRun(steps, margin, delay, false) && q != me && PhaseOf(World(), q).Holding? ==>
          PhaseOf(World(), q).lock.id != Phase().lock.id
    }

    lemma HolderIsAlone()
      requires Valid() && Phase().Holding?
      ensures AloneInTimedRuns()
    {
      forall margin: int, delay: nat | delay <= margin && TimedRun(steps, margin, delay, false)
        ensures Exclusive(World())
      {
        RunKeepsInvariant(steps, margin, delay);
      }
    }

    /** Acquires the lock, retrying once after reclaiming an expired one. It makes at most twice
        `max(1, timeoutSecs)` inserts, returns true exactly when the last of them succeeded, and then
        no other process holds the id, in every run that meets the time bounds. */
    method Acquire(timeoutSecs: int, retry: bool) returns (ok: bool)
      requires Valid() && Phase().Inserting? && Phase().retry == retry
      modifies `steps, `inserts, `slept, `inserted, `askedAt
      ensures Valid() && Continues(old(steps), steps, me) && inserted == ok
      ensures WaitsOut(old(steps), steps, me, if timeoutSecs > 0 then timeoutSecs * 1000 else 0)
      ensures old(Dated()) ==> Dated() && ExpiredExactlyWhenLate()
      ensures old(inserts) < inserts
      ensures inserts <= old(inserts) + (if retry then 2 else 1) * (if timeoutSecs > 0 then timeoutSecs else 1)
      ensures var lock := old(Phase().lock);
        if ok then Phase() == Holding(lock) && lock.id in World().store && World().store[lock.id] == lock
        else Phase() == Idle
      ensures ok ==> AloneInTimedRuns()
      decreases retry
    {
      ok := AcquireExclusiveLock(timeoutSecs);
      if ok {
        HolderIsAlone();
        return;
      }
      ghost var timeoutMillis := if timeoutSecs > 0 then timeoutSecs * 1000 else 0;
      ghost var tried := steps;
      var again := GiveUpOrReclaim();
      OneGiveUp(old(steps), tried, steps, me, timeoutMillis);
      if again {
        ghost var reclaimed := steps;
        ok := Acquire(timeoutSecs, false);
        WaitsOutTwice(old(steps), reclaimed, steps, me, timeoutMillis);
      }
    }

    /** One of the hooks of a scheduled run, which needs the lock; `at` is the history at which it runs. */
    method RunHook(fails: bool) returns (ok: bool, ghost at: seq<Step>)
      requires Valid() && Phase().Holding?
      modifies `steps
      ensures Valid() && Continues(old(steps), steps, me) && Phase() == old(Phase())
      ensures ok == !fails && old(steps) <= at <= steps && HoldsAt(at, Phase().lock)
    {
      Others();
      at := steps;
      ok := !fails;
    }

    /** After a history the process holds a lock. */
    ghost predicate HoldsAt(h: seq<Step>, lock: Lock) {
      After(h).Some? && PhaseOf(After(h).value, me) == Holding(lock)
    }

    /** The lock of a scheduled run: that of its name for fifteen minutes, tried for without waiting. Without a name it
        is not tried for; otherwise it is got exactly when the last insert succeeds. */
    method AcquireTaskLock(name: string) returns (acquired: bool)
      requires Valid() && Phase().Idle?
      modifies this
      ensures Valid() && Continues(old(steps), steps, me)
      ensures if acquired then Phase().Holding? else Phase().Idle?
      ensures name == "" ==> !acquired
      ensures name != "" ==> acquired == inserted && old(inserts) < inserts <= old(inserts) + 2
      ensures acquired ==> Phase().lock.id == hash(TaskLockString(name))
      ensures acquired ==> Phase().lock.expiry == Some(createdAt + 900000) && old(World().now) <= createdAt
      ensures acquired ==> AloneInTimedRuns()
    {
      acquired := CreateLock(LockIdentity.DEFAULT_TENANT, LockIdentity.SCHEDULER_TASK, name, 15 * 60);
      if acquired {
        acquired := Acquire(0, true);
      }
    }

    /** Runs the hooks in order, up to the first that fails. */
    method RunHooks(hookFails: seq<bool>) returns (hooksRun: nat, ghost ran: seq<seq<Step>>)
      requires Valid() && Phase().Holding?
      modifies `steps
      ensures Valid() && Continues(old(steps), steps, me) && Phase() == old(Phase())
      ensures HooksRun(old(steps), steps, hookFails, hooksRun, ran, Phase().lock)
    {
      hooksRun, ran := 0, [];
      var failed := false;
      while hooksRun < |hookFails| && !failed
        invariant Valid() && Continues(old(steps), steps, me) && Phase() == old(Phase()) && hooksRun <= |hookFails|
        invariant forall i :: 0 <= i < hooksRun - 1 ==> !hookFails[i]
        invariant if failed then hooksRun > 0 && hookFails[hooksRun - 1] else hooksRun > 0 ==> !hookFails[hooksRun - 1]
        invariant |ran| == hooksRun
        invariant forall i :: 0 <= i < hooksRun ==> old(steps) <= ran[i] <= steps && HoldsAt(ran[i], Phase().lock)
        invariant forall i, j :: 0 <= i < j < hooksRun ==> ran[i] <= ran[j]
        decreases |hookFails| - hooksRun
      {
        var ok;
        ghost var at;
        ok, at := RunHook(hookFails[hooksRun]);
        failed, ran := !ok, ran + [at];
        hooksRun := hooksRun + 1;
      }
    }

    /** The hooks that have run are those up to the first that fails, in order, each while the lock was held. */
    ghost predicate HooksRun(before: seq<Step>, after: seq<Step>, hookFails: seq<bool>, hooksRun: nat,
        ran: seq<seq<Step>>, lock: Lock) {
      && |ran| == hooksRun <= |hookFails|
      && (forall i :: 0 <= i < hooksRun - 1 ==> !hookFails[i])
      && (hooksRun < |hookFails| ==> hooksRun > 0 && hookFails[hooksRun - 1])
      && (forall i :: 0 <= i < hooksRun ==> before <= ran[i] <= after && HoldsAt(ran[i], lock))
      && (forall i, j :: 0 <= i < j < hooksRun ==> ran[i] <= ran[j])
    }

    /** Runs the hooks and gives the lock back. */
    method RunLocked(hookFails: seq<bool>) returns (hooksRun: nat, ghost ran: seq<seq<Step>>)
      requires Valid() && Phase().Holding?
      modifies `steps
      ensures Valid() && Continues(old(steps), steps, me) && Phase() == Idle
      ensures steps != [] && steps[|steps| - 1] == Release(me) && old(Phase().lock.id) !in World().store
      ensures HooksRun(old(steps), steps[..|steps| - 1], hookFails, hooksRun, ran, old(Phase().lock))
    {
      hooksRun, ran := RunHooks(hookFails);
      ghost var done := steps;
      var _ := ReleaseLock();
      assert done <= steps[..|steps| - 1];
    }

    /** A scheduled task: it runs exactly when the lock of its name is got; the hooks run only while that lock is held,
        a failing hook skips the ones after it, and the lock is given back on every path, as the last action. */
    method RunTask(name: string, hookFails: seq<bool>)
      returns (acquired: bool, hooksRun: nat, ghost lock: Lock, ghost ran: seq<seq<Step>>)
      requires Valid() && Phase().Idle?
      modifies this
      ensures Valid() && Continues(old(steps), steps, me) && Phase() == Idle
      ensures name == "" ==> !acquired
      ensures name != "" ==> acquired == inserted && old(inserts) < inserts <= old(inserts) + 2
      ensures !acquired ==> hooksRun == 0
      ensures acquired ==> steps != [] && steps[|steps| - 1] == Release(me) && lock.id == hash(TaskLockString(name))
      ensures acquired ==> lock.expiry == Some(createdAt + 900000) && lock.id !in World().store
      ensures acquired ==> HooksRun(old(steps), steps[..|steps| - 1], hookFails, hooksRun, ran, lock)
    {
      hooksRun, ran, lock := 0, [], Lock("", me, None);
      acquired := AcquireTaskLock(name);
      if acquired {
        lock := Phase().lock;
        ghost var got := steps;
        hooksRun, ran := RunLocked(hookFails);
        assert old(steps) <= got;
      }
    }
  }
}
