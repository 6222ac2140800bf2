/**
 One host's migration passes, as code that takes the protocol's steps one by one while other hosts take
 theirs. What a pass does to the stored log is stated outright, whatever the others do in between.
*/
module MigrationHandler {
  import opened Options
  import opened MigrationProtocol

  /** What will happen when a task is executed: its `migrate()` or its save may fail. */
  datatype Outcome = Succeeds | MigrateFails | SaveFails

  /** The entry a pass adds to the log for one task, if any. */
  ghost function AddedFor(t: Task, snapshot: seq<Entry>, asyncOnly: bool, outcome: Outcome): seq<Entry> {
    if Due(snapshot, t, asyncOnly) && outcome.Succeeds? then [Key(t)] else []
  }

  /** The entries a pass adds to the log for its first n tasks. */
  ghost function Added(tasks: seq<Task>, snapshot: seq<Entry>, asyncOnly: bool, outcomes: seq<Outcome>,
      n: nat): seq<Entry>
    requires n <= |tasks| == |outcomes|
  {
    if n == 0 then []
    else
      Added(tasks, snapshot, asyncOnly, outcomes, n - 1)
      + AddedFor(tasks[n - 1], snapshot, asyncOnly, outcomes[n - 1])
  }

  /** The migrations that complete in a pass among its first n tasks, whether or not they are recorded. */
  ghost function RunOf(tasks: seq<Task>, snapshot: seq<Entry>, asyncOnly: bool, outcomes: seq<Outcome>,
      n: nat): seq<Entry>
    requires n <= |tasks| == |outcomes|
  {
    if n == 0 then []
    else
      RunOf(tasks, snapshot, asyncOnly, outcomes, n - 1)
      + RunFor(tasks[n - 1], snapshot, asyncOnly, outcomes[n - 1])
  }

  ghost function RunFor(t: Task, snapshot: seq<Entry>, asyncOnly: bool, outcome: Outcome): seq<Entry> {
    if Due(snapshot, t, asyncOnly) && !outcome.MigrateFails? then [Key(t)] else []
  }

  lemma AddedOne(tasks: seq<Task>, snapshot: seq<Entry>, asyncOnly: bool, outcomes: seq<Outcome>, i: nat)
    requires i < |tasks| == |outcomes|
    ensures snapshot + Added(tasks, snapshot, asyncOnly, outcomes, i + 1)
      == snapshot + Added(tasks, snapshot, asyncOnly, outcomes, i)
         + AddedFor(tasks[i], snapshot, asyncOnly, outcomes[i])
  {
  }

  class MigrationHandler {
    const tasks: seq<Task>
    const log0: seq<Entry>
    const me: PassId
    var steps: seq<Step>

    ghost predicate Valid() reads this {
      DistinctTasks(tasks) && NoDuplicates(log0) && PlainNames(tasks, log0) && After(tasks, log0, steps).Some?
    }

    function World(): State
      requires Valid()
      reads this
    {
      After(tasks, log0, steps).value
    }

    function Phase(): Pass
      requires Valid()
      reads this
    {
      PassOf(World(), me)
    }

    constructor (tasks: seq<Task>, log0: seq<Entry>, me: PassId)
      requires DistinctTasks(tasks) && NoDuplicates(log0) && PlainNames(tasks, log0)
      ensures Valid() && World() == Init(log0) && Phase().Idle?
      ensures this.tasks == tasks && this.log0 == log0 && this.me == me
    {
      this.tasks, this.log0, this.me, steps := tasks, log0, me, [];
    }

    method Others()
      requires Valid()
      modifies `steps
      ensures Valid() && old(steps) <= steps && Phase() == old(Phase())
      ensures !Phase().Idle? ==> World().log == old(World().log) && World().completions == old(World().completions)
    {
      var e: seq<Step> := *;
      if After(tasks, log0, steps + e).Some? && forall step :: step in e ==> step.Reclaim? || step.p != me {
        OthersFrozen(tasks, log0, steps, e, me);
        steps := steps + e;
      }
    }

    method Do(step: Step)
      requires Valid() && Apply(tasks, World(), step).Some?
      requires step.Reclaim? || (!step.Crash? && step.p == me)
      modifies `steps
      ensures Valid() && steps == old(steps) + [step]
      ensures World() == Apply(tasks, old(World()), step).value
    {
      AfterSnoc(tasks, log0, steps, step);
      steps := steps + [step];
    }

    /** Runs `migrate()` of the task in hand. */
    method RunMigrate(ok: bool)
      requires Valid() && Phase().Executing?
      modifies `steps
      ensures Valid() && old(steps) <= steps && old(Phase().i) < |tasks|
      ensures World().log == old(World().log)
      ensures var pass := old(Phase());
        && Phase() == (
             if ok then Completed(pass.asyncOnly, pass.snapshot, pass.i)
             else Looping(pass.asyncOnly, pass.snapshot, pass.i + 1))
        && World().completions == old(World().completions) + (if ok then multiset{Key(tasks[pass.i])} else multiset{})
    {
      RunsOnlyWhenDue(tasks, log0, steps, me);
      Do(Step.Migrate(me, ok));
    }

    /** Records the migration that has just completed. */
    method SaveMigration(ok: bool)
      requires Valid() && Phase().Completed?
      modifies `steps
      ensures Valid() && old(steps) <= steps && old(Phase().i) < |tasks|
      ensures World().completions == old(World().completions)
      ensures var pass := old(Phase());
        && Phase() == Looping(pass.asyncOnly, pass.snapshot, pass.i + 1)
        && World().log == old(World().log) + (if ok then [Key(tasks[pass.i])] else [])
    {
      RunKeepsInvariant(tasks, log0, steps, Entry("", ""));
      UnrecordedCanBeSaved(tasks, log0, steps, tasks[Phase().i]);
      Do(Save(me, ok));
    }

    /** Executes one task: records it if both its migration and its save succeed, and survives either failure. */
    method ExecuteTask(outcome: Outcome)
      requires Valid() && Phase().Executing?
      modifies `steps
      ensures Valid() && old(steps) <= steps && old(Phase().i) < |tasks|
      ensures Phase() == Looping(old(Phase().asyncOnly), old(Phase().snapshot), old(Phase().i) + 1)
      ensures var e := Key(tasks[old(Phase().i)]);
        && World().log == old(World().log) + (if outcome.Succeeds? then [e] else [])
        && World().completions == old(World().completions) + (if outcome.MigrateFails? then multiset{} else multiset{e})
    {
      Others();
      RunMigrate(!outcome.MigrateFails?);
      if !outcome.MigrateFails? {
        Others();
        SaveMigration(outcome.Succeeds?);
      }
    }

    /** Decides about the next task and executes it if it is due. */
    method VisitTask(outcomes: seq<Outcome>)
      requires Valid() && Phase().Looping? && Phase().i < |tasks| == |outcomes|
      modifies `steps
      ensures Valid() && old(steps) <= steps
      ensures Phase() == Looping(old(Phase().asyncOnly), old(Phase().snapshot), old(Phase().i) + 1)
      ensures World().log == old(World().log) +
        AddedFor(tasks[old(Phase().i)], old(Phase().snapshot), old(Phase().asyncOnly), outcomes[old(Phase().i)])
      ensures World().completions == old(World().completions) +
        multiset(RunFor(tasks[old(Phase().i)], old(Phase().snapshot), old(Phase().asyncOnly), outcomes[old(Phase().i)]))
    {
      Others();
      Do(Visit(me));
      if Phase().Executing? {
        ExecuteTask(outcomes[Phase().i]);
      }
    }

    /** Tries for the lock. If it is taken then, and the record in the way is found `expired`, it reclaims the lock,
        provided its holder is gone by the time it looks, and in any case tries once more; `first` and `looked` are the
        histories up to the first try and the look, `tried` is that up to the last try. */
    method AcquireLock(asyncOnly: bool, expired: bool)
      returns (acquired: bool, ghost first: seq<Step>, ghost looked: seq<Step>, ghost tried: seq<Step>)
      requires Valid() && Phase().Idle?
      modifies `steps
      ensures Valid() && old(steps) <= first <= looked <= tried && After(tasks, log0, tried).Some?
      ensures FreeAfter(first) ==> acquired && tried == first
      ensures expired && !FreeAfter(first) && DeadHolderAfter(looked) ==> looked + [Reclaim] <= tried
      ensures acquired == FreeAfter(tried)
      ensures steps == if acquired then tried + [Acquire(me, asyncOnly)] else tried
      ensures Phase() == if acquired then Starting(asyncOnly) else Idle
      ensures World().log == After(tasks, log0, tried).value.log
      ensures World().completions == After(tasks, log0, tried).value.completions
    {
      Others();
      first, looked := steps, steps;
      acquired := World().holder.None?;
      if !acquired {
        Others();
        looked := steps;
        if expired && World().holder.Some? && PassOf(World(), World().holder.value).Idle? {
          Do(Reclaim);
          Others();
        }
        acquired := World().holder.None?;
      }
      tried := steps;
      if acquired {
        Do(Acquire(me, asyncOnly));
      }
    }

    ghost predicate FreeAfter(h: seq<Step>) {
      After(tasks, log0, h).Some? && After(tasks, log0, h).value.holder.None?
    }

    ghost predicate DeadHolderAfter(h: seq<Step>) {
      && After(tasks, log0, h).Some?
      && var s := After(tasks, log0, h).value;
         s.holder.Some? && PassOf(s, s.holder.value).Idle?
    }

    /** One pass. It does nothing if the lock is taken when it tries for it; otherwise it runs exactly the tasks of its
        kind that are due by the log as it finds it then, appends to that exactly those that succeed, in their order,
        and gives the lock back on every path. */
    method RunMigrations(asyncOnly: bool, readFails: bool, outcomes: seq<Outcome>)
      returns (acquired: bool, ghost tried: seq<Step>)
      requires Valid() && Phase().Idle? && |outcomes| == |tasks|
      modifies `steps
      ensures Valid() && old(steps) <= tried <= steps && Phase().Idle?
      ensures After(tasks, log0, tried).Some? && acquired == After(tasks, log0, tried).value.holder.None?
      ensures !acquired ==> steps == tried
      ensures acquired ==> World().holder.None?
      ensures acquired ==> var log := After(tasks, log0, tried).value.log;
        World().log == log + (if readFails then [] else Added(tasks, log, asyncOnly, outcomes, |tasks|))
      ensures acquired ==> var w := After(tasks, log0, tried).value;
        World().completions == w.completions
          + multiset(if readFails then [] else RunOf(tasks, w.log, asyncOnly, outcomes, |tasks|))
    {
      ghost var first, looked;
      var expired: bool := *;
      acquired, first, looked, tried := AcquireLock(asyncOnly, expired);
      if acquired {
        ghost var log := World().log;
        Do(ReadLog(me, !readFails));
        if !readFails {
          RunTasks(asyncOnly, outcomes, log);
        }
      }
    }

    /** What a later pass finds in the log is at least what an earlier one left there. */
    lemma LogStays(before: seq<Step>, after: seq<Step>, e: Entry)
      requires Valid() && before <= after && After(tasks, log0, before).Some? && After(tasks, log0, after).Some?
      requires e in After(tasks, log0, before).value.log
      ensures e in After(tasks, log0, after).value.log
    {
      assert after == before + after[|before|..];
      RecordedIsFinal(tasks, log0, before, after[|before|..], e);
    }

    /** A synchronous start: the pass over synchronous migrations, and some time later, whatever became of it, that over
        asynchronous ones, other hosts being at work all the while. `tried` and `triedAgain` are the histories up to
        their tries for the lock, which each gets exactly when it is free, and `between` is that in between; a pass that
        gets it records what succeeds of its kind, and so every migration that succeeds in the pass of its kind is
        recorded in the end when both get it. */
    method Migrate(syncReadFails: bool, syncOutcomes: seq<Outcome>, asyncReadFails: bool, asyncOutcomes: seq<Outcome>)
      returns (first: bool, second: bool, ghost tried: seq<Step>, ghost between: seq<Step>, ghost triedAgain: seq<Step>)
      requires Valid() && Phase().Idle? && |syncOutcomes| == |asyncOutcomes| == |tasks|
      modifies `steps
      ensures Valid() && old(steps) <= tried <= between <= triedAgain <= steps && Phase().Idle?
      ensures first == FreeAfter(tried) && second == FreeAfter(triedAgain)
      ensures PassedOver(tried, between, false, syncReadFails, syncOutcomes)
      ensures PassedOver(triedAgain, steps, true, asyncReadFails, asyncOutcomes)
      ensures first && !syncReadFails ==>
        forall k :: 0 <= k < |tasks| && syncOutcomes[k].Succeeds? && !tasks[k].isAsync ==> Key(tasks[k]) in World().log
      ensures second && !asyncReadFails ==>
        forall k :: 0 <= k < |tasks| && asyncOutcomes[k].Succeeds? && tasks[k].isAsync ==> Key(tasks[k]) in World().log
    {
      first, tried := RunMigrations(false, syncReadFails, syncOutcomes);
      between := steps;
      second, triedAgain := RunMigrations(true, asyncReadFails, asyncOutcomes);
      forall k | 0 <= k < |tasks| && syncOutcomes[k].Succeeds? && !tasks[k].isAsync && first && !syncReadFails
        ensures Key(tasks[k]) in World().log
      {
        PassRecords(tried, between, false, syncOutcomes, k);
        LogStays(between, steps, Key(tasks[k]));
      }
      forall k | 0 <= k < |tasks| && asyncOutcomes[k].Succeeds? && tasks[k].isAsync && second && !asyncReadFails
        ensures Key(tasks[k]) in World().log
      {
        PassRecords(triedAgain, steps, true, asyncOutcomes, k);
      }
    }

    /** One pass between two histories: none if the lock is taken at the first; else it has run exactly the due
        migrations of its kind, added to the log exactly the successes among them, in order, or nothing of this if it
        could not read the log, and left the lock free. */
    ghost predicate PassedOver(tried: seq<Step>, after: seq<Step>, asyncOnly: bool, readFails: bool,
        outcomes: seq<Outcome>) {
      && |outcomes| == |tasks| && tried <= after
      && After(tasks, log0, tried).Some? && After(tasks, log0, after).Some?
      && (!FreeAfter(tried) ==> after == tried)
      && (FreeAfter(tried) ==>
            var log := After(tasks, log0, tried).value.log;
            && FreeAfter(after)
            && After(tasks, log0, after).value.log
                 == log + (if readFails then [] else Added(tasks, log, asyncOnly, outcomes, |tasks|))
            && After(tasks, log0, after).value.completions
                 == After(tasks, log0, tried).value.completions
                    + multiset(if readFails then [] else RunOf(tasks, log, asyncOnly, outcomes, |tasks|)))
    }

    /** A pass that gets the lock and reads the log leaves every migration of its kind that succeeds in it recorded. */
    lemma PassRecords(tried: seq<Step>, after: seq<Step>, asyncOnly: bool, outcomes: seq<Outcome>, k: nat)
      requires PassedOver(tried, after, asyncOnly, false, outcomes) && FreeAfter(tried)
      requires k < |tasks| && outcomes[k].Succeeds? && tasks[k].isAsync == asyncOnly
      ensures Key(tasks[k]) in After(tasks, log0, after).value.log
    {
      AddedExactly(tasks, After(tasks, log0, tried).value.log, asyncOnly, outcomes, |tasks|, Key(tasks[k]));
    }

    method RunTasks(asyncOnly: bool, outcomes: seq<Outcome>, ghost readAt: seq<Entry>)
      requires Valid() && |outcomes| == |tasks|
      requires Phase() == Looping(asyncOnly, readAt, 0) && World().log == readAt
      modifies `steps
      ensures Valid() && old(steps) <= steps && Phase().Idle? && World().holder.None?
      ensures World().log == readAt + Added(tasks, readAt, asyncOnly, outcomes, |tasks|)
      ensures World().completions
        == old(World().completions) + multiset(RunOf(tasks, readAt, asyncOnly, outcomes, |tasks|))
    {
      VisitAll(asyncOnly, outcomes, readAt);
      EndPass();
    }

    /** What a pass has done by its n-th task. */
    ghost predicate HasDone(asyncOnly: bool, outcomes: seq<Outcome>, readAt: seq<Entry>, before: multiset<Entry>,
        n: nat)
      requires Valid()
      reads this
    {
      && n <= |tasks| == |outcomes|
      && Phase() == Looping(asyncOnly, readAt, n)
      && World().log == readAt + Added(tasks, readAt, asyncOnly, outcomes, n)
      && World().completions == before + multiset(RunOf(tasks, readAt, asyncOnly, outcomes, n))
    }

    method VisitNext(asyncOnly: bool, outcomes: seq<Outcome>, ghost readAt: seq<Entry>, ghost before: multiset<Entry>,
        i: nat)
      requires Valid() && i < |tasks| && HasDone(asyncOnly, outcomes, readAt, before, i)
      modifies `steps
      ensures Valid() && old(steps) <= steps && HasDone(asyncOnly, outcomes, readAt, before, i + 1)
    {
      VisitTask(outcomes);
      AddedOne(tasks, readAt, asyncOnly, outcomes, i);
    }

    method VisitAll(asyncOnly: bool, outcomes: seq<Outcome>, ghost readAt: seq<Entry>)
      requires Valid() && |outcomes| == |tasks|
      requires Phase() == Looping(asyncOnly, readAt, 0) && World().log == readAt
      modifies `steps
      ensures Valid() && old(steps) <= steps
      ensures HasDone(asyncOnly, outcomes, readAt, old(World().completions), |tasks|)
    {
      ghost var before := World().completions;
      for i := 0 to |tasks|
        invariant Valid() && old(steps) <= steps && HasDone(asyncOnly, outcomes, readAt, before, i)
      {
        VisitNext(asyncOnly, outcomes, readAt, before, i);
      }
    }

    method EndPass()
      requires Valid() && Phase().Looping? && Phase().i == |tasks|
      modifies `steps
      ensures Valid() && old(steps) <= steps && Phase().Idle? && World().holder.None?
      ensures World().log == old(World().log) && World().completions == old(World().completions)
    {
      Others();
      Do(Finish(me));
    }
  }

  /** A pass adds the entries of the due tasks of its kind that succeed, and no others. */
  lemma {:induction false} AddedExactly(tasks: seq<Task>, snapshot: seq<Entry>, asyncOnly: bool,
      outcomes: seq<Outcome>, n: nat, e: Entry)
    requires n <= |tasks| == |outcomes|
    ensures e in Added(tasks, snapshot, asyncOnly, outcomes, n) <==>
      exists j :: 0 <= j < n && Key(tasks[j]) == e && Due(snapshot, tasks[j], asyncOnly) && outcomes[j].Succeeds?
  {
    if n > 0 {
      AddedExactly(tasks, snapshot, asyncOnly, outcomes, n - 1, e);
    }
  }

  /** And it runs exactly the due tasks of its kind to completion whose `migrate()` does not fail. */
  lemma {:induction false} RunExactly(tasks: seq<Task>, snapshot: seq<Entry>, asyncOnly: bool, outcomes: seq<Outcome>,
      n: nat, e: Entry)
    requires n <= |tasks| == |outcomes|
    ensures e in RunOf(tasks, snapshot, asyncOnly, outcomes, n) <==>
      exists j :: 0 <= j < n && Key(tasks[j]) == e && Due(snapshot, tasks[j], asyncOnly) && !outcomes[j].MigrateFails?
  {
    if n > 0 {
      RunExactly(tasks, snapshot, asyncOnly, outcomes, n - 1, e);
    }
  }
}
