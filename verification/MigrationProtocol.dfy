/**
 Database migrations that must run once, over any number of hosts. Passes contend for the migration
 lock; the one that holds it reads the stored log, runs each task that is not in it and is of the pass's
 kind, and records every task whose `migrate()` completed. Passes may crash anywhere and saves may fail.
*/
module MigrationProtocol {
  import opened Options
  import opened Strings

  datatype Task = Task(name: string, version: string, isAsync: bool)
  datatype Entry = Entry(name: string, version: string)

  type PassId = nat

  datatype Pass =
    | Idle
    | Starting(asyncOnly: bool)
    | Looping(asyncOnly: bool, snapshot: seq<Entry>, i: nat)
    | Executing(asyncOnly: bool, snapshot: seq<Entry>, i: nat)
    | Completed(asyncOnly: bool, snapshot: seq<Entry>, i: nat)

  /** `completions` counts the runs of `migrate()` that completed, `lost` those that never got recorded. */
  datatype State = State(holder: Option<PassId>, log: seq<Entry>, completions: multiset<Entry>, lost: multiset<Entry>,
    passes: map<PassId, Pass>)

  datatype Step =
    | Acquire(p: PassId, asyncOnly: bool)
    | ReadLog(p: PassId, ok: bool)
    | Visit(p: PassId)
    | Migrate(p: PassId, ok: bool)
    | Save(p: PassId, ok: bool)
    | Finish(p: PassId)
    | Crash(p: PassId)
    | Reclaim

  function Key(t: Task): Entry {
    Entry(t.name, t.version)
  }

  /** The primary key under which a migration is stored. */
  function RecordId(e: Entry): string {
    e.name + "~" + e.version
  }

  /** The test a pass makes for each task: not recorded when the log was read, and of the pass's kind. */
  predicate Due(snapshot: seq<Entry>, t: Task, asyncOnly: bool) {
    Key(t) !in snapshot && t.isAsync == asyncOnly
  }

  /** The stored collection refuses a second record under the same key. */
  predicate CanSave(log: seq<Entry>, e: Entry) {
    forall f :: f in log ==> RecordId(f) != RecordId(e)
  }

  ghost predicate DistinctTasks(tasks: seq<Task>) {
    forall i, j :: 0 <= i < j < |tasks| ==> Key(tasks[i]) != Key(tasks[j])
  }

  function PassOf(s: State, p: PassId): Pass {
    if p in s.passes then s.passes[p] else Idle
  }

  function Become(s: State, p: PassId, pass: Pass): State {
    s.(passes := s.passes[p := pass])
  }

  function Apply(tasks: seq<Task>, s: State, step: Step): Option<State> {
    match step
    case Acquire(p, asyncOnly) =>
      if PassOf(s, p).Idle? && s.holder.None? then Some(Become(s.(holder := Some(p)), p, Starting(asyncOnly))) else None
    case ReadLog(p, ok) =>
      (match PassOf(s, p)
       case Starting(asyncOnly) =>
         if ok then Some(Become(s, p, Looping(asyncOnly, s.log, 0)))
         else Some(Become(s.(holder := None), p, Idle))
       case _ => None)
    case Visit(p) =>
      (match PassOf(s, p)
       case Looping(asyncOnly, snapshot, i) =>
         if i >= |tasks| then None
         else if Due(snapshot, tasks[i], asyncOnly) then Some(Become(s, p, Executing(asyncOnly, snapshot, i)))
         else Some(Become(s, p, Looping(asyncOnly, snapshot, i + 1)))
       case _ => None)
    case Migrate(p, ok) =>
      (match PassOf(s, p)
       case Executing(asyncOnly, snapshot, i) =>
         if i >= |tasks| then None
         else if ok then
           Some(Become(
             s.(completions := s.completions + multiset{Key(tasks[i])}), p, Completed(asyncOnly, snapshot, i)))
         else Some(Become(s, p, Looping(asyncOnly, snapshot, i + 1)))
       case _ => None)
    case Save(p, ok) =>
      (match PassOf(s, p)
       case Completed(asyncOnly, snapshot, i) =>
         if i >= |tasks| || (ok && !CanSave(s.log, Key(tasks[i]))) then None
         else if ok then Some(Become(s.(log := s.log + [Key(tasks[i])]), p, Looping(asyncOnly, snapshot, i + 1)))
         else Some(Become(s.(lost := s.lost + multiset{Key(tasks[i])}), p, Looping(asyncOnly, snapshot, i + 1)))
       case _ => None)
    case Finish(p) =>
      (match PassOf(s, p)
       case Looping(_, _, i) => if i == |tasks| then Some(Become(s.(holder := None), p, Idle)) else None
       case _ => None)
    case Crash(p) =>
      (match PassOf(s, p)
       case Completed(_, _, i) =>
         if i >= |tasks| then None else Some(Become(s.(lost := s.lost + multiset{Key(tasks[i])}), p, Idle))
       case _ => Some(Become(s, p, Idle)))
    case Reclaim =>
      if s.holder.Some? && PassOf(s, s.holder.value).Idle? then Some(s.(holder := None)) else None
  }

  function Init(log0: seq<Entry>): State {
    State(None, log0, multiset{}, multiset{}, map[])
  }

  function After(tasks: seq<Task>, log0: seq<Entry>, steps: seq<Step>): Option<State> {
    if steps == [] then Some(Init(log0))
    else
      var before := After(tasks, log0, steps[..|steps| - 1]);
      if before.None? then None else Apply(tasks, before.value, steps[|steps| - 1])
  }

  lemma AfterSnoc(tasks: seq<Task>, log0: seq<Entry>, steps: seq<Step>, step: Step)
    ensures After(tasks, log0, steps + [step]) ==
      if After(tasks, log0, steps).None? then None else Apply(tasks, After(tasks, log0, steps).value, step)
  {
    assert (steps + [step])[..|steps|] == steps;
  }

  ghost predicate NoDuplicates(log: seq<Entry>) {
    forall i, j :: 0 <= i < j < |log| ==> log[i] != log[j]
  }

  /** How many completions of `e` a pass has in hand, neither recorded nor lost yet: one between the
      `migrate()` of that task and its save. */
  ghost function InHand(tasks: seq<Task>, pass: Pass, e: Entry): nat {
    if pass.Completed? && pass.i < |tasks| && Key(tasks[pass.i]) == e then 1 else 0
  }

  ghost function Pending(tasks: seq<Task>, s: State, e: Entry): nat {
    if s.holder.Some? then InHand(tasks, PassOf(s, s.holder.value), e) else 0
  }

  ghost function Recorded(log: seq<Entry>, e: Entry): nat {
    if e in log then 1 else 0
  }

  /** What a pass inside the lock knows: its snapshot still tells, for every task it has yet to visit,
      whether that task is recorded; and what it executes was due. */
  ghost predicate Informed(tasks: seq<Task>, s: State, pass: Pass) {
    (pass.Looping? || pass.Executing? || pass.Completed?) ==>
      && pass.i <= |tasks|
      && (forall j :: pass.i <= j < |tasks| ==> (Key(tasks[j]) in pass.snapshot <==> Key(tasks[j]) in s.log))
      && (!pass.Looping? ==> pass.i < |tasks| && Due(pass.snapshot, tasks[pass.i], pass.asyncOnly))
  }

  ghost predicate PassesInformed(tasks: seq<Task>, s: State) {
    && (forall p: PassId :: !PassOf(s, p).Idle? ==> s.holder == Some(p))
    && (forall p: PassId :: Informed(tasks, s, PassOf(s, p)))
  }

  /** Every completion of `e` is recorded, in hand or lost, and is so once. */
  ghost predicate Accounted(tasks: seq<Task>, log0: seq<Entry>, s: State, e: Entry) {
    s.completions[e] + Recorded(log0, e) == Recorded(s.log, e) + s.lost[e] + Pending(tasks, s, e)
  }

  /** A step leaves every other pass where it is. */
  lemma OthersUntouched(tasks: seq<Task>, s: State, step: Step, t: State)
    requires Apply(tasks, s, step) == Some(t)
    ensures forall q: PassId {:trigger PassOf(t, q)} :: (step.Reclaim? || q != step.p) ==> PassOf(t, q) == PassOf(s, q)
  {
  }

  lemma SaveKeepsInformed(tasks: seq<Task>, s: State, step: Step, t: State)
    requires DistinctTasks(tasks) && PassesInformed(tasks, s) && step.Save? && Apply(tasks, s, step) == Some(t)
    ensures PassesInformed(tasks, t)
  {
    OthersUntouched(tasks, s, step, t);
  }

  lemma AcquireKeepsInformed(tasks: seq<Task>, s: State, step: Step, t: State)
    requires PassesInformed(tasks, s) && Apply(tasks, s, step) == Some(t)
    requires step.Acquire? || step.ReadLog? || step.Reclaim?
    ensures PassesInformed(tasks, t)
  {
    OthersUntouched(tasks, s, step, t);
  }

  lemma OtherKeepsInformed(tasks: seq<Task>, s: State, step: Step, t: State)
    requires PassesInformed(tasks, s) && Apply(tasks, s, step) == Some(t)
    requires step.Visit? || step.Migrate? || step.Finish? || step.Crash?
    ensures PassesInformed(tasks, t)
  {
    OthersUntouched(tasks, s, step, t);
  }

  lemma StepKeepsInformed(tasks: seq<Task>, s: State, step: Step, t: State)
    requires DistinctTasks(tasks) && PassesInformed(tasks, s) && Apply(tasks, s, step) == Some(t)
    ensures PassesInformed(tasks, t)
  {
    if step.Save? {
      SaveKeepsInformed(tasks, s, step, t);
    } else if step.Acquire? || step.ReadLog? || step.Reclaim? {
      AcquireKeepsInformed(tasks, s, step, t);
    } else {
      OtherKeepsInformed(tasks, s, step, t);
    }
  }

  lemma StepKeepsLog(tasks: seq<Task>, s: State, step: Step, t: State)
    requires PassesInformed(tasks, s) && NoDuplicates(s.log) && Apply(tasks, s, step) == Some(t)
    ensures NoDuplicates(t.log) && s.log <= t.log
    ensures !(step.Save? && step.ok) ==> t.log == s.log
  {
  }

  lemma WorkKeepsAccounts(tasks: seq<Task>, log0: seq<Entry>, s: State, step: Step, t: State, e: Entry)
    requires PassesInformed(tasks, s) && Accounted(tasks, log0, s, e) && Apply(tasks, s, step) == Some(t)
    requires step.Migrate? || step.Save?
    ensures Accounted(tasks, log0, t, e)
  {
    OthersUntouched(tasks, s, step, t);
  }

  lemma CrashKeepsAccounts(tasks: seq<Task>, log0: seq<Entry>, s: State, step: Step, t: State, e: Entry)
    requires PassesInformed(tasks, s) && Accounted(tasks, log0, s, e) && Apply(tasks, s, step) == Some(t) && step.Crash?
    ensures Accounted(tasks, log0, t, e)
  {
    OthersUntouched(tasks, s, step, t);
  }

  lemma OtherKeepsAccounts(tasks: seq<Task>, log0: seq<Entry>, s: State, step: Step, t: State, e: Entry)
    requires PassesInformed(tasks, s) && Accounted(tasks, log0, s, e) && Apply(tasks, s, step) == Some(t)
    requires !step.Migrate? && !step.Save? && !step.Crash?
    ensures Accounted(tasks, log0, t, e)
  {
    OthersUntouched(tasks, s, step, t);
  }

  lemma StepKeepsAccounts(tasks: seq<Task>, log0: seq<Entry>, s: State, step: Step, t: State, e: Entry)
    requires PassesInformed(tasks, s) && Accounted(tasks, log0, s, e) && Apply(tasks, s, step) == Some(t)
    ensures Accounted(tasks, log0, t, e)
  {
    if step.Migrate? || step.Save? {
      WorkKeepsAccounts(tasks, log0, s, step, t, e);
    } else if step.Crash? {
      CrashKeepsAccounts(tasks, log0, s, step, t, e);
    } else {
      OtherKeepsAccounts(tasks, log0, s, step, t, e);
    }
  }

  lemma {:induction false} RunKeepsInvariant(tasks: seq<Task>, log0: seq<Entry>, steps: seq<Step>, e: Entry)
    requires DistinctTasks(tasks) && NoDuplicates(log0) && After(tasks, log0, steps).Some?
    ensures var s := After(tasks, log0, steps).value;
      PassesInformed(tasks, s) && NoDuplicates(s.log) && log0 <= s.log && Accounted(tasks, log0, s, e)
  {
    if steps != [] {
      var front, last := steps[..|steps| - 1], steps[|steps| - 1];
      RunKeepsInvariant(tasks, log0, front, e);
      var s, t := After(tasks, log0, front).value, After(tasks, log0, steps).value;
      StepKeepsInformed(tasks, s, last, t);
      StepKeepsLog(tasks, s, last, t);
      StepKeepsAccounts(tasks, log0, s, last, t, e);
    }
  }

  /** Run once: each migration's completions, together with its record from before, never exceed one by
      more than the completions that were lost to a crash or a failed save before being recorded. So
      without such losses none completes twice, and none that was recorded before completes at all. */
  lemma RunOnce(tasks: seq<Task>, log0: seq<Entry>, steps: seq<Step>, e: Entry)
    requires DistinctTasks(tasks) && NoDuplicates(log0) && After(tasks, log0, steps).Some?
    ensures var s := After(tasks, log0, steps).value;
      && s.completions[e] + Recorded(log0, e) <= 1 + s.lost[e]
      && s.lost[e] <= s.completions[e]
      && NoDuplicates(s.log) && log0 <= s.log
  {
    RunKeepsInvariant(tasks, log0, steps, e);
  }

  ghost predicate Runs(s: State, k: nat) {
    exists p: PassId :: PassOf(s, p).Executing? && PassOf(s, p).i == k
  }

  /** A task runs only while it is unrecorded, and only in a pass of its own kind. */
  lemma RunsOnlyWhenDue(tasks: seq<Task>, log0: seq<Entry>, steps: seq<Step>, p: PassId)
    requires DistinctTasks(tasks) && NoDuplicates(log0) && After(tasks, log0, steps).Some?
    requires PassOf(After(tasks, log0, steps).value, p).Executing?
    ensures var s := After(tasks, log0, steps).value; var pass := PassOf(s, p);
      && pass.i < |tasks| && Key(tasks[pass.i]) !in s.log && tasks[pass.i].isAsync == pass.asyncOnly
      && s.holder == Some(p)
  {
    RunKeepsInvariant(tasks, log0, steps, Entry("", ""));
  }

  lemma StepKeepsRecorded(tasks: seq<Task>, s: State, step: Step, t: State, e: Entry)
    requires PassesInformed(tasks, s) && e in s.log && Apply(tasks, s, step) == Some(t)
    ensures e in t.log && t.completions[e] == s.completions[e]
  {
  }

  /** Once recorded, a migration stays recorded and never completes again. */
  lemma {:induction false} RecordedIsFinal(tasks: seq<Task>, log0: seq<Entry>, steps: seq<Step>, more: seq<Step>,
      e: Entry)
    requires DistinctTasks(tasks) && NoDuplicates(log0)
    requires After(tasks, log0, steps).Some? && After(tasks, log0, steps + more).Some?
    requires e in After(tasks, log0, steps).value.log
    ensures e in After(tasks, log0, steps + more).value.log
    ensures After(tasks, log0, steps + more).value.completions[e] == After(tasks, log0, steps).value.completions[e]
  {
    if more == [] {
      assert steps + more == steps;
    } else {
      var front, last := more[..|more| - 1], more[|more| - 1];
      assert steps + more == (steps + front) + [last];
      AfterSnoc(tasks, log0, steps + front, last);
      RecordedIsFinal(tasks, log0, steps, front, e);
      RunKeepsInvariant(tasks, log0, steps + front, e);
      var s, t := After(tasks, log0, steps + front).value, After(tasks, log0, steps + more).value;
      StepKeepsRecorded(tasks, s, last, t, e);
    }
  }

  /** The state that further steps lead to. */
  function Continue(tasks: seq<Task>, s: State, steps: seq<Step>): Option<State>
    decreases |steps|
  {
    if steps == [] then Some(s)
    else if Apply(tasks, s, steps[0]).None? then None
    else Continue(tasks, Apply(tasks, s, steps[0]).value, steps[1..])
  }

  lemma {:induction false} AfterConcat(tasks: seq<Task>, log0: seq<Entry>, steps: seq<Step>, more: seq<Step>)
    requires After(tasks, log0, steps).Some?
    ensures After(tasks, log0, steps + more) == Continue(tasks, After(tasks, log0, steps).value, more)
    decreases |more|
  {
    if more == [] {
      assert steps + more == steps;
    } else {
      var first, rest := more[0], more[1..];
      assert steps + more == (steps + [first]) + rest;
      AfterSnoc(tasks, log0, steps, first);
      if After(tasks, log0, steps + [first]).Some? {
        AfterConcat(tasks, log0, steps + [first], rest);
      } else {
        NoneStays(tasks, log0, steps + [first], rest);
      }
    }
  }

  lemma {:induction false} NoneStays(tasks: seq<Task>, log0: seq<Entry>, steps: seq<Step>, more: seq<Step>)
    requires After(tasks, log0, steps).None?
    ensures After(tasks, log0, steps + more).None?
  {
    if more == [] {
      assert steps + more == steps;
    } else {
      NoneStays(tasks, log0, steps, more[..|more| - 1]);
      assert steps + more == (steps + more[..|more| - 1]) + [more[|more| - 1]];
      AfterSnoc(tasks, log0, steps + more[..|more| - 1], more[|more| - 1]);
    }
  }

  /** The steps by which a pass inside the lock gets to a task that is due, the due ones before it failing. */
  lemma {:induction false} WalkTo(tasks: seq<Task>, s: State, p: PassId, k: nat) returns (more: seq<Step>)
    requires k < |tasks| && PassOf(s, p).Looping? && PassOf(s, p).i <= k
    requires Due(PassOf(s, p).snapshot, tasks[k], PassOf(s, p).asyncOnly)
    ensures Continue(tasks, s, more).Some? && Runs(Continue(tasks, s, more).value, k)
    decreases k - PassOf(s, p).i
  {
    var pass := PassOf(s, p);
    var t := Apply(tasks, s, Visit(p)).value;
    if pass.i == k {
      assert PassOf(t, p).Executing? && Continue(tasks, t, []) == Some(t);
      more := [Visit(p)];
    } else if PassOf(t, p).Executing? {
      var u := Apply(tasks, t, Migrate(p, false)).value;
      var rest := WalkTo(tasks, u, p, k);
      var tail := [Migrate(p, false)] + rest;
      assert Continue(tasks, t, tail) == Continue(tasks, u, rest);
      more := [Visit(p)] + tail;
    } else {
      var rest := WalkTo(tasks, t, p, k);
      more := [Visit(p)] + rest;
    }
  }

  /** From any reachable state in which the lock is free, a task can still come to run if and only if it is
      not recorded: failed and lost tasks stay eligible, recorded ones do not. */
  lemma EligibleExactlyWhenUnrecorded(tasks: seq<Task>, log0: seq<Entry>, steps: seq<Step>, k: nat)
    requires DistinctTasks(tasks) && NoDuplicates(log0) && k < |tasks|
    requires After(tasks, log0, steps).Some? && After(tasks, log0, steps).value.holder == None
    ensures (exists more :: After(tasks, log0, steps + more).Some? && Runs(After(tasks, log0, steps + more).value, k))
      <==> Key(tasks[k]) !in After(tasks, log0, steps).value.log
  {
    if Key(tasks[k]) in After(tasks, log0, steps).value.log {
      forall more | After(tasks, log0, steps + more).Some? && Runs(After(tasks, log0, steps + more).value, k)
        ensures false
      {
        RecordedNeverRuns(tasks, log0, steps, more, k);
      }
    } else {
      var more := UnrecordedCanRun(tasks, log0, steps, k);
    }
  }

  lemma RecordedNeverRuns(tasks: seq<Task>, log0: seq<Entry>, steps: seq<Step>, more: seq<Step>, k: nat)
    requires DistinctTasks(tasks) && NoDuplicates(log0) && k < |tasks|
    requires After(tasks, log0, steps).Some? && After(tasks, log0, steps + more).Some?
    requires Key(tasks[k]) in After(tasks, log0, steps).value.log
    ensures !Runs(After(tasks, log0, steps + more).value, k)
  {
    RecordedIsFinal(tasks, log0, steps, more, Key(tasks[k]));
    forall p: PassId | PassOf(After(tasks, log0, steps + more).value, p).Executing?
      ensures PassOf(After(tasks, log0, steps + more).value, p).i != k
    {
      RunsOnlyWhenDue(tasks, log0, steps + more, p);
    }
  }

  lemma UnrecordedCanRun(tasks: seq<Task>, log0: seq<Entry>, steps: seq<Step>, k: nat) returns (more: seq<Step>)
    requires DistinctTasks(tasks) && NoDuplicates(log0) && k < |tasks|
    requires After(tasks, log0, steps).Some? && After(tasks, log0, steps).value.holder == None
    requires Key(tasks[k]) !in After(tasks, log0, steps).value.log
    ensures After(tasks, log0, steps + more).Some? && Runs(After(tasks, log0, steps + more).value, k)
  {
    var s := After(tasks, log0, steps).value;
    RunKeepsInvariant(tasks, log0, steps, Key(tasks[k]));
    var t := Apply(tasks, s, Acquire(0, tasks[k].isAsync)).value;
    var u := Apply(tasks, t, ReadLog(0, true)).value;
    var rest := WalkTo(tasks, u, 0, k);
    var tail := [ReadLog(0, true)] + rest;
    assert Continue(tasks, t, tail) == Continue(tasks, u, rest);
    more := [Acquire(0, tasks[k].isAsync)] + tail;
    AfterConcat(tasks, log0, steps, more);
  }

  /** With no `~` in migration names, the primary keys of tasks and records clash only for the same migration. */
  ghost predicate PlainNames(tasks: seq<Task>, log0: seq<Entry>) {
    (forall t :: t in tasks ==> '~' !in t.name) && (forall e :: e in log0 ==> '~' !in e.name)
  }

  lemma {:induction false} LogNamesPlain(tasks: seq<Task>, log0: seq<Entry>, steps: seq<Step>)
    requires PlainNames(tasks, log0) && After(tasks, log0, steps).Some?
    ensures forall e :: e in After(tasks, log0, steps).value.log ==> '~' !in e.name
  {
    if steps != [] {
      var front, last := steps[..|steps| - 1], steps[|steps| - 1];
      LogNamesPlain(tasks, log0, front);
      StepExtendsLog(tasks, After(tasks, log0, front).value, last, After(tasks, log0, steps).value);
    }
  }

  lemma StepExtendsLog(tasks: seq<Task>, s: State, step: Step, t: State)
    requires Apply(tasks, s, step) == Some(t)
    ensures t.log == s.log || exists task :: task in tasks && t.log == s.log + [Key(task)]
  {
    if step.Save? && step.ok {
      assert tasks[PassOf(s, step.p).i] in tasks;
    }
  }

  lemma UnrecordedCanBeSaved(tasks: seq<Task>, log0: seq<Entry>, steps: seq<Step>, t: Task)
    requires PlainNames(tasks, log0) && After(tasks, log0, steps).Some? && t in tasks
    requires Key(t) !in After(tasks, log0, steps).value.log
    ensures CanSave(After(tasks, log0, steps).value.log, Key(t))
  {
    LogNamesPlain(tasks, log0, steps);
    forall f | f in After(tasks, log0, steps).value.log ensures RecordId(f) != RecordId(Key(t)) {
      if RecordId(f) == RecordId(Key(t)) {
        CutUnique(f.name, f.version, t.name, t.version, '~');
      }
    }
  }

  /** Without that, it is refused exactly when something recorded has the same name, `~` and version printed. */
  lemma SaveRefusedExactlyWhenKeyTaken(tasks: seq<Task>, s: State, p: PassId)
    requires PassOf(s, p).Completed? && PassOf(s, p).i < |tasks|
    ensures var t := tasks[PassOf(s, p).i];
      Apply(tasks, s, Save(p, true)).None?
      <==> exists f :: f in s.log && f.name + "~" + f.version == t.name + "~" + t.version
  {
    var t := tasks[PassOf(s, p).i];
    if f :| f in s.log && f.name + "~" + f.version == t.name + "~" + t.version {
      assert RecordId(f) == RecordId(Key(t));
    }
  }

  /** The lock keeps everyone else out: while a pass is inside, no other step touches the log or the pass. */
  lemma {:induction false} OthersFrozen(tasks: seq<Task>, log0: seq<Entry>, before: seq<Step>, steps: seq<Step>,
      me: PassId)
    requires DistinctTasks(tasks) && NoDuplicates(log0)
    requires After(tasks, log0, before + steps).Some?
    requires forall step :: step in steps ==> step.Reclaim? || step.p != me
    ensures After(tasks, log0, before).Some?
    ensures var s, t := After(tasks, log0, before).value, After(tasks, log0, before + steps).value;
      && PassOf(t, me) == PassOf(s, me)
      && (!PassOf(s, me).Idle? ==> t.log == s.log && t.completions == s.completions)
  {
    if steps == [] {
      assert before + steps == before;
    } else {
      var front, last := steps[..|steps| - 1], steps[|steps| - 1];
      assert before + steps == (before + front) + [last];
      AfterSnoc(tasks, log0, before + front, last);
      OthersFrozen(tasks, log0, before, front, me);
      RunKeepsInvariant(tasks, log0, before + front, Entry("", ""));
      OthersUntouched(tasks, After(tasks, log0, before + front).value, last, After(tasks, log0, before + steps).value);
    }
  }
}
