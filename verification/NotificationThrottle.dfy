/**
 The interval guard of notifications: before one is saved and sent, the saved ones are searched for one that is
 recent and alike. The handler's log is seen here as the saved notifications, oldest first, each with the guard
 that it passed.
*/
module NotificationThrottle {
  import opened Options

  /** A saved notification; times are in milliseconds. */
  datatype Notification = Notification(sourceId: string, timestamp: int, channel: string, sourceDescr: string,
    chargeBoxID: Option<string>, userID: Option<string>, data: map<string, string>)

  /** What a notification must agree with; an absent or empty charging station or user agrees with all. */
  datatype Filter = Filter(channel: string, sourceDescr: string, chargeBoxID: Option<string>, userID: Option<string>,
    additional: map<string, string>)

  datatype Guard = Guard(filter: Filter, intervalMins: nat)

  datatype Entry = Entry(n: Notification, guard: Option<Guard>)

  predicate Agrees(wanted: Option<string>, found: Option<string>) {
    wanted.None? || wanted.value == "" || found == wanted
  }

  predicate Matches(n: Notification, f: Filter) {
    && n.channel == f.channel && n.sourceDescr == f.sourceDescr
    && Agrees(f.chargeBoxID, n.chargeBoxID) && Agrees(f.userID, n.userID)
    && forall key :: key in f.additional ==> key in n.data && n.data[key] == f.additional[key]
  }

  /** Whether the query of a guard, made at some time, finds a notification. */
  predicate Near(n: Notification, g: Guard, time: int) {
    Matches(n, g.filter) && n.timestamp >= time - g.intervalMins * 60000
  }

  predicate Passes(log: seq<Entry>, g: Guard, time: int) {
    forall e :: e in log ==> !Near(e.n, g, time)
  }

  /** Every notification saved under a guard is more than the guard's interval after all earlier ones it matches. */
  ghost predicate Spaced(log: seq<Entry>) {
    forall i, j :: 0 <= i < j < |log| && log[j].guard.Some? && Matches(log[i].n, log[j].guard.value.filter)
      ==> log[j].n.timestamp - log[i].n.timestamp > log[j].guard.value.intervalMins * 60000
  }

  /** Saving keeps the log spaced exactly when the guard would pass at the moment of saving. */
  lemma SavingKeepsSpacing(log: seq<Entry>, e: Entry)
    requires Spaced(log)
    ensures Spaced(log + [e]) <==> (e.guard.Some? ==> Passes(log, e.guard.value, e.n.timestamp))
  {
    var after := log + [e];
    if e.guard.Some? && !Passes(log, e.guard.value, e.n.timestamp) {
      var x :| x in log && Near(x.n, e.guard.value, e.n.timestamp);
      var i :| 0 <= i < |log| && log[i] == x;
      assert after[i] == x && after[|log|] == e;
    }
    if e.guard.Some? && Passes(log, e.guard.value, e.n.timestamp) {
      forall i | 0 <= i < |log| && Matches(log[i].n, e.guard.value.filter)
        ensures e.n.timestamp - log[i].n.timestamp > e.guard.value.intervalMins * 60000
      {
        assert log[i] in log && !Near(log[i].n, e.guard.value, e.n.timestamp);
      }
    }
  }

  /** The check and the save are two steps. When the check saw only the first `seen` entries of what is there at
      the save, the log stays spaced exactly when none of the entries saved in between is near. With nothing in
      between, it always does. */
  lemma CheckedSaveKeepsSpacing(log: seq<Entry>, seen: nat, checkedAt: int, e: Entry)
    requires Spaced(log) && seen <= |log| && e.guard.Some? && checkedAt <= e.n.timestamp
    requires Passes(log[..seen], e.guard.value, checkedAt)
    ensures Spaced(log + [e]) <==> Passes(log[seen..], e.guard.value, e.n.timestamp)
    ensures seen == |log| ==> Spaced(log + [e])
  {
    var g, t := e.guard.value, e.n.timestamp;
    SavingKeepsSpacing(log, e);
    assert log == log[..seen] + log[seen..];
    assert Passes(log[..seen], g, t) by {
      forall x | x in log[..seen] ensures !Near(x.n, g, t) {
        assert !Near(x.n, g, checkedAt);
      }
    }
  }

  /** Two servers that both check before either saves both send. */
  lemma RaceSendsTwice(e: Entry, f: Entry)
    requires e.guard == f.guard && e.guard.Some? && Matches(e.n, e.guard.value.filter)
    requires e.n.timestamp <= f.n.timestamp <= e.n.timestamp + e.guard.value.intervalMins * 60000
    ensures Passes([], e.guard.value, e.n.timestamp) && Passes([], f.guard.value, e.n.timestamp)
    ensures Spaced([e]) && !Spaced([e, f])
  {
    var log := [e, f];
    assert log[0] == e && log[1] == f;
  }

  /** Spacing for one addressee: of two notifications for the same channel, source, charging station and user, the
      later saved under a guard for its own addressee, the times are more than the guard's interval apart. */
  lemma SameAddresseeFarApart(log: seq<Entry>, i: nat, j: nat)
    requires Spaced(log) && i < j < |log| && log[j].guard.Some?
    requires Matches(log[j].n, log[j].guard.value.filter) && log[j].guard.value.filter.additional == map[]
    requires log[i].n.channel == log[j].n.channel && log[i].n.sourceDescr == log[j].n.sourceDescr
    requires log[i].n.chargeBoxID == log[j].n.chargeBoxID && log[i].n.userID == log[j].n.userID
    ensures log[j].n.timestamp - log[i].n.timestamp > log[j].guard.value.intervalMins * 60000
  {
    assert Matches(log[i].n, log[j].guard.value.filter);
  }

  /** One sending of a notification over one of the notification channels: the guard's filter and interval, when it
      is checked and whether the query fails, and what would be saved. */
  datatype Attempt = Attempt(enabled: bool, f: Filter, intervalMins: nat, checkedAt: int, queryFails: bool,
      n: Notification) {
    function Guarded(): Option<Guard> {
      if intervalMins == 0 then None else Some(Guard(f, intervalMins))
    }
  }

  ghost predicate Free(log: seq<Entry>, n: Notification) {
    forall e :: e in log ==> e.n.sourceId != n.sourceId || e.n.channel != n.channel
  }

  /** A notification is sent exactly when its channel is on, no near one is found or the query fails, and its
      identifier is not taken. */
  ghost predicate Goes(log: seq<Entry>, a: Attempt) {
    a.enabled && Free(log, a.n) && (a.Guarded().Some? && !a.queryFails ==> Passes(log, a.Guarded().value, a.checkedAt))
  }

  /** A saved notification that is not what the guard looks for: over another channel or from another source, for
      another charging station or user than the one that is named, or with other data. */
  predicate Differs(n: Notification, f: Filter) {
    || n.channel != f.channel || n.sourceDescr != f.sourceDescr
    || (f.chargeBoxID.Some? && f.chargeBoxID != Some("") && n.chargeBoxID != f.chargeBoxID)
    || (f.userID.Some? && f.userID != Some("") && n.userID != f.userID)
    || exists key :: key in f.additional && (key !in n.data || n.data[key] != f.additional[key])
  }

  /** A notification goes out exactly when its channel is on, none with its identifier has been saved over it, and it
      is not guarded, or the query fails, or all that is saved differs from what the guard looks for or is older than
      the interval. So what was sent to another user or for another station never holds it back. */
  lemma GoesExactlyWhen(log: seq<Entry>, a: Attempt)
    ensures Goes(log, a) <==>
      && a.enabled && (forall e :: e in log ==> e.n.sourceId != a.n.sourceId || e.n.channel != a.n.channel)
      && (a.intervalMins == 0 || a.queryFails
          || forall e :: e in log ==> Differs(e.n, a.f) || a.checkedAt - e.n.timestamp > a.intervalMins * 60 * 1000)
  {
    forall e | e in log ensures Matches(e.n, a.f) <==> !Differs(e.n, a.f) {
      if key :| key in a.f.additional && (key !in e.n.data || e.n.data[key] != a.f.additional[key]) {
        assert Differs(e.n, a.f);
      }
    }
    if a.Guarded().Some? {
      forall e | e in log
        ensures Near(e.n, a.Guarded().value, a.checkedAt)
          <==> !Differs(e.n, a.f) && a.checkedAt - e.n.timestamp <= a.intervalMins * 60 * 1000
      {
      }
    }
  }

  /** Sending keeps the log spaced exactly when, if a guarded query fails and the notification goes out all the
      same, the guard would have passed at the moment of saving. */
  lemma SendingKeepsSpacing(log: seq<Entry>, a: Attempt)
    requires Spaced(log) && a.checkedAt <= a.n.timestamp && Goes(log, a)
    ensures Spaced(log + [Entry(a.n, a.Guarded())])
      <==> (a.queryFails && a.Guarded().Some? ==> Passes(log, a.Guarded().value, a.n.timestamp))
  {
    var e := Entry(a.n, a.Guarded());
    SavingKeepsSpacing(log, e);
    if a.Guarded().Some? && !a.queryFails {
      assert log[..|log|] == log;
      CheckedSaveKeepsSpacing(log, |log|, a.checkedAt, e);
    }
  }

  /** The log after a run of attempts, one at a time. */
  ghost function SentAll(log: seq<Entry>, attempts: seq<Attempt>): seq<Entry> {
    if attempts == [] then log
    else
      var before, a := SentAll(log, attempts[..|attempts| - 1]), attempts[|attempts| - 1];
      if Goes(before, a) then before + [Entry(a.n, a.Guarded())] else before
  }

  /** Which of them went out. */
  ghost function SentFlags(log: seq<Entry>, attempts: seq<Attempt>): seq<bool> {
    if attempts == [] then []
    else
      var front := attempts[..|attempts| - 1];
      SentFlags(log, front) + [Goes(SentAll(log, front), attempts[|attempts| - 1])]
  }

  lemma SentOneMore(log: seq<Entry>, attempts: seq<Attempt>, i: nat)
    requires i < |attempts|
    ensures var before, a := SentAll(log, attempts[..i]), attempts[i];
      && SentAll(log, attempts[..i + 1]) == (if Goes(before, a) then before + [Entry(a.n, a.Guarded())] else before)
      && SentFlags(log, attempts[..i + 1]) == SentFlags(log, attempts[..i]) + [Goes(before, a)]
  {
    assert attempts[..i + 1][..i] == attempts[..i];
  }

  /** Over any sequential run of attempts, none of whose guard queries fails, the log stays spaced. */
  lemma {:induction false} RunStaysSpaced(log: seq<Entry>, attempts: seq<Attempt>)
    requires Spaced(log) && forall a :: a in attempts ==> a.checkedAt <= a.n.timestamp && !a.queryFails
    ensures Spaced(SentAll(log, attempts)) && log <= SentAll(log, attempts)
  {
    if attempts != [] {
      var front, a := attempts[..|attempts| - 1], attempts[|attempts| - 1];
      RunStaysSpaced(log, front);
      if Goes(SentAll(log, front), a) {
        SendingKeepsSpacing(SentAll(log, front), a);
      }
    }
  }

  class NotificationHandler {
    var collection: seq<Notification>
    ghost var guards: seq<Option<Guard>>

    ghost predicate Valid()
      reads this
    {
      && |guards| == |collection|
      && forall i, j :: 0 <= i < j < |collection|
           ==> collection[i].sourceId != collection[j].sourceId || collection[i].channel != collection[j].channel
    }

    ghost function Log(): (log: seq<Entry>)
      requires Valid()
      reads this
      ensures |log| == |collection|
    {
      seq(|collection|, i requires 0 <= i < |collection| && |guards| == |collection| reads this =>
        Entry(collection[i], guards[i]))
    }

    constructor ()
      ensures Valid() && Log() == []
    {
      collection, guards := [], [];
    }

    /** The number of saved notifications that match from a time on. */
    method GetNotificationsCount(f: Filter, dateFrom: int) returns (count: nat)
      ensures count > 0 <==> exists n :: n in collection && Matches(n, f) && n.timestamp >= dateFrom
    {
      count := 0;
      for i := 0 to |collection|
        invariant count > 0 <==> exists n :: n in collection[..i] && Matches(n, f) && n.timestamp >= dateFrom
      {
        assert collection[..i + 1] == collection[..i] + [collection[i]];
        if Matches(collection[i], f) && collection[i].timestamp >= dateFrom {
          count := count + 1;
          assert collection[i] in collection[..i + 1];
        }
      }
      assert collection[..|collection|] == collection;
    }

    /** Without an interval nothing counts as sent before; when the query fails, there is no answer. */
    method HasNotifiedSource(f: Filter, intervalMins: nat, now: int, queryFails: bool) returns (r: Option<bool>)
      requires Valid()
      ensures intervalMins == 0 ==> r == Some(false)
      ensures intervalMins > 0 && queryFails ==> r == None
      ensures intervalMins > 0 && !queryFails ==> r == Some(!Passes(Log(), Guard(f, intervalMins), now))
    {
      if intervalMins == 0 {
        return Some(false);
      }
      if queryFails {
        return None;
      }
      var g := Guard(f, intervalMins);
      var count := GetNotificationsCount(f, now - intervalMins * 60000);
      forall i | 0 <= i < |collection|
        ensures Log()[i].n == collection[i] && Log()[i] in Log() && collection[i] in collection
      {
      }
      if count > 0 {
        var n :| n in collection && Matches(n, f) && n.timestamp >= now - intervalMins * 60000;
        assert Near(n, g, now);
      } else {
        forall e | e in Log() ensures !Near(e.n, g, now) {
          assert e.n in collection;
        }
      }
      return Some(count > 0);
    }

    /** Saves under a document identifier made of source identifier and channel; refused if there is one already. */
    method SaveNotification(n: Notification, ghost guard: Option<Guard>) returns (ok: bool)
      requires Valid()
      modifies this
      ensures Valid() && ok == Free(old(Log()), n)
      ensures Log() == if ok then old(Log()) + [Entry(n, guard)] else old(Log())
    {
      ok := forall m :: m in collection ==> m.sourceId != n.sourceId || m.channel != n.channel;
      forall i | 0 <= i < |collection|
        ensures Log()[i] in Log() && Log()[i].n == collection[i] && collection[i] in collection
      {
      }
      if ok {
        collection, guards := collection + [n], guards + [guard];
      } else {
        var m :| m in collection && m.sourceId == n.sourceId && m.channel == n.channel;
      }
    }

    /** One notification over one channel: check, save, send. A failed query counts as nothing found. */
    method Notify(a: Attempt) returns (sent: bool)
      requires Valid() && a.checkedAt <= a.n.timestamp
      modifies this
      ensures Valid() && sent == Goes(old(Log()), a)
      ensures Log() == if sent then old(Log()) + [Entry(a.n, a.Guarded())] else old(Log())
    {
      sent := false;
      if a.enabled {
        var hasBeenNotified := HasNotifiedSource(a.f, a.intervalMins, a.checkedAt, a.queryFails);
        if hasBeenNotified != Some(true) {
          sent := SaveNotification(a.n, a.Guarded());
        }
      }
    }

    /** Any number of notifications, guarded or not, from any senders. */
    method NotifyAll(attempts: seq<Attempt>) returns (sent: seq<bool>)
      requires Valid() && forall a :: a in attempts ==> a.checkedAt <= a.n.timestamp
      modifies this
      ensures Valid() && Log() == SentAll(old(Log()), attempts) && sent == SentFlags(old(Log()), attempts)
    {
      ghost var log := Log();
      sent := [];
      for i := 0 to |attempts|
        invariant Valid() && Log() == SentAll(log, attempts[..i]) && sent == SentFlags(log, attempts[..i])
      {
        SentOneMore(log, attempts, i);
        var ok := Notify(attempts[i]);
        sent := sent + [ok];
      }
      assert attempts[..|attempts|] == attempts;
    }
  }
}
