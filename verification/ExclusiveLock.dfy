/**
 The exclusive lock that code under a lock may count on, whatever implements it: it is taken only when nobody
 has it, given back only by who is inside, and taken away only from a holder that is gone.
*/
module ExclusiveLock {

  /** Who the lock is recorded for, if anyone, and who is inside and alive. */
  datatype View<P> = View(holder: Option<P>, inside: set<P>)

  import opened Options

  ghost predicate Take<P(!new)>(v: View<P>, w: View<P>) {
    exists p :: v.holder.None? && w == View(Some(p), v.inside + {p})
  }

  ghost predicate GiveBack<P(!new)>(v: View<P>, w: View<P>) {
    exists p :: p in v.inside && v.holder == Some(p) && w == View(None, v.inside - {p})
  }

  ghost predicate Die<P(!new)>(v: View<P>, w: View<P>) {
    exists p :: p in v.inside && w == View(v.holder, v.inside - {p})
  }

  /** The record of a holder that is not inside any more is removed. */
  ghost predicate TakeAway<P(!new)>(v: View<P>, w: View<P>) {
    v.holder.Some? && v.holder.value !in v.inside && w == View(None, v.inside)
  }

  /** One step of the lock, or none. */
  ghost predicate Next<P(!new)>(v: View<P>, w: View<P>) {
    v == w || Take(v, w) || GiveBack(v, w) || Die(v, w) || TakeAway(v, w)
  }

  /** Whoever is inside is the one the lock is recorded for. */
  predicate Exclusive<P>(v: View<P>) {
    forall p :: p in v.inside ==> v.holder == Some(p)
  }

  lemma NextKeepsExclusive<P(!new)>(v: View<P>, w: View<P>)
    requires Exclusive(v) && Next(v, w)
    ensures Exclusive(w)
  {
  }

  /** Over any history of the lock, from when nobody had it, at most one is ever inside. */
  lemma {:induction false} AtMostOneInside<P(!new)>(views: seq<View<P>>, p: P, q: P)
    requires views != [] && views[0] == View(None, {})
    requires forall i :: 0 <= i < |views| - 1 ==> Next(views[i], views[i + 1])
    requires p in views[|views| - 1].inside && q in views[|views| - 1].inside
    ensures p == q
  {
    HistoryExclusive(views);
  }

  lemma {:induction false} HistoryExclusive<P(!new)>(views: seq<View<P>>)
    requires views != [] && views[0] == View(None, {})
    requires forall i :: 0 <= i < |views| - 1 ==> Next(views[i], views[i + 1])
    ensures Exclusive(views[|views| - 1])
  {
    var n := |views| - 1;
    if n > 0 {
      HistoryExclusive(views[..n]);
      assert Next(views[n - 1], views[n - 1 + 1]);
      NextKeepsExclusive(views[n - 1], views[n]);
    }
  }
}
