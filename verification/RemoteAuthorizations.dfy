/**
 The scan of a charging station's remote authorizations, newest last, for one that is valid for a tag; what it
 passes that is no longer valid it removes, and then saves the list.
*/
module RemoteAuthorizations {
  import opened Options

  datatype RemoteAuthorization = RemoteAuthorization(id: string, tagId: string, timestamp: Option<int>)

  type Entries = seq<Option<RemoteAuthorization>>

  /** Two minutes. */
  const AUTHORIZATION_TIMEOUT_MILLIS := 120000

  predicate IsAuthorizationValid(timestamp: Option<int>, now: int) {
    timestamp.Some? && timestamp.value > now - AUTHORIZATION_TIMEOUT_MILLIS
  }

  /** Whether an entry is there and still valid when it is looked at; `clock[i]` is when entry i is. */
  predicate ValidAt(list: Entries, clock: seq<int>, i: nat)
    requires i < |list| == |clock|
  {
    list[i].Some? && IsAuthorizationValid(list[i].value.timestamp, clock[i])
  }

  predicate IsFor(list: Entries, clock: seq<int>, uid: Option<string>, i: nat)
    requires i < |list| == |clock|
  {
    ValidAt(list, clock, i) && Some(list[i].value.tagId) == uid
  }

  /** An entry for the tag that has a time, less than two minutes before it is looked at. */
  predicate YoungFor(list: Entries, clock: seq<int>, uid: Option<string>, i: nat)
    requires i < |list| == |clock|
  {
    && Young(list, clock, i) && Some(list[i].value.tagId) == uid
  }

  predicate Young(list: Entries, clock: seq<int>, i: nat)
    requires i < |list| == |clock|
  {
    list[i].Some? && list[i].value.timestamp.Some? && clock[i] - list[i].value.timestamp.value < 2 * 60 * 1000
  }

  lemma ValidExactlyWhenYoung(list: Entries, clock: seq<int>, uid: Option<string>, i: nat)
    requires i < |list| == |clock|
    ensures ValidAt(list, clock, i) <==> Young(list, clock, i)
    ensures IsFor(list, clock, uid, i) <==> YoungFor(list, clock, uid, i)
  {
  }

  /** The number of entries up to and including the last that is valid for the tag; 0 if none is. */
  function UpToLast(list: Entries, clock: seq<int>, uid: Option<string>, n: nat): (k: nat)
    requires n <= |list| == |clock|
    ensures k <= n && (k > 0 ==> IsFor(list, clock, uid, k - 1))
    ensures forall i :: k <= i < n ==> !IsFor(list, clock, uid, i)
  {
    if n == 0 || IsFor(list, clock, uid, n - 1) then n else UpToLast(list, clock, uid, n - 1)
  }

  /** The valid entries from a position on, in order. */
  function ValidFrom(list: Entries, clock: seq<int>, from: nat): (r: Entries)
    requires from <= |list| == |clock|
    ensures |r| <= |list| - from
    ensures |r| == |list| - from <==> forall i :: from <= i < |list| ==> ValidAt(list, clock, i)
    decreases |list| - from
  {
    if from == |list| then []
    else (if ValidAt(list, clock, from) then [list[from]] else []) + ValidFrom(list, clock, from + 1)
  }

  /** What the scan leaves of the list. */
  function Left(list: Entries, clock: seq<int>, uid: Option<string>): Entries
    requires |list| == |clock|
  {
    var k := UpToLast(list, clock, uid, |list|);
    list[..k] + ValidFrom(list, clock, k)
  }

  /** Whether an entry stays: everything below position k, and from there on what is valid. */
  predicate Stays(list: Entries, clock: seq<int>, k: nat, i: nat)
    requires i < |list| == |clock|
  {
    i < k || ValidAt(list, clock, i)
  }

  /** The new place of an entry that stays: the number of those before it. */
  function Place(list: Entries, clock: seq<int>, k: nat, i: nat): nat
    requires i <= |list| == |clock|
  {
    if i == 0 then 0
    else (if Stays(list, clock, k, i - 1) then 1 else 0) + Place(list, clock, k, i - 1)
  }

  lemma {:induction false} PlaceBelow(list: Entries, clock: seq<int>, k: nat, i: nat)
    requires i <= |list| == |clock| && i <= k
    ensures Place(list, clock, k, i) == i
  {
    if i > 0 {
      PlaceBelow(list, clock, k, i - 1);
    }
  }

  lemma {:induction false} PlaceAbove(list: Entries, clock: seq<int>, k: nat, i: nat, j: nat)
    requires k <= i <= j < |list| == |clock| && ValidAt(list, clock, j)
    ensures var at := Place(list, clock, k, j) - Place(list, clock, k, i);
      0 <= at < |ValidFrom(list, clock, i)| && ValidFrom(list, clock, i)[at] == list[j]
    decreases j - i
  {
    if i < j {
      PlaceAbove(list, clock, k, i + 1, j);
    }
  }

  lemma {:induction false} CountAbove(list: Entries, clock: seq<int>, k: nat, i: nat)
    requires k <= i <= |list| == |clock|
    ensures Place(list, clock, k, |list|) - Place(list, clock, k, i) == |ValidFrom(list, clock, i)|
    decreases |list| - i
  {
    if i < |list| {
      CountAbove(list, clock, k, i + 1);
    }
  }

  /** The list that is left holds exactly the entries that stay (those up to the entry found, and the valid ones
      above it), each once and in the old order: an entry that stays is found at its place, and there are no more
      places than those. */
  lemma LeftHoldsWhatStays(list: Entries, clock: seq<int>, uid: Option<string>)
    requires |list| == |clock|
    ensures var left := Left(list, clock, uid); var k := UpToLast(list, clock, uid, |list|);
      && |left| == Place(list, clock, k, |list|)
      && forall i :: 0 <= i < |list| && Stays(list, clock, k, i)
           ==> Place(list, clock, k, i) < |left| && left[Place(list, clock, k, i)] == list[i]
  {
    var k := UpToLast(list, clock, uid, |list|);
    PlaceBelow(list, clock, k, k);
    CountAbove(list, clock, k, k);
    forall i | 0 <= i < |list| && Stays(list, clock, k, i)
      ensures Place(list, clock, k, i) < |Left(list, clock, uid)|
      ensures Left(list, clock, uid)[Place(list, clock, k, i)] == list[i]
    {
      if i < k {
        PlaceBelow(list, clock, k, i);
      } else {
        PlaceAbove(list, clock, k, k, i);
      }
    }
  }

  /** Nothing is removed exactly when every entry stays. */
  lemma AsLongExactlyWhenAllStay(list: Entries, clock: seq<int>, uid: Option<string>, k: nat)
    requires |list| == |clock| && k == UpToLast(list, clock, uid, |list|)
    ensures |Left(list, clock, uid)| == |list| <==> forall i :: 0 <= i < |list| ==> Stays(list, clock, k, i)
  {
    assert |Left(list, clock, uid)| == k + |ValidFrom(list, clock, k)|;
    if forall i :: 0 <= i < |list| ==> Stays(list, clock, k, i) {
      forall i | k <= i < |list| ensures ValidAt(list, clock, i) {
        assert Stays(list, clock, k, i);
      }
    }
  }

  /** What is found is the last entry for the tag that is less than two minutes old, if there is one; and every entry
      that is left was there, and is that one, is before it, or is less than two minutes old. */
  lemma FoundIsYoung(list: Entries, clock: seq<int>, uid: Option<string>)
    requires |list| == |clock|
    ensures var k := UpToLast(list, clock, uid, |list|);
      && (k > 0 ==> YoungFor(list, clock, uid, k - 1))
      && (forall i :: k <= i < |list| ==> !YoungFor(list, clock, uid, i))
      && forall i :: 0 <= i < |list| ==> (Stays(list, clock, k, i) <==> i < k || Young(list, clock, i))
  {
    var k := UpToLast(list, clock, uid, |list|);
    forall i | 0 <= i < |list|
      ensures ValidAt(list, clock, i) <==> Young(list, clock, i)
      ensures IsFor(list, clock, uid, i) <==> YoungFor(list, clock, uid, i)
    {
      ValidExactlyWhenYoung(list, clock, uid, i);
    }
  }

  /** The list without the entry at a position. */
  function Without(list: Entries, i: nat): Entries
    requires i < |list|
  {
    list[..i] + list[i + 1..]
  }

  /** The list when the scan has come down to a position. */
  function Scanned(list: Entries, clock: seq<int>, i: nat): (r: Entries)
    requires i <= |list| == |clock|
    ensures i <= |r| && forall j :: 0 <= j < i ==> r[j] == list[j]
    decreases |list| - i
  {
    if i == |list| then list
    else
      var before := Scanned(list, clock, i + 1);
      if ValidAt(list, clock, i) then before else Without(before, i)
  }

  lemma Around(list: Entries, i: nat, after: Entries)
    requires i < |list|
    ensures var all := list[..i + 1] + after;
      Without(all, i) == list[..i] + after && all == list[..i] + ([list[i]] + after)
  {
    assert list[..i + 1] == list[..i] + [list[i]];
  }

  lemma {:induction false} ScannedIs(list: Entries, clock: seq<int>, i: nat)
    requires i <= |list| == |clock|
    ensures Scanned(list, clock, i) == list[..i] + ValidFrom(list, clock, i)
    decreases |list| - i
  {
    if i < |list| {
      ScannedIs(list, clock, i + 1);
      var rest := ValidFrom(list, clock, i + 1);
      Around(list, i, rest);
      if ValidAt(list, clock, i) {
        assert ValidFrom(list, clock, i) == [list[i]] + rest;
      } else {
        assert ValidFrom(list, clock, i) == [] + rest == rest;
      }
    }
  }

  class ChargingStation {
    var remoteAuthorizations: Entries
    /** What the store holds, and how often it was written. */
    var stored: Entries
    var saves: nat

    constructor (list: Entries)
      ensures remoteAuthorizations == stored == list && saves == 0
    {
      remoteAuthorizations, stored, saves := list, list, 0;
    }

    /** Looks at one entry: removes it if it is not valid, and tells whether it is valid for the tag. */
    method Visit(i: nat, uid: Option<string>, now: int) returns (found: bool, removed: bool)
      requires i < |remoteAuthorizations|
      modifies `remoteAuthorizations
      ensures var entry := old(remoteAuthorizations)[i];
        var valid := entry.Some? && IsAuthorizationValid(entry.value.timestamp, now);
        && removed == !valid && found == (valid && Some(entry.value.tagId) == uid)
        && remoteAuthorizations == if valid then old(remoteAuthorizations) else Without(old(remoteAuthorizations), i)
    {
      var entry := remoteAuthorizations[i];
      if entry.Some? && IsAuthorizationValid(entry.value.timestamp, now) {
        return Some(entry.value.tagId) == uid, false;
      }
      remoteAuthorizations := remoteAuthorizations[..i] + remoteAuthorizations[i + 1..];
      return false, true;
    }

    /** The backward loop: stops at the last entry valid for the tag, and removes what it passed that is not valid;
        `k` is the number of entries up to the one it stopped at. */
    method Scan(uid: Option<string>, clock: seq<int>) returns (k: nat, updated: bool)
      requires |clock| == |remoteAuthorizations|
      modifies `remoteAuthorizations
      ensures var list := old(remoteAuthorizations);
        && k == UpToLast(list, clock, uid, |list|) && remoteAuthorizations == Scanned(list, clock, k)
        && |remoteAuthorizations| <= |list| && (updated <==> |remoteAuthorizations| < |list|)
    {
      ghost var list := remoteAuthorizations;
      updated := false;
      var i := |remoteAuthorizations|;
      while i > 0
        invariant 0 <= i <= |list| && remoteAuthorizations == Scanned(list, clock, i)
        invariant UpToLast(list, clock, uid, |list|) == UpToLast(list, clock, uid, i)
        invariant |remoteAuthorizations| <= |list| && (updated <==> |remoteAuthorizations| < |list|)
      {
        var found, removed := Visit(i - 1, uid, clock[i - 1]);
        if found {
          return i, updated;
        }
        updated := updated || removed;
        i := i - 1;
      }
      return 0, updated;
    }

    /** Returns the identifier of the last entry valid for the tag; removes what it passed that is not valid; and
        saves exactly when something was removed. */
    method FindAuthorization(uid: Option<string>, clock: seq<int>) returns (authorizationID: Option<string>)
      requires |clock| == |remoteAuthorizations|
      modifies this
      ensures var list := old(remoteAuthorizations); var k := UpToLast(list, clock, uid, |list|);
        && remoteAuthorizations == Left(list, clock, uid)
        && authorizationID == (if k > 0 then Some(list[k - 1].value.id) else None)
        && (if |remoteAuthorizations| < |list|
            then stored == remoteAuthorizations && saves == old(saves) + 1
            else stored == old(stored) && saves == old(saves))
    {
      authorizationID := None;
      if |remoteAuthorizations| > 0 {
        ghost var list := remoteAuthorizations;
        var k, updated := Scan(uid, clock);
        ScannedIs(list, clock, k);
        if k > 0 {
          authorizationID := Some(remoteAuthorizations[k - 1].value.id);
        }
        if updated {
          stored, saves := remoteAuthorizations, saves + 1;
        }
      }
    }
  }
}
