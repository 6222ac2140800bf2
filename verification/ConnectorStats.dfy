/** The statistics of a list of charging stations: how many there are, and what their connectors are doing. */
module ConnectorStats {
  import opened Options

  datatype Status = AVAILABLE | PREPARING | CHARGING | OCCUPIED | SUSPENDED_EVSE | SUSPENDED_EV | FINISHING | RESERVED
    | UNAVAILABLE | FAULTED

  /** The connectors of a station may have gaps. */
  datatype Station = Station(deleted: bool, inactive: bool, connectors: seq<Option<Status>>)

  datatype Bucket = Unavailable | Available | Suspended | Charging | Faulted | Preparing | Finishing

  datatype Stats = Stats(totalChargers: nat, availableChargers: nat, totalConnectors: nat, connectors: map<Bucket, nat>)

  function BucketOf(inactive: bool, status: Status): Option<Bucket> {
    if inactive || status == UNAVAILABLE then Some(Unavailable)
    else match status
      case AVAILABLE => Some(Available)
      case SUSPENDED_EV => Some(Suspended)
      case SUSPENDED_EVSE => Some(Suspended)
      case CHARGING => Some(Charging)
      case OCCUPIED => Some(Charging)
      case FAULTED => Some(Faulted)
      case PREPARING => Some(Preparing)
      case FINISHING => Some(Finishing)
      case _ => None
  }

  /** How many connectors are in a bucket, or in none. */
  function CountIn(connectors: seq<Option<Status>>, inactive: bool, b: Option<Bucket>): nat {
    if connectors == [] then 0
    else
      var last := connectors[|connectors| - 1];
      CountIn(connectors[..|connectors| - 1], inactive, b)
      + if last.Some? && BucketOf(inactive, last.value) == b then 1 else 0
  }

  function Count(connectors: seq<Option<Status>>): nat {
    if connectors == [] then 0
    else Count(connectors[..|connectors| - 1]) + if connectors[|connectors| - 1].Some? then 1 else 0
  }

  predicate HasAvailable(s: Station) {
    !s.inactive && Some(AVAILABLE) in s.connectors
  }

  function ConnectorsIn(stations: seq<Station>, b: Option<Bucket>): nat {
    if stations == [] then 0
    else
      var last := stations[|stations| - 1];
      ConnectorsIn(stations[..|stations| - 1], b)
      + if last.deleted then 0 else CountIn(last.connectors, last.inactive, b)
  }

  function Connectors(stations: seq<Station>): nat {
    if stations == [] then 0
    else
      var last := stations[|stations| - 1];
      Connectors(stations[..|stations| - 1]) + if last.deleted then 0 else Count(last.connectors)
  }

  function Chargers(stations: seq<Station>): nat {
    if stations == [] then 0
    else Chargers(stations[..|stations| - 1]) + if stations[|stations| - 1].deleted then 0 else 1
  }

  function AvailableChargers(stations: seq<Station>): nat {
    if stations == [] then 0
    else
      var last := stations[|stations| - 1];
      AvailableChargers(stations[..|stations| - 1]) + if !last.deleted && HasAvailable(last) then 1 else 0
  }

  ghost predicate StatsOf(stats: Stats, stations: seq<Station>) {
    && stats.totalChargers == Chargers(stations) && stats.availableChargers == AvailableChargers(stations)
    && stats.totalConnectors == Connectors(stations)
    && forall b: Bucket :: b in stats.connectors && stats.connectors[b] == ConnectorsIn(stations, Some(b))
  }

  method GetConnectorStatuses(stations: seq<Station>) returns (stats: Stats)
    ensures StatsOf(stats, stations)
  {
    stats := Stats(0, 0, 0, map[Unavailable := 0, Available := 0, Suspended := 0, Charging := 0, Faulted := 0,
                                Preparing := 0, Finishing := 0]);
    forall b: Bucket ensures b in stats.connectors && stats.connectors[b] == 0 {
      match b {
        case Unavailable => case Available => case Suspended => case Charging => case Faulted =>
        case Preparing => case Finishing =>
      }
    }
    for i := 0 to |stations|
      invariant StatsOf(stats, stations[..i])
    {
      assert stations[..i + 1][..i] == stations[..i];
      var station := stations[i];
      if station.deleted {
        continue;
      }
      var total, counts := AddConnectors(station, stats.totalConnectors, stats.connectors);
      var available := IsAvailable(station);
      stats := Stats(stats.totalChargers + 1, stats.availableChargers + (if available then 1 else 0), total, counts);
    }
    assert stations[..|stations|] == stations;
  }

  method AddConnectors(s: Station, before: nat, countsBefore: map<Bucket, nat>)
    returns (total: nat, counts: map<Bucket, nat>)
    requires forall b: Bucket :: b in countsBefore
    ensures total == before + Count(s.connectors)
    ensures forall b: Bucket :: b in counts && counts[b] == countsBefore[b] + CountIn(s.connectors, s.inactive, Some(b))
  {
    total, counts := before, countsBefore;
    for i := 0 to |s.connectors|
      invariant total == before + Count(s.connectors[..i])
      invariant forall b: Bucket ::
        b in counts && counts[b] == countsBefore[b] + CountIn(s.connectors[..i], s.inactive, Some(b))
    {
      assert s.connectors[..i + 1][..i] == s.connectors[..i];
      if s.connectors[i].None? {
        continue;
      }
      total := total + 1;
      var bucket := BucketOf(s.inactive, s.connectors[i].value);
      if bucket.Some? {
        counts := counts[bucket.value := counts[bucket.value] + 1];
      }
    }
    assert s.connectors[..|s.connectors|] == s.connectors;
  }

  method IsAvailable(s: Station) returns (available: bool)
    ensures available == HasAvailable(s)
  {
    for i := 0 to |s.connectors|
      invariant !s.inactive ==> Some(AVAILABLE) !in s.connectors[..i]
    {
      if s.connectors[i].None? {
        continue;
      }
      if !s.inactive && s.connectors[i].value == AVAILABLE {
        return true;
      }
    }
    assert s.connectors[..|s.connectors|] == s.connectors;
    return false;
  }

  // What the numbers have to do with each other

  lemma {:induction false} CountAddsUp(connectors: seq<Option<Status>>, inactive: bool)
    ensures Count(connectors)
      == CountIn(connectors, inactive, Some(Unavailable)) + CountIn(connectors, inactive, Some(Available))
      + CountIn(connectors, inactive, Some(Suspended)) + CountIn(connectors, inactive, Some(Charging))
      + CountIn(connectors, inactive, Some(Faulted)) + CountIn(connectors, inactive, Some(Preparing))
      + CountIn(connectors, inactive, Some(Finishing)) + CountIn(connectors, inactive, None)
  {
    if connectors != [] {
      CountAddsUp(connectors[..|connectors| - 1], inactive);
    }
  }

  /** The connectors are those in the seven buckets and, of active stations, those whose status has none. */
  lemma {:induction false} BucketsAddUp(stations: seq<Station>)
    ensures Connectors(stations) == ConnectorsIn(stations, Some(Unavailable)) + ConnectorsIn(stations, Some(Available))
      + ConnectorsIn(stations, Some(Suspended)) + ConnectorsIn(stations, Some(Charging))
      + ConnectorsIn(stations, Some(Faulted)) + ConnectorsIn(stations, Some(Preparing))
      + ConnectorsIn(stations, Some(Finishing)) + ConnectorsIn(stations, None)
  {
    if stations != [] {
      BucketsAddUp(stations[..|stations| - 1]);
      CountAddsUp(stations[|stations| - 1].connectors, stations[|stations| - 1].inactive);
    }
  }

  lemma {:induction false} AvailableCounts(connectors: seq<Option<Status>>)
    requires Some(AVAILABLE) in connectors
    ensures CountIn(connectors, false, Some(Available)) > 0
  {
    if connectors[|connectors| - 1] != Some(AVAILABLE) {
      AvailableCounts(connectors[..|connectors| - 1]);
    }
  }

  /** There are at most as many available chargers as chargers, and as available connectors. */
  lemma {:induction false} AvailableAtMost(stations: seq<Station>)
    ensures AvailableChargers(stations) <= Chargers(stations)
    ensures AvailableChargers(stations) <= ConnectorsIn(stations, Some(Available))
  {
    if stations != [] {
      AvailableAtMost(stations[..|stations| - 1]);
      if HasAvailable(stations[|stations| - 1]) {
        AvailableCounts(stations[|stations| - 1].connectors);
      }
    }
  }

  /** All numbers add up over lists of stations put together. */
  lemma {:induction false} StatsAddUp(a: seq<Station>, b: seq<Station>, bucket: Option<Bucket>)
    ensures Chargers(a + b) == Chargers(a) + Chargers(b)
    ensures AvailableChargers(a + b) == AvailableChargers(a) + AvailableChargers(b)
    ensures Connectors(a + b) == Connectors(a) + Connectors(b)
    ensures ConnectorsIn(a + b, bucket) == ConnectorsIn(a, bucket) + ConnectorsIn(b, bucket)
  {
    if b == [] {
      assert a + b == a;
    } else {
      assert (a + b)[..|a + b| - 1] == a + b[..|b| - 1];
      StatsAddUp(a, b[..|b| - 1], bucket);
    }
  }

  // What the numbers are of one station, from which those of a list are told by adding up

  /** The statuses that are counted as one thing, of a station that is active. */
  function StatusesOf(b: Bucket): set<Status> {
    match b
    case Unavailable => {UNAVAILABLE}
    case Available => {AVAILABLE}
    case Suspended => {SUSPENDED_EV, SUSPENDED_EVSE}
    case Charging => {CHARGING, OCCUPIED}
    case Faulted => {FAULTED}
    case Preparing => {PREPARING}
    case Finishing => {FINISHING}
  }

  /** The connectors there are, by position. */
  ghost function Present(connectors: seq<Option<Status>>): set<nat> {
    set i: nat | i < |connectors| && connectors[i].Some?
  }

  /** Whether a connector is counted as something: of an inactive station each as unavailable, of an active one by its
      status. */
  predicate IsIn(connector: Option<Status>, inactive: bool, b: Bucket) {
    connector.Some? && if inactive then b == Unavailable else connector.value in StatusesOf(b)
  }

  ghost function PresentIn(connectors: seq<Option<Status>>, inactive: bool, b: Bucket): set<nat> {
    set i: nat | i < |connectors| && IsIn(connectors[i], inactive, b)
  }

  lemma BucketTells(connector: Option<Status>, inactive: bool, b: Bucket)
    ensures connector.Some? && BucketOf(inactive, connector.value) == Some(b) <==> IsIn(connector, inactive, b)
  {
  }

  lemma {:induction false} CountIsSize(connectors: seq<Option<Status>>)
    ensures Count(connectors) == |Present(connectors)|
  {
    if connectors != [] {
      var n := |connectors| - 1;
      CountIsSize(connectors[..n]);
      assert Present(connectors) == Present(connectors[..n]) + if connectors[n].Some? then {n} else {};
    }
  }

  lemma PresentOneMore(front: seq<Option<Status>>, last: Option<Status>, inactive: bool, b: Bucket)
    ensures var here: set<nat> := if IsIn(last, inactive, b) then {|front|} else {};
      PresentIn(front + [last], inactive, b) == PresentIn(front, inactive, b) + here
  {
  }

  lemma {:induction false} CountInIsSize(connectors: seq<Option<Status>>, inactive: bool, b: Bucket)
    ensures CountIn(connectors, inactive, Some(b)) == |PresentIn(connectors, inactive, b)|
  {
    if connectors != [] {
      var n := |connectors| - 1;
      CountInIsSize(connectors[..n], inactive, b);
      BucketTells(connectors[n], inactive, b);
      PresentOneMore(connectors[..n], connectors[n], inactive, b);
      assert connectors == connectors[..n] + [connectors[n]];
    }
  }

  /** A deleted station counts for nothing. Another is one charger, available if it is active and some connector is;
      its connectors are those there are, and each is counted by its status, or as unavailable if the station is
      inactive. */
  lemma OneStation(s: Station, b: Bucket)
    ensures s.deleted ==> Chargers([s]) == AvailableChargers([s]) == Connectors([s]) == ConnectorsIn([s], Some(b)) == 0
    ensures !s.deleted ==>
      && Chargers([s]) == 1
      && AvailableChargers([s]) == (if !s.inactive && Some(AVAILABLE) in s.connectors then 1 else 0)
      && Connectors([s]) == |Present(s.connectors)|
      && ConnectorsIn([s], Some(b)) == |PresentIn(s.connectors, s.inactive, b)|
  {
    assert [s][..0] == [];
    CountIsSize(s.connectors);
    CountInIsSize(s.connectors, s.inactive, b);
  }
}
