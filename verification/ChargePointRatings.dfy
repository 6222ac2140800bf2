/**
 What a charging station, one of its charge points or one of its connectors can draw: amperage, power, and the
 amperage limit in force. Exact numbers; a missing rating counts as zero, as it does in the server.
*/
module ChargePointRatings {
  import opened Options

  datatype Rating = AMPERAGE | POWER

  datatype Connector = Connector(connectorId: nat, amperage: real, power: real, voltage: real,
      amperageLimit: Option<real>) {
    function Of(which: Rating): real {
      if which.AMPERAGE? then amperage else power
    }
  }

  datatype ChargePoint = ChargePoint(chargePointID: nat, amperage: real, power: real, voltage: real,
    connectorIDs: seq<nat>, cannotChargeInParallel: bool, sharePowerToAllConnectors: bool,
    excludeFromPowerLimitation: bool)
  {
    function Of(which: Rating): real {
      if which.AMPERAGE? then amperage else power
    }

    predicate OneAtATime() {
      cannotChargeInParallel || sharePowerToAllConnectors
    }

    /** Whether this charge point is asked for: either all are, or the one with a given identifier. */
    predicate Asked(asked: Option<nat>) {
      asked.None? || asked.value == chargePointID
    }

    predicate Serves(id: nat, which: Rating) {
      id in connectorIDs && Of(which) != 0.0
    }
  }

  datatype Station = Station(voltage: real, chargePoints: seq<ChargePoint>, connectors: seq<Connector>)

  function ConnectorFromID(connectors: seq<Connector>, id: nat): (r: Option<Connector>)
    ensures r.Some? ==> r.value in connectors && r.value.connectorId == id
    ensures r.None? ==> forall c :: c in connectors ==> c.connectorId != id
  {
    if connectors == [] then None
    else if connectors[0].connectorId == id then Some(connectors[0])
    else ConnectorFromID(connectors[1..], id)
  }

  /** The connector at a position has the number, and none before it has. */
  predicate IsFirst(connectors: seq<Connector>, id: nat, i: int) {
    && 0 <= i < |connectors| && connectors[i].connectorId == id
    && forall j :: 0 <= j < i ==> connectors[j].connectorId != id
  }

  /** The one that is found is the first of its number. */
  lemma {:induction false} FirstIsFound(connectors: seq<Connector>, id: nat, i: int)
    requires IsFirst(connectors, id, i)
    ensures ConnectorFromID(connectors, id) == Some(connectors[i])
  {
    if i > 0 {
      FirstIsFound(connectors[1..], id, i - 1);
    }
  }

  // The specification: who answers for a connector, and sums.

  function FirstServing(points: seq<ChargePoint>, asked: Option<nat>, id: nat, which: Rating): (r: Option<ChargePoint>)
    ensures r.Some? ==> r.value.Serves(id, which)
  {
    if points == [] then None
    else if points[0].Asked(asked) && points[0].Serves(id, which) then Some(points[0])
    else FirstServing(points[1..], asked, id, which)
  }

  function FirstRated(connectors: seq<Connector>, id: nat, which: Rating): Option<real> {
    if connectors == [] then None
    else if connectors[0].connectorId == id && connectors[0].Of(which) != 0.0 then Some(connectors[0].Of(which))
    else FirstRated(connectors[1..], id, which)
  }

  function SumPoints(points: seq<ChargePoint>, asked: Option<nat>, which: Rating): real {
    if points == [] then 0.0
    else (if points[0].Asked(asked) then points[0].Of(which) else 0.0) + SumPoints(points[1..], asked, which)
  }

  function SumConnectors(connectors: seq<Connector>, which: Rating): real {
    if connectors == [] then 0.0 else connectors[0].Of(which) + SumConnectors(connectors[1..], which)
  }

  /** A connector's part of its charge point. */
  function Share(s: Station, point: ChargePoint, id: nat, which: Rating): real
    requires point.Serves(id, which)
  {
    if point.OneAtATime() then
      var c := ConnectorFromID(s.connectors, id);
      if c.Some? && c.value.Of(which) != 0.0 then c.value.Of(which) else point.Of(which)
    else point.Of(which) / |point.connectorIDs| as real
  }

  function AtConnectors(s: Station, id: nat, which: Rating): real {
    var own := FirstRated(s.connectors, id, which);
    if own.Some? then own.value else if id == 0 then SumConnectors(s.connectors, which) else 0.0
  }

  /** The rating of a connector, or of everything that is asked for when the connector is 0. */
  function RatingOf(s: Station, asked: Option<nat>, id: nat, which: Rating): real {
    if id == 0 then
      var sum := SumPoints(s.chargePoints, asked, which);
      if sum != 0.0 then sum else AtConnectors(s, id, which)
    else
      var point := FirstServing(s.chargePoints, asked, id, which);
      if point.Some? then Share(s, point.value, id, which) else AtConnectors(s, id, which)
  }

  method GetRating(s: Station, asked: Option<nat>, id: nat, which: Rating) returns (total: real)
    ensures total == RatingOf(s, asked, id, which)
  {
    total := 0.0;
    for i := 0 to |s.chargePoints|
      invariant id == 0 ==>
        total + SumPoints(s.chargePoints[i..], asked, which) == SumPoints(s.chargePoints, asked, which)
      invariant id != 0 ==> total == 0.0
      invariant id != 0 ==>
        FirstServing(s.chargePoints[i..], asked, id, which) == FirstServing(s.chargePoints, asked, id, which)
    {
      var point := s.chargePoints[i];
      assert s.chargePoints[i..][0] == point && s.chargePoints[i..][1..] == s.chargePoints[i + 1..];
      if point.Asked(asked) {
        if id == 0 && point.Of(which) != 0.0 {
          total := total + point.Of(which);
        } else if id in point.connectorIDs && point.Of(which) != 0.0 {
          if point.OneAtATime() {
            var connector := ConnectorFromID(s.connectors, id);
            if connector.Some? && connector.value.Of(which) != 0.0 {
              return connector.value.Of(which);
            }
            return point.Of(which);
          }
          return point.Of(which) / |point.connectorIDs| as real;
        }
      }
    }
    if total == 0.0 {
      total := GetAtConnectors(s, id, which);
    }
  }

  method GetAtConnectors(s: Station, id: nat, which: Rating) returns (total: real)
    ensures total == AtConnectors(s, id, which)
  {
    total := 0.0;
    for i := 0 to |s.connectors|
      invariant FirstRated(s.connectors[i..], id, which) == FirstRated(s.connectors, id, which)
      invariant if id == 0 then total + SumConnectors(s.connectors[i..], which) == SumConnectors(s.connectors, which)
                else total == 0.0
    {
      var connector := s.connectors[i];
      assert s.connectors[i..][0] == connector && s.connectors[i..][1..] == s.connectors[i + 1..];
      if id == 0 && connector.Of(which) != 0.0 {
        total := total + connector.Of(which);
      }
      if connector.connectorId == id && connector.Of(which) != 0.0 {
        return connector.Of(which);
      }
    }
  }

  // Voltage and power

  const DEFAULT_VOLTAGE := 230.0

  /** The voltage of the first charge point that tells one for the connector, or for the whole. */
  function VoltageOfPoints(s: Station, points: seq<ChargePoint>, asked: Option<nat>, id: nat): (v: Option<real>)
    ensures v.Some? ==> v.value != 0.0
  {
    if points == [] then None
    else
      var point := points[0];
      if !point.Asked(asked) || point.voltage == 0.0 || (id != 0 && id !in point.connectorIDs) then
        VoltageOfPoints(s, points[1..], asked, id)
      else
        var c := ConnectorFromID(s.connectors, id);
        Some(if id != 0 && c.Some? && c.value.voltage != 0.0 then c.value.voltage else point.voltage)
  }

  function VoltageOfConnectors(connectors: seq<Connector>, id: nat): (v: Option<real>)
    ensures v.Some? ==> v.value != 0.0
  {
    if connectors == [] then None
    else if connectors[0].voltage != 0.0 && (id == 0 || connectors[0].connectorId == id) then
      Some(connectors[0].voltage)
    else VoltageOfConnectors(connectors[1..], id)
  }

  /** The voltage of the station, else of a charge point or connector, else the default; never zero. */
  function VoltageOf(s: Station, asked: Option<nat>, id: nat): (v: real)
    ensures v != 0.0
  {
    if s.voltage != 0.0 then s.voltage
    else if VoltageOfPoints(s, s.chargePoints, asked, id).Some? then VoltageOfPoints(s, s.chargePoints, asked, id).value
    else if VoltageOfConnectors(s.connectors, id).Some? then VoltageOfConnectors(s.connectors, id).value
    else DEFAULT_VOLTAGE
  }

  method GetVoltage(s: Station, asked: Option<nat>, id: nat) returns (v: real)
    ensures v == VoltageOf(s, asked, id)
  {
    if s.voltage != 0.0 {
      return s.voltage;
    }
    for i := 0 to |s.chargePoints|
      invariant VoltageOfPoints(s, s.chargePoints[i..], asked, id) == VoltageOfPoints(s, s.chargePoints, asked, id)
    {
      var point := s.chargePoints[i];
      assert s.chargePoints[i..][0] == point && s.chargePoints[i..][1..] == s.chargePoints[i + 1..];
      if point.Asked(asked) {
        if id == 0 && point.voltage != 0.0 {
          return point.voltage;
        }
        if id in point.connectorIDs && point.voltage != 0.0 {
          var connector := ConnectorFromID(s.connectors, id);
          if connector.Some? && connector.value.voltage != 0.0 {
            return connector.value.voltage;
          }
          return point.voltage;
        }
      }
    }
    for i := 0 to |s.connectors|
      invariant VoltageOfConnectors(s.connectors[i..], id) == VoltageOfConnectors(s.connectors, id)
    {
      var connector := s.connectors[i];
      assert s.connectors[i..][0] == connector && s.connectors[i..][1..] == s.connectors[i + 1..];
      if id == 0 && connector.voltage != 0.0 {
        return connector.voltage;
      }
      if connector.connectorId == id && connector.voltage != 0.0 {
        return connector.voltage;
      }
    }
    return DEFAULT_VOLTAGE;
  }

  /** Power falls back on voltage times amperage. */
  method GetPower(s: Station, asked: Option<nat>, id: nat) returns (power: real)
    ensures var rated := RatingOf(s, asked, id, POWER);
      power == if rated != 0.0 then rated else VoltageOf(s, asked, id) * RatingOf(s, asked, id, AMPERAGE)
  {
    power := GetRating(s, asked, id, POWER);
    if power == 0.0 {
      var amperage := GetRating(s, asked, id, AMPERAGE);
      var voltage := GetVoltage(s, asked, id);
      if voltage != 0.0 && amperage != 0.0 {
        return voltage * amperage;
      }
    }
  }

  // What is told of ratings and voltages, field by field

  /** A charge point adds its own amperage or power to the sum wherever it stands, if it is asked for. */
  lemma {:induction false} PointInSum(before: seq<ChargePoint>, p: ChargePoint, after: seq<ChargePoint>,
      asked: Option<nat>)
    ensures var mine := asked == None || asked == Some(p.chargePointID);
      && SumPoints(before + [p] + after, asked, AMPERAGE)
         == SumPoints(before, asked, AMPERAGE) + (if mine then p.amperage else 0.0) + SumPoints(after, asked, AMPERAGE)
      && SumPoints(before + [p] + after, asked, POWER)
         == SumPoints(before, asked, POWER) + (if mine then p.power else 0.0) + SumPoints(after, asked, POWER)
  {
    if before == [] {
      assert [p] + after == before + [p] + after && ([p] + after)[1..] == after;
    } else {
      assert (before + [p] + after)[1..] == before[1..] + [p] + after;
      PointInSum(before[1..], p, after, asked);
    }
  }

  lemma {:induction false} ConnectorInSum(before: seq<Connector>, c: Connector, after: seq<Connector>)
    ensures SumConnectors(before + [c] + after, AMPERAGE)
      == SumConnectors(before, AMPERAGE) + c.amperage + SumConnectors(after, AMPERAGE)
    ensures SumConnectors(before + [c] + after, POWER)
      == SumConnectors(before, POWER) + c.power + SumConnectors(after, POWER)
  {
    if before == [] {
      assert [c] + after == before + [c] + after && ([c] + after)[1..] == after;
    } else {
      assert (before + [c] + after)[1..] == before[1..] + [c] + after;
      ConnectorInSum(before[1..], c, after);
    }
  }

  /** The whole is rated at the sum over what is asked for, or, if that is nothing, over all connectors; connectors are
      numbered from 1. */
  lemma WholeIsSum(s: Station, asked: Option<nat>, which: Rating)
    requires forall c :: c in s.connectors ==> c.connectorId != 0
    ensures var sum := SumPoints(s.chargePoints, asked, which);
      RatingOf(s, asked, 0, which) == if sum != 0.0 then sum else SumConnectors(s.connectors, which)
  {
    NoneRated(s.connectors, 0, which);
  }

  lemma {:induction false} NoneRated(connectors: seq<Connector>, id: nat, which: Rating)
    requires forall c :: c in connectors ==> c.connectorId != id
    ensures FirstRated(connectors, id, which) == None
  {
    if connectors != [] {
      assert connectors[0] in connectors;
      NoneRated(connectors[1..], id, which);
    }
  }

  /** The charge point is asked for, has the connector, and is rated. */
  predicate Tells(p: ChargePoint, asked: Option<nat>, id: nat, which: Rating) {
    && (asked == None || asked == Some(p.chargePointID)) && id in p.connectorIDs
    && (if which.AMPERAGE? then p.amperage else p.power) != 0.0
  }

  /** A connector has the rating that the first such charge point gives it: if its connectors cannot charge together or
      share all of it, the connector's own rating or else the whole one; otherwise an even part. */
  lemma ConnectorIsTold(s: Station, asked: Option<nat>, id: nat, which: Rating, k: nat)
    requires id != 0 && k < |s.chargePoints| && Tells(s.chargePoints[k], asked, id, which)
    requires forall i :: 0 <= i < k ==> !Tells(s.chargePoints[i], asked, id, which)
    ensures var p, c := s.chargePoints[k], ConnectorFromID(s.connectors, id);
      var whole := if which.AMPERAGE? then p.amperage else p.power;
      var own := if c.None? then 0.0 else if which.AMPERAGE? then c.value.amperage else c.value.power;
      RatingOf(s, asked, id, which)
        == if p.cannotChargeInParallel || p.sharePowerToAllConnectors then (if own != 0.0 then own else whole)
           else whole / |p.connectorIDs| as real
  {
    FirstTelling(s.chargePoints, asked, id, which, k);
  }

  lemma {:induction false} FirstTelling(points: seq<ChargePoint>, asked: Option<nat>, id: nat, which: Rating, k: nat)
    requires k < |points| && Tells(points[k], asked, id, which)
    requires forall i :: 0 <= i < k ==> !Tells(points[i], asked, id, which)
    ensures FirstServing(points, asked, id, which) == Some(points[k])
  {
    if k > 0 {
      assert !Tells(points[0], asked, id, which);
      FirstTelling(points[1..], asked, id, which, k - 1);
    }
  }

  /** If no charge point tells, it is the first rating told of a connector of that number; and nothing if there is
      none. */
  lemma ConnectorTellsItself(s: Station, asked: Option<nat>, id: nat, which: Rating)
    requires id != 0 && forall p :: p in s.chargePoints ==> !Tells(p, asked, id, which)
    ensures
      if exists i :: IsFirstRated(s.connectors, id, which, i) then
        exists i :: IsFirstRated(s.connectors, id, which, i)
          && RatingOf(s, asked, id, which)
               == if which.AMPERAGE? then s.connectors[i].amperage else s.connectors[i].power
      else RatingOf(s, asked, id, which) == 0.0
  {
    NoneTells(s.chargePoints, asked, id, which);
    if i :| IsFirstRated(s.connectors, id, which, i) {
      FirstRatedIs(s.connectors, id, which, i);
    } else {
      NoFirstRated(s.connectors, id, which);
    }
  }

  predicate IsRated(c: Connector, id: nat, which: Rating) {
    c.connectorId == id && (if which.AMPERAGE? then c.amperage else c.power) != 0.0
  }

  predicate IsFirstRated(connectors: seq<Connector>, id: nat, which: Rating, i: int) {
    0 <= i < |connectors| && IsRated(connectors[i], id, which)
    && forall j :: 0 <= j < i ==> !IsRated(connectors[j], id, which)
  }

  lemma {:induction false} FirstRatedIs(connectors: seq<Connector>, id: nat, which: Rating, i: int)
    requires IsFirstRated(connectors, id, which, i)
    ensures FirstRated(connectors, id, which)
      == Some(if which.AMPERAGE? then connectors[i].amperage else connectors[i].power)
  {
    if i > 0 {
      assert !IsRated(connectors[0], id, which);
      FirstRatedIs(connectors[1..], id, which, i - 1);
    }
  }

  lemma {:induction false} NoFirstRated(connectors: seq<Connector>, id: nat, which: Rating)
    requires forall i :: !IsFirstRated(connectors, id, which, i)
    ensures FirstRated(connectors, id, which) == None
  {
    if connectors != [] {
      assert !IsFirstRated(connectors, id, which, 0);
      forall i ensures !IsFirstRated(connectors[1..], id, which, i) {
        if IsFirstRated(connectors[1..], id, which, i) {
          forall j | 0 <= j < i + 1 ensures !IsRated(connectors[j], id, which) {
            if j > 0 {
              assert !IsRated(connectors[1..][j - 1], id, which);
            }
          }
          assert IsFirstRated(connectors, id, which, i + 1);
        }
      }
      NoFirstRated(connectors[1..], id, which);
    }
  }

  lemma {:induction false} NoneTells(points: seq<ChargePoint>, asked: Option<nat>, id: nat, which: Rating)
    requires forall p :: p in points ==> !Tells(p, asked, id, which)
    ensures FirstServing(points, asked, id, which) == None
  {
    if points != [] {
      assert points[0] in points;
      NoneTells(points[1..], asked, id, which);
    }
  }

  /** The charge point is asked for, is told a voltage, and has the connector, if one is meant. */
  predicate TellsVoltage(p: ChargePoint, asked: Option<nat>, id: nat) {
    (asked == None || asked == Some(p.chargePointID)) && p.voltage != 0.0 && (id == 0 || id in p.connectorIDs)
  }

  ghost predicate FirstTellsVoltage(points: seq<ChargePoint>, asked: Option<nat>, id: nat, k: int) {
    && 0 <= k < |points| && TellsVoltage(points[k], asked, id)
    && forall i :: 0 <= i < k ==> !TellsVoltage(points[i], asked, id)
  }

  ghost predicate NoneTellsVoltage(points: seq<ChargePoint>, asked: Option<nat>, id: nat) {
    forall i :: 0 <= i < |points| ==> !TellsVoltage(points[i], asked, id)
  }

  predicate HasVoltage(c: Connector, id: nat) {
    c.voltage != 0.0 && (id == 0 || c.connectorId == id)
  }

  ghost predicate FirstHasVoltage(connectors: seq<Connector>, id: nat, k: int) {
    && 0 <= k < |connectors| && HasVoltage(connectors[k], id)
    && forall i :: 0 <= i < k ==> !HasVoltage(connectors[i], id)
  }

  ghost predicate NoneHasVoltage(connectors: seq<Connector>, id: nat) {
    forall i :: 0 <= i < |connectors| ==> !HasVoltage(connectors[i], id)
  }

  /** The voltage: that of the station; else that of the connector at the first charge point that tells one, or of that
      charge point; else that of the first connector that tells one; else 230 volts. */
  lemma VoltageIs(s: Station, asked: Option<nat>, id: nat, k: nat)
    ensures s.voltage != 0.0 ==> VoltageOf(s, asked, id) == s.voltage
    ensures s.voltage == 0.0 && FirstTellsVoltage(s.chargePoints, asked, id, k) ==>
      var c := ConnectorFromID(s.connectors, id);
      VoltageOf(s, asked, id)
        == if id != 0 && c.Some? && c.value.voltage != 0.0 then c.value.voltage else s.chargePoints[k].voltage
    ensures s.voltage == 0.0 && NoneTellsVoltage(s.chargePoints, asked, id) ==>
      && (FirstHasVoltage(s.connectors, id, k) ==> VoltageOf(s, asked, id) == s.connectors[k].voltage)
      && (NoneHasVoltage(s.connectors, id) ==> VoltageOf(s, asked, id) == 230.0)
  {
    PointVoltageIs(s, s.chargePoints, asked, id, k);
    ConnectorVoltageIs(s.connectors, id, k);
  }

  lemma {:induction false} PointVoltageIs(s: Station, points: seq<ChargePoint>, asked: Option<nat>, id: nat, k: nat)
    ensures FirstTellsVoltage(points, asked, id, k) ==>
      var c := ConnectorFromID(s.connectors, id);
      VoltageOfPoints(s, points, asked, id)
        == Some(if id != 0 && c.Some? && c.value.voltage != 0.0 then c.value.voltage else points[k].voltage)
    ensures NoneTellsVoltage(points, asked, id) ==> VoltageOfPoints(s, points, asked, id) == None
  {
    if points != [] && !TellsVoltage(points[0], asked, id) {
      PointVoltageIs(s, points[1..], asked, id, if k > 0 then k - 1 else 0);
    }
  }

  lemma {:induction false} ConnectorVoltageIs(connectors: seq<Connector>, id: nat, k: nat)
    ensures FirstHasVoltage(connectors, id, k) ==> VoltageOfConnectors(connectors, id) == Some(connectors[k].voltage)
    ensures NoneHasVoltage(connectors, id) ==> VoltageOfConnectors(connectors, id) == None
  {
    if connectors != [] && !HasVoltage(connectors[0], id) {
      ConnectorVoltageIs(connectors[1..], id, if k > 0 then k - 1 else 0);
    }
  }

  // Conservation

  /** Charge points with positive ratings that split evenly over connector lists that are non-empty, share no
      connector with another charge point, and do not name connector 0. */
  ghost predicate SplitsEvenly(s: Station, which: Rating) {
    && (forall p :: p in s.chargePoints ==>
          p.Of(which) > 0.0 && !p.OneAtATime() && p.connectorIDs != [] && 0 !in p.connectorIDs)
    && forall i, j, id :: 0 <= i < j < |s.chargePoints| && id in s.chargePoints[i].connectorIDs
         ==> id !in s.chargePoints[j].connectorIDs
  }

  function SumOver(s: Station, asked: Option<nat>, ids: seq<nat>, which: Rating): real {
    if ids == [] then 0.0 else RatingOf(s, asked, ids[0], which) + SumOver(s, asked, ids[1..], which)
  }

  function SumOverAll(s: Station, points: seq<ChargePoint>, which: Rating): real {
    if points == [] then 0.0 else SumOver(s, None, points[0].connectorIDs, which) + SumOverAll(s, points[1..], which)
  }

  lemma {:induction false} FirstIs(points: seq<ChargePoint>, asked: Option<nat>, id: nat, which: Rating, k: nat)
    requires k < |points| && points[k].Asked(asked) && points[k].Serves(id, which)
    requires forall i :: 0 <= i < k ==> id !in points[i].connectorIDs
    ensures FirstServing(points, asked, id, which) == Some(points[k])
  {
    if k > 0 {
      FirstIs(points[1..], asked, id, which, k - 1);
    }
  }

  function Repeated(n: nat, v: real): real {
    if n == 0 then 0.0 else v + Repeated(n - 1, v)
  }

  lemma {:induction false} RepeatedIsProduct(n: nat, v: real)
    ensures Repeated(n, v) == n as real * v
  {
    if n > 0 {
      RepeatedIsProduct(n - 1, v);
      var m := (n - 1) as real;
      assert n as real == 1.0 + m;
      assert (1.0 + m) * v == v + m * v;
    }
  }

  lemma {:induction false} SumSame(s: Station, asked: Option<nat>, ids: seq<nat>, which: Rating, v: real)
    requires forall id :: id in ids ==> RatingOf(s, asked, id, which) == v
    ensures SumOver(s, asked, ids, which) == Repeated(|ids|, v)
  {
    if ids != [] {
      assert ids[0] in ids;
      SumSame(s, asked, ids[1..], which, v);
    }
  }

  /** The connectors of a charge point add up to its rating, whether all charge points or only it are asked for. */
  lemma ConnectorsAddUp(s: Station, asked: Option<nat>, which: Rating, k: nat)
    requires SplitsEvenly(s, which) && k < |s.chargePoints| && s.chargePoints[k].Asked(asked)
    ensures SumOver(s, asked, s.chargePoints[k].connectorIDs, which) == s.chargePoints[k].Of(which)
  {
    var point := s.chargePoints[k];
    var n := |point.connectorIDs| as real;
    forall id | id in point.connectorIDs ensures RatingOf(s, asked, id, which) == point.Of(which) / n {
      FirstIs(s.chargePoints, asked, id, which, k);
    }
    SumSame(s, asked, point.connectorIDs, which, point.Of(which) / n);
    RepeatedIsProduct(|point.connectorIDs|, point.Of(which) / n);
    Whole(point.Of(which), n);
  }

  lemma Whole(x: real, n: real)
    requires n != 0.0
    ensures n * (x / n) == x
  {
  }

  lemma {:induction false} PointsAddUp(s: Station, which: Rating, k: nat)
    requires SplitsEvenly(s, which) && k <= |s.chargePoints|
    ensures SumOverAll(s, s.chargePoints[k..], which) == SumPoints(s.chargePoints[k..], None, which)
    ensures k < |s.chargePoints| ==> SumPoints(s.chargePoints[k..], None, which) > 0.0
    ensures SumPoints(s.chargePoints[k..], None, which) >= 0.0
    decreases |s.chargePoints| - k
  {
    if k < |s.chargePoints| {
      assert s.chargePoints[k..][1..] == s.chargePoints[k + 1..];
      ConnectorsAddUp(s, None, which, k);
      PointsAddUp(s, which, k + 1);
    }
  }

  /** The connectors of all charge points add up to what the station as a whole is rated at. */
  lemma StationIsItsConnectors(s: Station, which: Rating)
    requires SplitsEvenly(s, which) && s.chargePoints != []
    ensures SumOverAll(s, s.chargePoints, which) == RatingOf(s, None, 0, which)
  {
    assert s.chargePoints[0..] == s.chargePoints;
    PointsAddUp(s, which, 0);
  }

  // The amperage limit. None stands for what is no number: a limit that is not set, or a sum with one in it.

  function Plus(a: Option<real>, b: Option<real>): Option<real> {
    if a.Some? && b.Some? then Some(a.value + b.value) else None
  }

  function LimitOfConnector(s: Station, id: nat): Option<real> {
    var c := ConnectorFromID(s.connectors, id);
    if c.Some? then c.value.amperageLimit else None
  }

  function SumLimits(s: Station, ids: seq<nat>): Option<real> {
    if ids == [] then Some(0.0) else Plus(LimitOfConnector(s, ids[0]), SumLimits(s, ids[1..]))
  }

  /** One connector's limit where the connectors do not charge together, else the sum over them. */
  function LimitOfPoint(s: Station, point: ChargePoint): Option<real> {
    if point.excludeFromPowerLimitation then Some(0.0)
    else if !point.OneAtATime() then SumLimits(s, point.connectorIDs)
    else if point.connectorIDs == [] then None
    else LimitOfConnector(s, point.connectorIDs[0])
  }

  function SumPointLimits(s: Station, points: seq<ChargePoint>, asked: Option<nat>): Option<real> {
    if points == [] then Some(0.0)
    else
      var rest := SumPointLimits(s, points[1..], asked);
      if points[0].Asked(asked) then Plus(LimitOfPoint(s, points[0]), rest) else rest
  }

  function SumConnectorLimits(connectors: seq<Connector>): Option<real> {
    if connectors == [] then Some(0.0) else Plus(connectors[0].amperageLimit, SumConnectorLimits(connectors[1..]))
  }

  function SummedLimit(s: Station, asked: Option<nat>): Option<real> {
    var sum := SumPointLimits(s, s.chargePoints, asked);
    if sum == Some(0.0) then SumConnectorLimits(s.connectors) else sum
  }

  function LimitOf(s: Station, asked: Option<nat>, id: nat): (limit: Option<real>)
    ensures id == 0 && limit.Some? ==> limit.value <= RatingOf(s, asked, 0, AMPERAGE)
  {
    if id > 0 then LimitOfConnector(s, id)
    else
      var sum, max := SummedLimit(s, asked), RatingOf(s, asked, id, AMPERAGE);
      if sum.Some? && (sum.value == 0.0 || sum.value > max) then Some(max) else sum
  }

  method GetAmperageLimit(s: Station, asked: Option<nat>, id: nat) returns (limit: Option<real>)
    ensures limit == LimitOf(s, asked, id)
  {
    if id > 0 {
      return LimitOfConnector(s, id);
    }
    limit := Some(0.0);
    for i := 0 to |s.chargePoints|
      invariant Plus(limit, SumPointLimits(s, s.chargePoints[i..], asked)) == SumPointLimits(s, s.chargePoints, asked)
    {
      var point := s.chargePoints[i];
      assert s.chargePoints[i..][0] == point && s.chargePoints[i..][1..] == s.chargePoints[i + 1..];
      if point.Asked(asked) {
        if point.excludeFromPowerLimitation {
          continue;
        }
        limit := AddPoint(s, point, limit);
      }
    }
    if limit == Some(0.0) {
      limit := AddConnectors(s);
    }
    var max := GetRating(s, asked, id, AMPERAGE);
    if limit.Some? && (limit.value == 0.0 || limit.value > max) {
      limit := Some(max);
    }
  }

  method AddPoint(s: Station, point: ChargePoint, before: Option<real>) returns (limit: Option<real>)
    requires !point.excludeFromPowerLimitation
    ensures limit == Plus(before, LimitOfPoint(s, point))
  {
    limit := before;
    var ids := point.connectorIDs;
    if point.OneAtATime() {
      limit := Plus(limit, if ids == [] then None else LimitOfConnector(s, ids[0]));
    } else {
      for i := 0 to |ids|
        invariant Plus(limit, SumLimits(s, ids[i..])) == Plus(before, SumLimits(s, ids))
      {
        assert ids[i..][0] == ids[i] && ids[i..][1..] == ids[i + 1..];
        limit := Plus(limit, LimitOfConnector(s, ids[i]));
      }
    }
  }

  method AddConnectors(s: Station) returns (limit: Option<real>)
    ensures limit == SumConnectorLimits(s.connectors)
  {
    limit := Some(0.0);
    for i := 0 to |s.connectors|
      invariant Plus(limit, SumConnectorLimits(s.connectors[i..])) == SumConnectorLimits(s.connectors)
    {
      assert s.connectors[i..][0] == s.connectors[i] && s.connectors[i..][1..] == s.connectors[i + 1..];
      limit := Plus(limit, s.connectors[i].amperageLimit);
    }
  }

  /** Every limit that counts is set, and at most what the charge point lets its connector have: an even part of
      the rating, or all of it where connectors do not charge together. */
  ghost predicate LimitsFit(s: Station, point: ChargePoint) {
    && (point.OneAtATime() ==> point.connectorIDs != [])
    && (point.connectorIDs != [] ==>
          var part := if point.OneAtATime() then point.amperage else point.amperage / |point.connectorIDs| as real;
          forall id :: id in point.connectorIDs ==>
            LimitOfConnector(s, id).Some? && LimitOfConnector(s, id).value <= part)
  }

  lemma {:induction false} SumLimitsFit(s: Station, ids: seq<nat>, v: real)
    requires forall id :: id in ids ==> LimitOfConnector(s, id).Some? && LimitOfConnector(s, id).value <= v
    ensures SumLimits(s, ids).Some? && SumLimits(s, ids).value <= Repeated(|ids|, v)
  {
    if ids != [] {
      assert ids[0] in ids;
      SumLimitsFit(s, ids[1..], v);
    }
  }

  lemma LimitOfPointFits(s: Station, point: ChargePoint)
    requires point.amperage >= 0.0 && (point.excludeFromPowerLimitation || LimitsFit(s, point))
    ensures LimitOfPoint(s, point).Some? && LimitOfPoint(s, point).value <= point.amperage
  {
    if !point.excludeFromPowerLimitation && !point.OneAtATime() && point.connectorIDs != [] {
      var n := |point.connectorIDs| as real;
      SumLimitsFit(s, point.connectorIDs, point.amperage / n);
      RepeatedIsProduct(|point.connectorIDs|, point.amperage / n);
      Whole(point.amperage, n);
    }
  }

  lemma {:induction false} SumFits(s: Station, points: seq<ChargePoint>, asked: Option<nat>)
    requires forall p :: p in points && p.Asked(asked) ==>
      p.amperage >= 0.0 && (p.excludeFromPowerLimitation || LimitsFit(s, p))
    ensures var sum := SumPointLimits(s, points, asked); sum.Some? && sum.value <= SumPoints(points, asked, AMPERAGE)
  {
    if points != [] {
      if points[0].Asked(asked) {
        LimitOfPointFits(s, points[0]);
      }
      SumFits(s, points[1..], asked);
    }
  }

  /** When the limits of what is asked for fit, and together they are more than nothing, the limit of the station
      (or of a charge point) is exactly their sum: the cut at the rating never applies. */
  lemma LimitIsTheSum(s: Station, asked: Option<nat>)
    requires forall p :: p in s.chargePoints && p.Asked(asked) ==>
      p.amperage >= 0.0 && (p.excludeFromPowerLimitation || LimitsFit(s, p))
    requires var sum := SumPointLimits(s, s.chargePoints, asked); sum.Some? && sum.value > 0.0
    ensures LimitOf(s, asked, 0) == SumPointLimits(s, s.chargePoints, asked)
  {
    SumFits(s, s.chargePoints, asked);
  }

  // What is told of limits, field by field

  /** A connector's limit is that of the first connector of its number, and no number if there is none or it is not
      set. */
  lemma ConnectorLimitIs(s: Station, asked: Option<nat>, id: nat, k: int)
    requires id > 0
    ensures IsFirst(s.connectors, id, k) ==> LimitOf(s, asked, id) == s.connectors[k].amperageLimit
    ensures (forall c :: c in s.connectors ==> c.connectorId != id) ==> LimitOf(s, asked, id) == None
  {
    if IsFirst(s.connectors, id, k) {
      FirstIsFound(s.connectors, id, k);
    }
  }

  lemma {:induction false} LimitsOfBoth(s: Station, a: seq<ChargePoint>, b: seq<ChargePoint>, asked: Option<nat>)
    ensures SumPointLimits(s, a + b, asked) == Plus(SumPointLimits(s, a, asked), SumPointLimits(s, b, asked))
  {
    if a == [] {
      assert a + b == b;
    } else {
      assert (a + b)[1..] == a[1..] + b;
      LimitsOfBoth(s, a[1..], b, asked);
    }
  }

  /** Limits add up over lists of charge points, and one alone has: nothing if it is not asked for or is excluded, the
      limit of its first connector if they cannot charge together or share, else those of all its connectors. */
  lemma PointInLimits(s: Station, a: seq<ChargePoint>, p: ChargePoint, b: seq<ChargePoint>, asked: Option<nat>)
    ensures SumPointLimits(s, a + b, asked) == Plus(SumPointLimits(s, a, asked), SumPointLimits(s, b, asked))
    ensures SumPointLimits(s, [p], asked) ==
      if !(asked == None || asked == Some(p.chargePointID)) || p.excludeFromPowerLimitation then Some(0.0)
      else if !p.cannotChargeInParallel && !p.sharePowerToAllConnectors then SumLimits(s, p.connectorIDs)
      else if p.connectorIDs == [] then None
      else LimitOfConnector(s, p.connectorIDs[0])
  {
    LimitsOfBoth(s, a, b, asked);
    assert [p][1..] == [];
  }

  lemma {:induction false} ConnectorInLimits(before: seq<Connector>, c: Connector, after: seq<Connector>)
    ensures SumConnectorLimits(before + [c] + after)
      == Plus(SumConnectorLimits(before), Plus(c.amperageLimit, SumConnectorLimits(after)))
  {
    if before == [] {
      assert [c] + after == before + [c] + after && ([c] + after)[1..] == after;
    } else {
      assert (before + [c] + after)[1..] == before[1..] + [c] + after;
      ConnectorInLimits(before[1..], c, after);
    }
  }

  lemma {:induction false} NumberInLimits(s: Station, a: seq<nat>, id: nat, b: seq<nat>)
    ensures SumLimits(s, a + b) == Plus(SumLimits(s, a), SumLimits(s, b))
    ensures SumLimits(s, [id]) == LimitOfConnector(s, id)
  {
    assert [id][1..] == [];
    if a == [] {
      assert a + b == b;
    } else {
      assert (a + b)[1..] == a[1..] + b;
      NumberInLimits(s, a[1..], id, b);
    }
  }

  /** The limit of the whole: no number if one that counts is missing; else the sum, taken over all connectors if that
      of the charge points is nothing, if it is more than nothing and at most the rating; else the rating. */
  lemma WholeLimitIs(s: Station, asked: Option<nat>)
    ensures var points, all := SumPointLimits(s, s.chargePoints, asked), SumConnectorLimits(s.connectors);
      var sum, rated := if points == Some(0.0) then all else points, RatingOf(s, asked, 0, AMPERAGE);
      && (sum == None ==> LimitOf(s, asked, 0) == None)
      && (sum.Some? && sum.value != 0.0 && sum.value <= rated ==> LimitOf(s, asked, 0) == sum)
      && (sum.Some? && (sum.value == 0.0 || sum.value > rated) ==> LimitOf(s, asked, 0) == Some(rated))
  {
  }
}
