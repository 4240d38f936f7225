/**
 * Telemetry readings, the anomaly rules, the tables, and what persisting one
 * reading by itself does to them.
 */
module Telemetry {
  import opened Wrappers

  datatype Status = Idle | Moving | Charging | Fault

  datatype Event = Event(
    vehicle: string, status: Status, battery: real, recordedAt: real,
    zone: Option<string>, speed: real, errorCodes: seq<string>,
    x: Option<real>, y: Option<real>)

  /** A row of vehicle_current_state: the vehicle's latest reading. */
  datatype Reading = Reading(
    status: Status, battery: real, speed: real, x: Option<real>, y: Option<real>, recordedAt: real)

  function ReadingOf(e: Event): Reading {
    Reading(e.status, e.battery, e.speed, e.x, e.y, e.recordedAt)
  }

  // ---- Anomaly rules -------------------------------------------------------------------

  const LOW_BATTERY_PCT: real := 15.0
  const OVERSPEED_MPS: real := 5.0
  const STUCK_SPEED_MPS: real := 0.1
  const STUCK_MIN_SECONDS: real := 10.0
  const TELEPORT_MPS: real := 15.0

  datatype Kind = FaultStatus | ErrorCodes | LowBattery | Overspeed | Stuck | Teleport | BatteryRising | CommsLoss

  /** The numbers a detail text is formatted from. */
  datatype Detail =
    | NoDetail
    | Codes(codes: seq<string>)
    | Battery(pct: real)
    | Speed(mps: real)
    | StuckFor(mps: real, seconds: real)
    | Jump(distanceSquared: real, seconds: real)
    | Rise(from: real, to: real)
    | Silence

  datatype Finding = Finding(kind: Kind, detail: Detail)

  function Square(r: real): real {
    r * r
  }

  /** Rule by rule, when a reading is anomalous against the vehicle's prior one. */
  predicate Fires(k: Kind, e: Event, prior: Option<Reading>) {
    match k
    case FaultStatus => e.status.Fault?
    case ErrorCodes => e.errorCodes != []
    case LowBattery => e.battery < LOW_BATTERY_PCT && !e.status.Charging?
    case Overspeed => e.speed > OVERSPEED_MPS
    case Stuck =>
      && prior.Some? && prior.value.status.Moving? && e.status.Moving?
      && prior.value.speed < STUCK_SPEED_MPS && e.speed < STUCK_SPEED_MPS
      && e.recordedAt - prior.value.recordedAt >= STUCK_MIN_SECONDS
    case Teleport =>
      && prior.Some? && e.recordedAt > prior.value.recordedAt
      && prior.value.x.Some? && prior.value.y.Some? && e.x.Some? && e.y.Some?
      && Square(e.x.value - prior.value.x.value) + Square(e.y.value - prior.value.y.value)
         > Square(TELEPORT_MPS * (e.recordedAt - prior.value.recordedAt))
    case BatteryRising => prior.Some? && e.battery > prior.value.battery && !e.status.Charging?
    case CommsLoss => false
  }

  function DetailOf(k: Kind, e: Event, prior: Option<Reading>): Detail
    requires Fires(k, e, prior)
  {
    match k
    case FaultStatus => NoDetail
    case ErrorCodes => Codes(e.errorCodes)
    case LowBattery => Battery(e.battery)
    case Overspeed => Speed(e.speed)
    case Stuck => StuckFor(e.speed, e.recordedAt - prior.value.recordedAt)
    case Teleport =>
      Jump(Square(e.x.value - prior.value.x.value) + Square(e.y.value - prior.value.y.value),
           e.recordedAt - prior.value.recordedAt)
    case BatteryRising => Rise(prior.value.battery, e.battery)
  }

  function When(k: Kind, e: Event, prior: Option<Reading>): seq<Finding> {
    if Fires(k, e, prior) then [Finding(k, DetailOf(k, e, prior))] else []
  }

  /** The rules in the order they are tried. */
  const RULES: seq<Kind> := [FaultStatus, ErrorCodes, LowBattery, Overspeed, Stuck, Teleport, BatteryRising]

  function Select(kinds: seq<Kind>, e: Event, prior: Option<Reading>): (found: seq<Finding>)
    ensures |found| <= |kinds|
  {
    if kinds == [] then [] else Select(kinds[..|kinds| - 1], e, prior) + When(kinds[|kinds| - 1], e, prior)
  }

  function Detect(e: Event, prior: Option<Reading>): seq<Finding> {
    Select(RULES, e, prior)
  }

  lemma {:induction false} Selected(kinds: seq<Kind>, e: Event, prior: Option<Reading>, f: Finding)
    ensures f in Select(kinds, e, prior)
       <==> (f.kind in kinds && Fires(f.kind, e, prior) && f.detail == DetailOf(f.kind, e, prior))
    decreases |kinds|
  {
    hide Fires, DetailOf;
    if kinds != [] {
      Selected(kinds[..|kinds| - 1], e, prior, f);
    }
  }

  lemma {:induction false} SelectedOnce(kinds: seq<Kind>, e: Event, prior: Option<Reading>)
    requires forall i, j :: 0 <= i < j < |kinds| ==> kinds[i] != kinds[j]
    ensures var found := Select(kinds, e, prior);
      forall i, j :: 0 <= i < j < |found| ==> found[i].kind != found[j].kind
    decreases |kinds|
  {
    hide Fires, DetailOf;
    if kinds != [] {
      var rest := kinds[..|kinds| - 1];
      SelectedOnce(rest, e, prior);
      var older := Select(rest, e, prior);
      forall i | 0 <= i < |older| ensures older[i].kind in rest {
        Selected(rest, e, prior, older[i]);
      }
    }
  }

  /**
   * A finding is reported exactly when its rule fires, once per rule; a first
   * reading triggers no rule that compares, and none is ever a comms loss.
   */
  lemma DetectedIffFires(e: Event, prior: Option<Reading>, f: Finding)
    ensures f in Detect(e, prior) <==> (Fires(f.kind, e, prior) && f.detail == DetailOf(f.kind, e, prior))
    ensures var found := Detect(e, prior); forall i, j :: 0 <= i < j < |found| ==> found[i].kind != found[j].kind
    ensures prior.None? && f in Detect(e, prior) ==> f.kind in RULES[..4]
    ensures f in Detect(e, prior) ==> f.kind != CommsLoss
  {
    Selected(RULES, e, prior, f);
    SelectedOnce(RULES, e, prior);
  }

  lemma NextRule(k: nat, e: Event, prior: Option<Reading>)
    requires k < 7
    ensures |RULES| == 7
    ensures RULES[k] == [FaultStatus, ErrorCodes, LowBattery, Overspeed, Stuck, Teleport, BatteryRising][k]
    ensures Select(RULES[..k + 1], e, prior) == Select(RULES[..k], e, prior) + When(RULES[k], e, prior)
  {
    hide Fires, DetailOf, When;
    assert RULES[..k + 1][..k] == RULES[..k];
  }

  method DetectStateless(e: Event, ghost prior: Option<Reading>) returns (anomalies: seq<Finding>)
    ensures anomalies == Select(RULES[..4], e, prior)
  {
    hide Select, RULES;
    NoRules(e, prior);
    assert RULES[..0] == [];
    anomalies := [];
    if e.status == Fault {
      anomalies := anomalies + [Finding(FaultStatus, NoDetail)];
    }
    NextRule(0, e, prior);
    if e.errorCodes != [] {
      anomalies := anomalies + [Finding(ErrorCodes, Codes(e.errorCodes))];
    }
    NextRule(1, e, prior);
    if e.battery < LOW_BATTERY_PCT && e.status != Charging {
      anomalies := anomalies + [Finding(LowBattery, Battery(e.battery))];
    }
    NextRule(2, e, prior);
    if e.speed > OVERSPEED_MPS {
      anomalies := anomalies + [Finding(Overspeed, Speed(e.speed))];
    }
    NextRule(3, e, prior);
  }

  method DetectAnomalies(e: Event, prior: Option<Reading>) returns (anomalies: seq<Finding>)
    ensures anomalies == Detect(e, prior)
  {
    hide Select, RULES, Square;
    anomalies := DetectStateless(e, prior);
    NextRule(4, e, prior);
    NextRule(5, e, prior);
    NextRule(6, e, prior);
    assert RULES[..7] == RULES;
    if prior.None? {
      return;
    }
    var p := prior.value;
    var dt := e.recordedAt - p.recordedAt;
    if && p.status == Moving && e.status == Moving
       && p.speed < STUCK_SPEED_MPS && e.speed < STUCK_SPEED_MPS && dt >= STUCK_MIN_SECONDS {
      anomalies := anomalies + [Finding(Stuck, StuckFor(e.speed, dt))];
    }
    if dt > 0.0 && p.x.Some? && p.y.Some? && e.x.Some? && e.y.Some? {
      var distanceSquared := Square(e.x.value - p.x.value) + Square(e.y.value - p.y.value);
      if distanceSquared > Square(TELEPORT_MPS * dt) {
        anomalies := anomalies + [Finding(Teleport, Jump(distanceSquared, dt))];
      }
    }
    if e.battery > p.battery && e.status != Charging {
      anomalies := anomalies + [Finding(BatteryRising, Rise(p.battery, e.battery))];
    }
  }

  lemma NoRules(e: Event, prior: Option<Reading>)
    ensures Select([], e, prior) == []
  {
  }

  // ---- Tables ------------------------------------------------------------------------------

  datatype RawRow = RawRow(vehicle: string, status: Status, battery: real, recordedAt: real)
  datatype AnomalyRow = AnomalyRow(vehicle: string, finding: Finding, detectedAt: real)

  datatype Db = Db(
    raw: multiset<RawRow>, current: map<string, Reading>, zones: map<string, int>, anomalies: multiset<AnomalyRow>)

  function RawOf(e: Event): RawRow {
    RawRow(e.vehicle, e.status, e.battery, e.recordedAt)
  }

  function RowsOf(e: Event, found: seq<Finding>): (rows: seq<AnomalyRow>)
    ensures |rows| == |found|
  {
    seq(|found|, i requires 0 <= i < |found| => AnomalyRow(e.vehicle, found[i], e.recordedAt))
  }

  /** An unknown zone is counted nowhere. */
  function Entered(zones: map<string, int>, zone: Option<string>): map<string, int> {
    if zone.Some? && zone.value in zones then zones[zone.value := zones[zone.value] + 1] else zones
  }

  /** The tables after one reading is persisted with nothing else going on. */
  function Serial(db: Db, e: Event): Db {
    Db(db.raw + multiset{RawOf(e)},
       db.current[e.vehicle := ReadingOf(e)],
       Entered(db.zones, e.zone),
       db.anomalies + multiset(RowsOf(e, Detect(e, Lookup(db.current, e.vehicle)))))
  }

  function SerialAll(db: Db, es: seq<Event>): Db {
    if es == [] then db else Serial(SerialAll(db, es[..|es| - 1]), es[|es| - 1])
  }

  /** The row's six fields are the reading's own. */
  predicate RowHolds(row: Reading, e: Event) {
    && row.status == e.status && row.battery == e.battery && row.speed == e.speed
    && row.x == e.x && row.y == e.y && row.recordedAt == e.recordedAt
  }

  const MAX_COUNT: int := 0x7FFF_FFFF  // entry_count is a 32-bit INTEGER

  /** `persist_telemetry` on its own connection: the tables it writes, one statement at a time. */
  class Database {
    var raw: multiset<RawRow>
    var current: map<string, Reading>
    var zones: map<string, int>
    var anomalies: multiset<AnomalyRow>

    function Now(): Db
      reads this
    {
      Db(raw, current, zones, anomalies)
    }

    method InsertAnomalies(e: Event, found: seq<Finding>)
      modifies this`anomalies
      ensures anomalies == old(anomalies) + multiset(RowsOf(e, found))
    {
      ghost var rows := RowsOf(e, found);
      for i := 0 to |found|
        invariant anomalies == old(anomalies) + multiset(rows[..i])
      {
        anomalies := anomalies + multiset{AnomalyRow(e.vehicle, found[i], e.recordedAt)};
        assert rows[..i + 1] == rows[..i] + [rows[i]];
      }
      assert rows[..|found|] == rows;
    }

    /** Returns false when the counter overflows: the transaction is rolled back. */
    method PersistTelemetry(e: Event) returns (committed: bool)
      modifies this
      ensures committed <==> !(e.zone.Some? && e.zone.value in old(zones) && old(zones)[e.zone.value] >= 2147483647)
      ensures Now() == if committed then Serial(old(Now()), e) else old(Now())
      ensures committed ==> e.vehicle in current && RowHolds(current[e.vehicle], e)
      ensures committed ==> current.Keys == old(current).Keys + {e.vehicle}
      ensures committed ==> forall v :: v in old(current) && v != e.vehicle ==> current[v] == old(current)[v]
      ensures committed ==> raw == old(raw) + multiset{RawRow(e.vehicle, e.status, e.battery, e.recordedAt)}
      ensures committed ==> zones.Keys == old(zones).Keys
      ensures committed ==>
        forall z :: z in zones ==> zones[z] == old(zones)[z] + if e.zone == Some(z) then 1 else 0
    {
      var savepoint := Now();
      var prior := Lookup(current, e.vehicle);
      var found := DetectAnomalies(e, prior);
      raw := raw + multiset{RawOf(e)};
      current := current[e.vehicle := ReadingOf(e)];
      if e.zone.Some? {
        var z := e.zone.value;
        if z in zones {
          if zones[z] >= MAX_COUNT {
            raw, current := savepoint.raw, savepoint.current;
            return false;
          }
          zones := zones[z := zones[z] + 1];
        }
      }
      InsertAnomalies(e, found);
      committed := true;
    }
  }
}
