/**
 * The dashboard: three keyed stores, the component that seeds them from
 * snapshots while folding live patches, and what that leaves in each store.
 */
module Dashboard {
  import opened Wrappers
  import opened Bytes
  import opened PgOutput
  import opened LastWrite

  // ---- The stores --------------------------------------------------------------------

  type Id = Option<Text>

  datatype Vehicle = Vehicle(vehicleId: Id, status: Option<Text>, battery: Option<Text>)
  datatype Anomaly = Anomaly(vehicleId: Id, anomalyType: Option<Text>, detail: Option<Text>, detectedAt: Option<Text>)

  type VehicleMap = map<Id, Vehicle>
  type AnomalyMap = map<Id, Anomaly>
  type ZoneMap = map<Id, Option<Text>>

  function ApplyVehiclePatch(current: VehicleMap, patch: Vehicle): VehicleMap {
    if patch.vehicleId !in current then current else current[patch.vehicleId := patch]
  }

  function ApplyAnomalyPatch(current: AnomalyMap, patch: Anomaly): AnomalyMap {
    current[patch.vehicleId := patch]
  }

  function ApplyZonePatch(current: ZoneMap, zone: Id, count: Option<Text>): ZoneMap {
    if zone !in current then current else current[zone := count]
  }

  /** Rows keyed by vehicle, a later row replacing an earlier one. */
  function KeyedVehicles(rows: seq<Vehicle>): VehicleMap {
    if rows == [] then map[] else
    KeyedVehicles(rows[..|rows| - 1])[rows[|rows| - 1].vehicleId := rows[|rows| - 1]]
  }

  function KeyedAnomalies(rows: seq<Anomaly>): AnomalyMap {
    if rows == [] then map[] else
    KeyedAnomalies(rows[..|rows| - 1])[rows[|rows| - 1].vehicleId := rows[|rows| - 1]]
  }

  lemma {:induction false} KeyedVehiclesHas(rows: seq<Vehicle>, k: Id)
    ensures k in KeyedVehicles(rows) <==> exists i :: 0 <= i < |rows| && rows[i].vehicleId == k
    decreases |rows|
  {
    if rows != [] {
      var n := |rows| - 1;
      KeyedVehiclesHas(rows[..n], k);
      if i :| 0 <= i < n && rows[..n][i].vehicleId == k {
        assert rows[i].vehicleId == k;
      }
      if i :| 0 <= i < |rows| && rows[i].vehicleId == k {
        assert i < n ==> rows[..n][i].vehicleId == k;
      }
    }
  }

  lemma {:induction false} KeyedVehiclesLast(rows: seq<Vehicle>, i: nat)
    requires i < |rows| && forall j :: i < j < |rows| ==> rows[j].vehicleId != rows[i].vehicleId
    ensures rows[i].vehicleId in KeyedVehicles(rows) && KeyedVehicles(rows)[rows[i].vehicleId] == rows[i]
    decreases |rows|
  {
    if i < |rows| - 1 {
      KeyedVehiclesLast(rows[..|rows| - 1], i);
    }
  }

  lemma KeyedVehiclesOutright(rows: seq<Vehicle>)
    ensures var m := KeyedVehicles(rows);
      && (forall k :: k in m <==> exists i :: 0 <= i < |rows| && rows[i].vehicleId == k)
      && (forall i ::
            0 <= i < |rows| && (forall j :: i < j < |rows| ==> rows[j].vehicleId != rows[i].vehicleId) ==>
              rows[i].vehicleId in m && m[rows[i].vehicleId] == rows[i])
  {
    hide KeyedVehicles;
    var m := KeyedVehicles(rows);
    forall k ensures k in m <==> exists i :: 0 <= i < |rows| && rows[i].vehicleId == k {
      KeyedVehiclesHas(rows, k);
    }
    forall i | 0 <= i < |rows| && (forall j :: i < j < |rows| ==> rows[j].vehicleId != rows[i].vehicleId)
      ensures rows[i].vehicleId in m && m[rows[i].vehicleId] == rows[i]
    {
      KeyedVehiclesLast(rows, i);
    }
  }

  /** Of several rows for one vehicle the last one counts. */
  method SeedVehicles(snapshot: seq<Vehicle>) returns (m: VehicleMap)
    ensures m == KeyedVehicles(snapshot)
    ensures forall k :: k in m <==> exists i :: 0 <= i < |snapshot| && snapshot[i].vehicleId == k
    ensures forall i ::
      0 <= i < |snapshot| && (forall j :: i < j < |snapshot| ==> snapshot[j].vehicleId != snapshot[i].vehicleId) ==>
        snapshot[i].vehicleId in m && m[snapshot[i].vehicleId] == snapshot[i]
  {
    m := map[];
    for n := 0 to |snapshot|
      invariant m == KeyedVehicles(snapshot[..n])
    {
      m := m[snapshot[n].vehicleId := snapshot[n]];
      assert snapshot[..n + 1][..n] == snapshot[..n];
    }
    assert snapshot[..|snapshot|] == snapshot;
    KeyedVehiclesOutright(snapshot);
  }

  lemma {:induction false} KeyedAnomaliesHas(rows: seq<Anomaly>, k: Id)
    ensures k in KeyedAnomalies(rows) <==> exists i :: 0 <= i < |rows| && rows[i].vehicleId == k
    decreases |rows|
  {
    if rows != [] {
      var n := |rows| - 1;
      KeyedAnomaliesHas(rows[..n], k);
      if i :| 0 <= i < n && rows[..n][i].vehicleId == k {
        assert rows[i].vehicleId == k;
      }
      if i :| 0 <= i < |rows| && rows[i].vehicleId == k {
        assert i < n ==> rows[..n][i].vehicleId == k;
      }
    }
  }

  lemma {:induction false} KeyedAnomaliesLast(rows: seq<Anomaly>, i: nat)
    requires i < |rows| && forall j :: i < j < |rows| ==> rows[j].vehicleId != rows[i].vehicleId
    ensures rows[i].vehicleId in KeyedAnomalies(rows) && KeyedAnomalies(rows)[rows[i].vehicleId] == rows[i]
    decreases |rows|
  {
    if i < |rows| - 1 {
      KeyedAnomaliesLast(rows[..|rows| - 1], i);
    }
  }

  lemma KeyedAnomaliesOutright(rows: seq<Anomaly>)
    ensures var m := KeyedAnomalies(rows);
      && (forall k :: k in m <==> exists i :: 0 <= i < |rows| && rows[i].vehicleId == k)
      && (forall i ::
            0 <= i < |rows| && (forall j :: i < j < |rows| ==> rows[j].vehicleId != rows[i].vehicleId) ==>
              rows[i].vehicleId in m && m[rows[i].vehicleId] == rows[i])
  {
    hide KeyedAnomalies;
    var m := KeyedAnomalies(rows);
    forall k ensures k in m <==> exists i :: 0 <= i < |rows| && rows[i].vehicleId == k {
      KeyedAnomaliesHas(rows, k);
    }
    forall i | 0 <= i < |rows| && (forall j :: i < j < |rows| ==> rows[j].vehicleId != rows[i].vehicleId)
      ensures rows[i].vehicleId in m && m[rows[i].vehicleId] == rows[i]
    {
      KeyedAnomaliesLast(rows, i);
    }
  }

  /** Of several rows for one vehicle the last one counts. */
  method SeedAnomalies(snapshot: seq<Anomaly>) returns (m: AnomalyMap)
    ensures m == KeyedAnomalies(snapshot)
    ensures forall k :: k in m <==> exists i :: 0 <= i < |snapshot| && snapshot[i].vehicleId == k
    ensures forall i ::
      0 <= i < |snapshot| && (forall j :: i < j < |snapshot| ==> snapshot[j].vehicleId != snapshot[i].vehicleId) ==>
        snapshot[i].vehicleId in m && m[snapshot[i].vehicleId] == snapshot[i]
  {
    m := map[];
    for n := 0 to |snapshot|
      invariant m == KeyedAnomalies(snapshot[..n])
    {
      m := m[snapshot[n].vehicleId := snapshot[n]];
      assert snapshot[..n + 1][..n] == snapshot[..n];
    }
    assert snapshot[..|snapshot|] == snapshot;
    KeyedAnomaliesOutright(snapshot);
  }

  /** A snapshot lists a table keyed by vehicle: one row per key. */
  ghost predicate Lists(rows: seq<Vehicle>, table: VehicleMap) {
    && (forall i, j :: 0 <= i < j < |rows| ==> rows[i].vehicleId != rows[j].vehicleId)
    && (forall i :: 0 <= i < |rows| ==> rows[i].vehicleId in table && table[rows[i].vehicleId] == rows[i])
    && (forall k :: k in table ==> exists i :: 0 <= i < |rows| && rows[i].vehicleId == k)
  }

  lemma {:induction false} KeyedAt(rows: seq<Vehicle>, k: Id)
    requires forall i, j :: 0 <= i < j < |rows| ==> rows[i].vehicleId != rows[j].vehicleId
    ensures k in KeyedVehicles(rows) <==> exists i :: 0 <= i < |rows| && rows[i].vehicleId == k
    ensures forall i :: 0 <= i < |rows| && rows[i].vehicleId == k ==> KeyedVehicles(rows)[k] == rows[i]
    decreases |rows|
  {
    if rows != [] {
      var rest := rows[..|rows| - 1];
      KeyedAt(rest, k);
      if i :| 0 <= i < |rest| && rest[i].vehicleId == k {
        assert rows[i].vehicleId == k;
      }
    }
  }

  /** Seeding from a listing gives the table itself. */
  lemma SeedIsTable(rows: seq<Vehicle>, table: VehicleMap)
    requires Lists(rows, table)
    ensures KeyedVehicles(rows) == table
  {
    forall k ensures k in KeyedVehicles(rows) <==> k in table
      ensures k in table ==> KeyedVehicles(rows)[k] == table[k]
    {
      KeyedAt(rows, k);
    }
  }

  // ---- How each store reads the event stream --------------------------------------------

  function VehiclePatch(e: Event): Option<(Id, Vehicle)> {
    match e
    case VehicleStateChanged(v, s, b) => Some((v, Vehicle(v, s, b)))
    case _ => None
  }

  function AnomalyPatch(e: Event): Option<(Id, Anomaly)> {
    match e
    case AnomalyDetected(v, t, d, at) => Some((v, Anomaly(v, t, d, at)))
    case _ => None
  }

  function ZonePatch(e: Event): Option<(Id, Option<Text>)> {
    match e
    case ZoneCountChanged(z, n) => Some((z, n))
    case _ => None
  }

  // ---- The component ----------------------------------------------------------------------

  /** What happens to the component: snapshots resolve, patches arrive, it unmounts. */
  datatype AppEvent =
    | VehiclesArrived(vehicleRows: seq<Vehicle>)
    | AnomaliesArrived(anomalyRows: seq<Anomaly>)
    | ZonesArrived(counts: ZoneMap)
    | Patch(event: Event)
    | Unmount

  datatype AppState = AppState(vehicles: VehicleMap, anomalies: AnomalyMap, zones: ZoneMap, active: bool)

  const EMPTY: AppState := AppState(map[], map[], map[], true)

  function Step(s: AppState, e: AppEvent): AppState {
    if !s.active then s else
    match e
    case VehiclesArrived(rows) => s.(vehicles := KeyedVehicles(rows))
    case AnomaliesArrived(rows) => s.(anomalies := KeyedAnomalies(rows))
    case ZonesArrived(counts) => s.(zones := counts)
    case Patch(event) =>
      s.(vehicles := PatchKnown(VehiclePatch, s.vehicles, event),
         anomalies := PatchAny(AnomalyPatch, s.anomalies, event),
         zones := PatchKnown(ZonePatch, s.zones, event))
    case Unmount => s.(active := false)
  }

  function Run(s: AppState, es: seq<AppEvent>): AppState {
    if es == [] then s else Step(Run(s, es[..|es| - 1]), es[|es| - 1])
  }

  /** The effect of App.tsx: state set through its callbacks while `active`. */
  class App {
    var vehicles: VehicleMap
    var anomalies: AnomalyMap
    var zones: ZoneMap
    var active: bool

    ghost function Now(): AppState
      reads this
    {
      AppState(vehicles, anomalies, zones, active)
    }

    constructor ()
      ensures Now() == EMPTY
    {
      vehicles, anomalies, zones, active := map[], map[], map[], true;
    }

    method OnVehicles(snapshot: seq<Vehicle>)
      modifies this
      ensures Now() == Step(old(Now()), VehiclesArrived(snapshot))
      ensures anomalies == old(anomalies) && zones == old(zones) && active == old(active)
      ensures !active ==> vehicles == old(vehicles)
      ensures active ==> forall k :: k in vehicles <==> exists i :: 0 <= i < |snapshot| && snapshot[i].vehicleId == k
    {
      if active {
        vehicles := SeedVehicles(snapshot);
      }
    }

    method OnAnomalies(snapshot: seq<Anomaly>)
      modifies this
      ensures Now() == Step(old(Now()), AnomaliesArrived(snapshot))
      ensures vehicles == old(vehicles) && zones == old(zones) && active == old(active)
      ensures !active ==> anomalies == old(anomalies)
      ensures active ==> forall k :: k in anomalies <==> exists i :: 0 <= i < |snapshot| && snapshot[i].vehicleId == k
    {
      if active {
        anomalies := SeedAnomalies(snapshot);
      }
    }

    method OnZones(snapshot: ZoneMap)
      modifies this
      ensures Now() == Step(old(Now()), ZonesArrived(snapshot))
      ensures vehicles == old(vehicles) && anomalies == old(anomalies) && active == old(active)
      ensures zones == if active then snapshot else old(zones)
    {
      if active {
        zones := snapshot;
      }
    }

    /** The subscription handler; unmounting unsubscribes it. */
    method OnEvent(event: Event)
      requires active
      modifies this
      ensures Now() == Step(old(Now()), Patch(event))
      ensures event.VehicleStateChanged? ==>
        && vehicles.Keys == old(vehicles).Keys && anomalies == old(anomalies) && zones == old(zones)
        && (event.vehicleId in vehicles ==>
              && vehicles[event.vehicleId].vehicleId == event.vehicleId
              && vehicles[event.vehicleId].status == event.status
              && vehicles[event.vehicleId].battery == event.battery)
        && forall k :: k in vehicles && k != event.vehicleId ==> vehicles[k] == old(vehicles)[k]
      ensures event.AnomalyDetected? ==>
        && vehicles == old(vehicles) && zones == old(zones)
        && anomalies.Keys == old(anomalies).Keys + {event.vehicleId}
        && anomalies[event.vehicleId].vehicleId == event.vehicleId
        && anomalies[event.vehicleId].anomalyType == event.anomalyType
        && anomalies[event.vehicleId].detail == event.detail
        && anomalies[event.vehicleId].detectedAt == event.detectedAt
        && forall k :: k in old(anomalies) && k != event.vehicleId ==> anomalies[k] == old(anomalies)[k]
      ensures event.ZoneCountChanged? ==>
        && vehicles == old(vehicles) && anomalies == old(anomalies) && zones.Keys == old(zones).Keys
        && (event.zoneId in zones ==> zones[event.zoneId] == event.entryCount)
        && forall k :: k in zones && k != event.zoneId ==> zones[k] == old(zones)[k]
    {
      match event {
        case VehicleStateChanged(v, s, b) => vehicles := ApplyVehiclePatch(vehicles, Vehicle(v, s, b));
        case AnomalyDetected(v, t, d, at) => anomalies := ApplyAnomalyPatch(anomalies, Anomaly(v, t, d, at));
        case ZoneCountChanged(z, n) => zones := ApplyZonePatch(zones, z, n);
      }
    }

    method Cleanup()
      modifies this
      ensures Now() == Step(old(Now()), Unmount)
      ensures !active && vehicles == old(vehicles) && anomalies == old(anomalies) && zones == old(zones)
    {
      active := false;
    }
  }

  // ---- A store after its seed -----------------------------------------------------------------

  function Patches(es: seq<AppEvent>): seq<Event> {
    if es == [] then [] else
    Patches(es[..|es| - 1]) + (if es[|es| - 1].Patch? then [es[|es| - 1].event] else [])
  }

  ghost predicate StaysMounted(es: seq<AppEvent>) {
    forall i :: 0 <= i < |es| ==> !es[i].Unmount?
  }

  ghost predicate NoSeed(es: seq<AppEvent>, store: AppEvent -> bool) {
    forall i :: 0 <= i < |es| ==> !store(es[i])
  }

  lemma PatchesStep(es: seq<AppEvent>)
    requires es != []
    ensures var rest, last := es[..|es| - 1], es[|es| - 1];
      if last.Patch? then Patches(es) == Patches(rest) + [last.event] else Patches(es) == Patches(rest)
  {
  }

  lemma {:induction false} Mounted(s: AppState, es: seq<AppEvent>)
    requires s.active && StaysMounted(es)
    ensures Run(s, es).active
    decreases |es|
  {
    if es != [] {
      Mounted(s, es[..|es| - 1]);
    }
  }

  lemma FoldNone(s: AppState)
    ensures Patches([]) == []
    ensures FoldKnown(VehiclePatch, s.vehicles, []) == s.vehicles
    ensures FoldAny(AnomalyPatch, s.anomalies, []) == s.anomalies
    ensures FoldKnown(ZonePatch, s.zones, []) == s.zones
  {
  }

  /** What one event does to each store of a mounted component, its own seed aside. */
  lemma Stepped(s: AppState, e: AppEvent)
    requires s.active
    ensures var s1 := Step(s, e);
      && (e.Patch? ==>
            && s1.vehicles == PatchKnown(VehiclePatch, s.vehicles, e.event)
            && s1.anomalies == PatchAny(AnomalyPatch, s.anomalies, e.event)
            && s1.zones == PatchKnown(ZonePatch, s.zones, e.event))
      && (!e.Patch? ==>
            && (e.VehiclesArrived? || s1.vehicles == s.vehicles)
            && (e.AnomaliesArrived? || s1.anomalies == s.anomalies)
            && (e.ZonesArrived? || s1.zones == s.zones))
  {
  }

  /**
   * From any mounted state, whatever was folded into it before, patches leave
   * the vehicle store folded with exactly those patches, however the other
   * stores' seeds fall between them.
   */
  lemma {:induction false} VehiclesFold(s: AppState, es: seq<AppEvent>)
    requires s.active && StaysMounted(es) && NoSeed(es, (e: AppEvent) => e.VehiclesArrived?)
    ensures Run(s, es).vehicles == FoldKnown(VehiclePatch, s.vehicles, Patches(es))
    decreases |es|
  {
    hide Step, Patches, VehiclePatch, FoldKnown, PatchKnown;
    if es == [] {
      FoldNone(s);
    } else {
      var rest, last := es[..|es| - 1], es[|es| - 1];
      VehiclesFold(s, rest);
      Mounted(s, rest);
      PatchesStep(es);
      Stepped(Run(s, rest), last);
      if last.Patch? {
        FoldKnownSnoc(VehiclePatch, s.vehicles, Patches(rest), last.event);
      }
    }
  }

  lemma {:induction false} AnomaliesFold(s: AppState, es: seq<AppEvent>)
    requires s.active && StaysMounted(es) && NoSeed(es, (e: AppEvent) => e.AnomaliesArrived?)
    ensures Run(s, es).anomalies == FoldAny(AnomalyPatch, s.anomalies, Patches(es))
    decreases |es|
  {
    hide Step, Patches, AnomalyPatch, FoldAny, PatchAny;
    if es == [] {
      FoldNone(s);
    } else {
      var rest, last := es[..|es| - 1], es[|es| - 1];
      AnomaliesFold(s, rest);
      Mounted(s, rest);
      PatchesStep(es);
      Stepped(Run(s, rest), last);
      if last.Patch? {
        FoldAnySnoc(AnomalyPatch, s.anomalies, Patches(rest), last.event);
      }
    }
  }

  lemma {:induction false} ZonesFold(s: AppState, es: seq<AppEvent>)
    requires s.active && StaysMounted(es) && NoSeed(es, (e: AppEvent) => e.ZonesArrived?)
    ensures Run(s, es).zones == FoldKnown(ZonePatch, s.zones, Patches(es))
    decreases |es|
  {
    hide Step, Patches, ZonePatch, FoldKnown, PatchKnown;
    if es == [] {
      FoldNone(s);
    } else {
      var rest, last := es[..|es| - 1], es[|es| - 1];
      ZonesFold(s, rest);
      Mounted(s, rest);
      PatchesStep(es);
      Stepped(Run(s, rest), last);
      if last.Patch? {
        FoldKnownSnoc(ZonePatch, s.zones, Patches(rest), last.event);
      }
    }
  }

  /** Once unmounted the stores stay as they were. */
  lemma {:induction false} UnmountedStays(s: AppState, before: seq<AppEvent>, after: seq<AppEvent>)
    ensures var (stopped, n) := (Run(s, before), Run(s, before + [Unmount] + after));
      && !n.active
      && n.vehicles == stopped.vehicles && n.anomalies == stopped.anomalies && n.zones == stopped.zones
    decreases |after|
  {
    hide KeyedVehicles, KeyedAnomalies;
    var all := before + [Unmount] + after;
    if after == [] {
      assert all[..|all| - 1] == before;
    } else {
      assert all[..|all| - 1] == before + [Unmount] + after[..|after| - 1];
      UnmountedStays(s, before, after[..|after| - 1]);
    }
  }

  lemma {:induction false} RunConcat(s: AppState, a: seq<AppEvent>, b: seq<AppEvent>)
    ensures Run(s, a + b) == Run(Run(s, a), b)
    decreases |b|
  {
    if b == [] {
      assert a + b == a;
    } else {
      assert (a + b)[..|a + b| - 1] == a + b[..|b| - 1];
      RunConcat(s, a, b[..|b| - 1]);
    }
  }
}
