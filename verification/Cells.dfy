/**
 * From table cells to the screen: what a dashboard shows for a key, once the
 * consumer has caught up, in terms of the rows committed.
 */
module Cells {
  import opened Wrappers
  import opened Bytes
  import opened PgOutput
  import opened RoundTrip
  import opened Replication
  import opened LastWrite
  import opened AtLeastOnce
  import opened Dashboard
  import opened SnapshotRace
  import opened Pipeline
  import opened EndToEnd

  /** Every row change, in commit order. */
  ghost function AllChanges(wal: seq<Txn>): seq<Change> {
    if wal == [] then [] else AllChanges(wal[..|wal| - 1]) + wal[|wal| - 1].changes
  }

  lemma {:induction false} ChangesConcat(a: seq<Change>, b: seq<Change>)
    ensures EventsOfChanges(a + b) == EventsOfChanges(a) + EventsOfChanges(b)
    decreases |b|
  {
    hide ChangeEvents;
    if b == [] {
      assert a + b == a;
    } else {
      assert (a + b)[..|a + b| - 1] == a + b[..|b| - 1];
      ChangesConcat(a, b[..|b| - 1]);
    }
  }

  lemma {:induction false} StreamOfChanges(wal: seq<Txn>)
    ensures Stream(wal) == EventsOfChanges(AllChanges(wal))
    decreases |wal|
  {
    hide EventsOfChanges;
    if wal == [] {
      NoChanges();
    } else {
      StreamOfChanges(wal[..|wal| - 1]);
      ChangesConcat(AllChanges(wal[..|wal| - 1]), wal[|wal| - 1].changes);
    }
  }

  /** The change writes a row of the table whose key cell is `id`. */
  ghost predicate Writes(c: Change, table: Text, key: Text, id: Id) {
    && (c.op.Insert? || c.op.Update?) && c.table.name == table
    && |c.op.row| == |c.table.columns| && Has(c.table, key)
    && CellText(c.table, c.op.row, key) == id
  }

  /** The last committed row for the key. */
  ghost predicate LastRow(cs: seq<Change>, j: nat, table: Text, key: Text, id: Id) {
    && j < |cs| && Writes(cs[j], table, key, id)
    && forall m :: j < m < |cs| ==> !Writes(cs[m], table, key, id)
  }

  /** The text a row change leaves in a column. */
  ghost function Wrote(c: Change, column: Text): Option<Text> {
    if (c.op.Insert? || c.op.Update?) && |c.op.row| == |c.table.columns| && Has(c.table, column)
    then CellText(c.table, c.op.row, column) else None
  }

  // ---- Each kind of row -----------------------------------------------------------------------

  lemma RowOfChange(c: Change)
    ensures
      if c.op.Insert? || c.op.Update?
      then |c.op.row| == |c.table.columns| && Publishable(c.table, c.op.row)
           && ChangeEvents(c) == Opt(RowEvent(c.table, c.op.row))
      else ChangeEvents(c) == []
  {
    hide Publishable, RowEvent, ValueOk, TableOk;
  }

  lemma LastOfOne<K, V>(f: LastWrite.Reading<Event, K, V>, e: Event, k: K)
    ensures Last(f, [e], k)
         == match f(e) { case Some((key, v)) => if key == k then Some(v) else None case None => None }
    ensures Last(f, [], k).None?
  {
    assert [e][..0] == [];
  }

  /** The event of a published row, table by table. */
  lemma RowEventIs(t: Table, row: Row)
    requires |row| == |t.columns| && Publishable(t, row)
    ensures VEHICLES != ANOMALIES && VEHICLES != ZONES && ANOMALIES != ZONES
    ensures t.name == VEHICLES ==>
      && Has(t, COL_VEHICLE) && Has(t, COL_STATUS) && Has(t, COL_BATTERY)
      && RowEvent(t, row) == Some(VehicleStateChanged(
           CellText(t, row, COL_VEHICLE), CellText(t, row, COL_STATUS), CellText(t, row, COL_BATTERY)))
    ensures t.name == ANOMALIES ==>
      && Has(t, COL_VEHICLE) && Has(t, COL_TYPE) && Has(t, COL_DETAIL) && Has(t, COL_DETECTED)
      && RowEvent(t, row) == Some(AnomalyDetected(
           CellText(t, row, COL_VEHICLE), CellText(t, row, COL_TYPE),
           CellText(t, row, COL_DETAIL), CellText(t, row, COL_DETECTED)))
    ensures t.name == ZONES ==>
      && Has(t, COL_ZONE) && Has(t, COL_COUNT)
      && RowEvent(t, row) == Some(ZoneCountChanged(CellText(t, row, COL_ZONE), CellText(t, row, COL_COUNT)))
    ensures t.name != VEHICLES && t.name != ANOMALIES && t.name != ZONES ==> RowEvent(t, row) == None
  {
    hide Has, CellText, Cell, IndexOf;
    assert |VEHICLES| == 21 && |ANOMALIES| == 9 && |ZONES| == 11;
  }

  lemma VehicleChange(c: Change, id: Id)
    ensures Last(VehiclePatch, ChangeEvents(c), id)
         == if Writes(c, VEHICLES, COL_VEHICLE, id)
            then Some(Vehicle(id, Wrote(c, COL_STATUS), Wrote(c, COL_BATTERY))) else None
  {
    hide ChangeOk, ChangeEvents, Publishable, RowEvent, Has, CellText, Last, VEHICLES, ANOMALIES, ZONES;
    RowOfChange(c);
    if c.op.Insert? || c.op.Update? {
      RowEventIs(c.table, c.op.row);
    }
    LastOfOne(VehiclePatch, if ChangeEvents(c) == [] then ZoneCountChanged(None, None) else ChangeEvents(c)[0], id);
  }

  lemma ZoneChange(c: Change, id: Id)
    ensures Last(ZonePatch, ChangeEvents(c), id)
         == if Writes(c, ZONES, COL_ZONE, id) then Some(Wrote(c, COL_COUNT)) else None
  {
    hide ChangeOk, ChangeEvents, Publishable, RowEvent, Has, CellText, Last, VEHICLES, ANOMALIES, ZONES;
    RowOfChange(c);
    if c.op.Insert? || c.op.Update? {
      RowEventIs(c.table, c.op.row);
    }
    LastOfOne(ZonePatch, if ChangeEvents(c) == [] then ZoneCountChanged(None, None) else ChangeEvents(c)[0], id);
  }

  lemma AnomalyChange(c: Change, id: Id)
    ensures Last(AnomalyPatch, ChangeEvents(c), id)
         == if Writes(c, ANOMALIES, COL_VEHICLE, id)
            then Some(Anomaly(id, Wrote(c, COL_TYPE), Wrote(c, COL_DETAIL), Wrote(c, COL_DETECTED))) else None
  {
    hide ChangeOk, ChangeEvents, Publishable, RowEvent, Has, CellText, Last, VEHICLES, ANOMALIES, ZONES;
    RowOfChange(c);
    if c.op.Insert? || c.op.Update? {
      RowEventIs(c.table, c.op.row);
    }
    LastOfOne(AnomalyPatch, if ChangeEvents(c) == [] then ZoneCountChanged(None, None) else ChangeEvents(c)[0], id);
  }

  /** Reading the stream for a key is reading the last change that writes it. */
  lemma {:induction false} LastOfChanges<K, V>(f: LastWrite.Reading<Event, K, V>, cs: seq<Change>, j: nat, k: K)
    requires j < |cs| && Last(f, ChangeEvents(cs[j]), k).Some?
    requires forall m :: j < m < |cs| ==> Last(f, ChangeEvents(cs[m]), k).None?
    ensures Last(f, EventsOfChanges(cs), k) == Last(f, ChangeEvents(cs[j]), k)
    decreases |cs|
  {
    hide ChangeEvents, Last;
    var n := |cs| - 1;
    LastConcat(f, EventsOfChanges(cs[..n]), ChangeEvents(cs[n]), k);
    if j < n {
      LastOfChanges(f, cs[..n], j, k);
    }
  }

  /** Some event of the part received patches the key. */
  lemma {:induction false} Patched<K, V>(f: LastWrite.Reading<Event, K, V>, es: seq<Event>, i: nat, k: K)
    requires i < |es| && f(es[i]).Some? && f(es[i]).value.0 == k
    ensures Last(f, es, k).Some?
    decreases |es|
  {
    if i < |es| - 1 {
      Patched(f, es[..|es| - 1], i, k);
    }
  }

  /** Once caught up, the last patch received is the last committed write. */
  lemma LastReceived<K(!new), V>(w: World, actions: seq<Action>, f: LastWrite.Reading<Event, K, V>, p: nat, k: K)
    requires Init(w) && ValidRun(w, actions)
    requires var w1 := Final(w, actions);
      && w1.segments != [] && w1.next == |w1.wal| && p <= |w1.published|
      && Last(f, w1.published[p..], k).Some?
    ensures var w1 := Final(w, actions);
      Last(f, w1.published[p..], k) == Last(f, EventsOfChanges(AllChanges(w1.wal)), k)
  {
    hide Init, ValidRun, Final, Stream, Last, EventsOfChanges, AllChanges;
    var w1 := Final(w, actions);
    PublishedLast(w, actions, f, k);
    StreamOfChanges(w1.wal);
    var ps := w1.published;
    assert ps[..|ps|] == ps && ps[p..|ps|] == ps[p..];
    LastSplit(f, ps, p, |ps|, k);
  }

  // ---- Main results -----------------------------------------------------------------------------

  /**
   * A dashboard opened in the middle of any run with crashes, failed publishes and
   * restarts. Once the consumer has caught up, a vehicle row patched since it was
   * seeded shows the status and battery cells of the vehicle's last committed row.
   */
  lemma VehicleCells(w: World, actions: seq<Action>, before: seq<AppEvent>, rows: seq<Vehicle>, after: seq<AppEvent>,
                     p: nat, i: nat, j: nat, id: Id)
    requires Init(w) && ValidRun(w, actions) && StaysMounted(before) && StaysMounted(after)
    requires NoSeed(after, (e: AppEvent) => e.VehiclesArrived?)
    requires exists r :: 0 <= r < |rows| && rows[r].vehicleId == id
    requires var w1 := Final(w, actions);
      && w1.segments != [] && w1.next == |w1.wal| && p <= |w1.published| && Patches(after) == w1.published[p..]
      && p <= i < |w1.published| && w1.published[i].VehicleStateChanged? && w1.published[i].vehicleId == id
      && LastRow(AllChanges(w1.wal), j, VEHICLES, COL_VEHICLE, id)
    ensures var c := AllChanges(Final(w, actions).wal)[j];
      var store := Run(EMPTY, before + [VehiclesArrived(rows)] + after).vehicles;
      id in store && store[id].vehicleId == id
      && store[id].status == Wrote(c, COL_STATUS) && store[id].battery == Wrote(c, COL_BATTERY)
  {
    hide Init, ValidRun, Final, Stream, Last, EventsOfChanges, AllChanges, Writes, Wrote, KeyedVehicles, ChangeEvents;
    var w1 := Final(w, actions);
    var cs, tail := AllChanges(w1.wal), w1.published[p..];
    SeedThen(before, VehiclesArrived(rows), after);
    VehiclesFold(Step(Run(EMPTY, before), VehiclesArrived(rows)), after);
    KeyedVehiclesHas(rows, id);
    KnownAt(VehiclePatch, KeyedVehicles(rows), tail);
    assert tail[i - p] == w1.published[i];
    Patched(VehiclePatch, tail, i - p, id);
    LastReceived(w, actions, VehiclePatch, p, id);
    forall m | 0 <= m < |cs|
      ensures Last(VehiclePatch, ChangeEvents(cs[m]), id)
           == if Writes(cs[m], VEHICLES, COL_VEHICLE, id)
              then Some(Vehicle(id, Wrote(cs[m], COL_STATUS), Wrote(cs[m], COL_BATTERY))) else None
    {
      VehicleChange(cs[m], id);
    }
    LastOfChanges(VehiclePatch, cs, j, id);
  }

  /** The same for a zone tile: it shows the count cell of the zone's last committed row. */
  lemma ZoneCells(w: World, actions: seq<Action>, before: seq<AppEvent>, counts: ZoneMap, after: seq<AppEvent>,
                  p: nat, i: nat, j: nat, id: Id)
    requires Init(w) && ValidRun(w, actions) && StaysMounted(before) && StaysMounted(after)
    requires NoSeed(after, (e: AppEvent) => e.ZonesArrived?) && id in counts
    requires var w1 := Final(w, actions);
      && w1.segments != [] && w1.next == |w1.wal| && p <= |w1.published| && Patches(after) == w1.published[p..]
      && p <= i < |w1.published| && w1.published[i].ZoneCountChanged? && w1.published[i].zoneId == id
      && LastRow(AllChanges(w1.wal), j, ZONES, COL_ZONE, id)
    ensures var c := AllChanges(Final(w, actions).wal)[j];
      var store := Run(EMPTY, before + [ZonesArrived(counts)] + after).zones;
      id in store && store[id] == Wrote(c, COL_COUNT)
  {
    hide Init, ValidRun, Final, Stream, Last, EventsOfChanges, AllChanges, Writes, Wrote, ChangeEvents;
    var w1 := Final(w, actions);
    var cs, tail := AllChanges(w1.wal), w1.published[p..];
    SeedThen(before, ZonesArrived(counts), after);
    ZonesFold(Step(Run(EMPTY, before), ZonesArrived(counts)), after);
    KnownAt(ZonePatch, counts, tail);
    assert tail[i - p] == w1.published[i];
    Patched(ZonePatch, tail, i - p, id);
    LastReceived(w, actions, ZonePatch, p, id);
    forall m | 0 <= m < |cs|
      ensures Last(ZonePatch, ChangeEvents(cs[m]), id)
           == if Writes(cs[m], ZONES, COL_ZONE, id) then Some(Wrote(cs[m], COL_COUNT)) else None
    {
      ZoneChange(cs[m], id);
    }
    LastOfChanges(ZonePatch, cs, j, id);
  }

  /** And for an anomaly: the four cells of the vehicle's last committed one, whether or not it had one when seeded. */
  lemma AnomalyCells(w: World, actions: seq<Action>, before: seq<AppEvent>, rows: seq<Anomaly>, after: seq<AppEvent>,
                     p: nat, i: nat, j: nat, id: Id)
    requires Init(w) && ValidRun(w, actions) && StaysMounted(before) && StaysMounted(after)
    requires NoSeed(after, (e: AppEvent) => e.AnomaliesArrived?)
    requires var w1 := Final(w, actions);
      && w1.segments != [] && w1.next == |w1.wal| && p <= |w1.published| && Patches(after) == w1.published[p..]
      && p <= i < |w1.published| && w1.published[i].AnomalyDetected? && w1.published[i].vehicleId == id
      && LastRow(AllChanges(w1.wal), j, ANOMALIES, COL_VEHICLE, id)
    ensures var c, store := AllChanges(Final(w, actions).wal)[j],
                            Run(EMPTY, before + [AnomaliesArrived(rows)] + after).anomalies;
      && id in store && store[id].vehicleId == id
      && store[id].anomalyType == Wrote(c, COL_TYPE) && store[id].detail == Wrote(c, COL_DETAIL)
      && store[id].detectedAt == Wrote(c, COL_DETECTED)
  {
    hide Init, ValidRun, Final, Stream, Last, EventsOfChanges, AllChanges, Writes, Wrote, KeyedAnomalies, ChangeEvents;
    var w1 := Final(w, actions);
    var cs, tail := AllChanges(w1.wal), w1.published[p..];
    SeedThen(before, AnomaliesArrived(rows), after);
    AnomaliesFold(Step(Run(EMPTY, before), AnomaliesArrived(rows)), after);
    AnyAt(AnomalyPatch, KeyedAnomalies(rows), tail, id);
    assert tail[i - p] == w1.published[i];
    Patched(AnomalyPatch, tail, i - p, id);
    LastReceived(w, actions, AnomalyPatch, p, id);
    forall m | 0 <= m < |cs|
      ensures Last(AnomalyPatch, ChangeEvents(cs[m]), id)
           == if Writes(cs[m], ANOMALIES, COL_VEHICLE, id)
              then Some(Anomaly(id, Wrote(cs[m], COL_TYPE), Wrote(cs[m], COL_DETAIL), Wrote(cs[m], COL_DETECTED)))
              else None
    {
      AnomalyChange(cs[m], id);
    }
    LastOfChanges(AnomalyPatch, cs, j, id);
  }
}
