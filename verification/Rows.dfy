/**
 * What persisting readings stores, column by column: the rules on the readings'
 * own numbers, and the rows that any interleaving of ingests leaves.
 */
module Rows {
  import opened Wrappers
  import opened Sequences
  import opened Telemetry
  import opened WritePath
  import opened Serializability

  // ---- The rules, on numbers ---------------------------------------------------------------

  /** Which findings a reading gives by itself: what fires, and what the row's detail is made from. */
  lemma RulesOnReading(e: Event, prior: Option<Reading>, d: Detail)
    ensures var found := Detect(e, prior);
      && (Finding(FaultStatus, d) in found <==> e.status == Fault && d == NoDetail)
      && (Finding(ErrorCodes, d) in found <==> e.errorCodes != [] && d == Codes(e.errorCodes))
      && (Finding(LowBattery, d) in found <==> e.battery < 15.0 && e.status != Charging && d == Battery(e.battery))
      && (Finding(Overspeed, d) in found <==> e.speed > 5.0 && d == Speed(e.speed))
  {
    hide Detect;
    DetectedIffFires(e, prior, Finding(FaultStatus, d));
    DetectedIffFires(e, prior, Finding(ErrorCodes, d));
    DetectedIffFires(e, prior, Finding(LowBattery, d));
    DetectedIffFires(e, prior, Finding(Overspeed, d));
  }

  /** Which findings a reading gives against the vehicle's prior row. */
  lemma RulesOnPrior(e: Event, p: Reading, d: Detail)
    ensures var found, dt := Detect(e, Some(p)), e.recordedAt - p.recordedAt;
      && (Finding(Stuck, d) in found <==>
            && p.status == Moving && e.status == Moving && p.speed < 0.1 && e.speed < 0.1
            && dt >= 10.0 && d == StuckFor(e.speed, dt))
      && (Finding(BatteryRising, d) in found <==>
            e.battery > p.battery && e.status != Charging && d == Rise(p.battery, e.battery))
  {
    hide Detect;
    DetectedIffFires(e, Some(p), Finding(Stuck, d));
    DetectedIffFires(e, Some(p), Finding(BatteryRising, d));
  }

  /** A jump: the distance between the two positions exceeds 15 m/s times a positive interval. */
  lemma TeleportOnPrior(e: Event, p: Reading, d: Detail)
    ensures Finding(Teleport, d) in Detect(e, Some(p)) <==>
      && e.recordedAt > p.recordedAt && p.x.Some? && p.y.Some? && e.x.Some? && e.y.Some?
      && var (dx, dy, dt) := (e.x.value - p.x.value, e.y.value - p.y.value, e.recordedAt - p.recordedAt);
         dx * dx + dy * dy > (15.0 * dt) * (15.0 * dt) && d == Jump(dx * dx + dy * dy, dt)
  {
    hide Detect;
    DetectedIffFires(e, Some(p), Finding(Teleport, d));
  }

  /** A vehicle's first reading triggers none of the rules that compare. */
  lemma RulesOnFirst(e: Event, f: Finding)
    requires f.kind == Stuck || f.kind == Teleport || f.kind == BatteryRising || f.kind == CommsLoss
    ensures f !in Detect(e, None)
  {
    hide Detect;
    DetectedIffFires(e, None, f);
  }

  /** Where a rule stands in the order they are tried. */
  function Rank(k: Kind): nat {
    match k
    case FaultStatus => 0
    case ErrorCodes => 1
    case LowBattery => 2
    case Overspeed => 3
    case Stuck => 4
    case Teleport => 5
    case BatteryRising => 6
    case CommsLoss => 7
  }

  ghost predicate Ranked(kinds: seq<Kind>) {
    forall i, j :: 0 <= i < j < |kinds| ==> Rank(kinds[i]) < Rank(kinds[j])
  }

  ghost predicate InOrder(found: seq<Finding>) {
    forall i, j :: 0 <= i < j < |found| ==> Rank(found[i].kind) < Rank(found[j].kind)
  }

  lemma {:induction false} SelectOrdered(kinds: seq<Kind>, e: Event, prior: Option<Reading>)
    requires Ranked(kinds)
    ensures InOrder(Select(kinds, e, prior))
    decreases |kinds|
  {
    hide Fires, DetailOf, Rank;
    if kinds != [] {
      var n := |kinds| - 1;
      var before := Select(kinds[..n], e, prior);
      SelectOrdered(kinds[..n], e, prior);
      forall i | 0 <= i < |before| ensures Rank(before[i].kind) < Rank(kinds[n]) {
        Selected(kinds[..n], e, prior, before[i]);
        var k :| 0 <= k < n && kinds[..n][k] == before[i].kind;
        assert kinds[k] == before[i].kind;
      }
    }
  }

  /** Findings come in the order of the rules. */
  lemma FindingsInOrder(e: Event, prior: Option<Reading>)
    ensures InOrder(Detect(e, prior))
  {
    hide Select, InOrder;
    assert Ranked(RULES);
    SelectOrdered(RULES, e, prior);
  }

  // ---- Anomaly rows ---------------------------------------------------------------------------

  lemma RowsCount(e: Event, found: seq<Finding>, r: AnomalyRow)
    requires forall i, j :: 0 <= i < j < |found| ==> found[i].kind != found[j].kind
    ensures multiset(RowsOf(e, found))[r]
         == if r.vehicle == e.vehicle && r.detectedAt == e.recordedAt && r.finding in found then 1 else 0
  {
    var rows := RowsOf(e, found);
    assert r in multiset(rows) <==> r in rows;
    if r.vehicle == e.vehicle && r.detectedAt == e.recordedAt && r.finding in found {
      var i :| 0 <= i < |found| && found[i] == r.finding;
      assert rows[i] == r;
      assert rows == rows[..i] + [r] + rows[i + 1..];
      assert r !in rows[..i] && r !in rows[i + 1..];
      assert multiset(rows) == multiset(rows[..i]) + multiset{r} + multiset(rows[i + 1..]);
      assert r !in multiset(rows[..i]) && r !in multiset(rows[i + 1..]);
    }
  }

  /** One reading adds each of its findings once, stamped with its vehicle and time, and no other row. */
  lemma StoredByOne(db: Db, e: Event, r: AnomalyRow)
    ensures Serial(db, e).anomalies[r] == db.anomalies[r]
      + if && r.vehicle == e.vehicle && r.detectedAt == e.recordedAt
           && r.finding in Detect(e, Lookup(db.current, e.vehicle))
        then 1 else 0
  {
    hide Detect;
    var prior := Lookup(db.current, e.vehicle);
    DetectedIffFires(e, prior, r.finding);
    RowsCount(e, Detect(e, prior), r);
  }

  /**
   * Two readings of a vehicle in a row: what the second one stores by comparing is
   * decided by the two readings' own numbers.
   */
  lemma ConsecutiveReadings(db: Db, e1: Event, e2: Event, d: Detail)
    requires e1.vehicle == e2.vehicle
    ensures var first := Serial(db, e1);
      var both, dt := Serial(first, e2), e2.recordedAt - e1.recordedAt;
      && both.anomalies[AnomalyRow(e2.vehicle, Finding(Teleport, d), e2.recordedAt)]
         == first.anomalies[AnomalyRow(e2.vehicle, Finding(Teleport, d), e2.recordedAt)]
            + (if && dt > 0.0 && e1.x.Some? && e1.y.Some? && e2.x.Some? && e2.y.Some?
                  && var (dx, dy) := (e2.x.value - e1.x.value, e2.y.value - e1.y.value);
                     dx * dx + dy * dy > (15.0 * dt) * (15.0 * dt) && d == Jump(dx * dx + dy * dy, dt)
               then 1 else 0)
      && both.anomalies[AnomalyRow(e2.vehicle, Finding(Stuck, d), e2.recordedAt)]
         == first.anomalies[AnomalyRow(e2.vehicle, Finding(Stuck, d), e2.recordedAt)]
            + (if && e1.status == Moving && e2.status == Moving && e1.speed < 0.1 && e2.speed < 0.1
                  && dt >= 10.0 && d == StuckFor(e2.speed, dt)
               then 1 else 0)
      && both.anomalies[AnomalyRow(e2.vehicle, Finding(BatteryRising, d), e2.recordedAt)]
         == first.anomalies[AnomalyRow(e2.vehicle, Finding(BatteryRising, d), e2.recordedAt)]
            + (if e2.battery > e1.battery && e2.status != Charging && d == Rise(e1.battery, e2.battery) then 1 else 0)
  {
    hide Detect, RowsOf;
    var first := Serial(db, e1);
    assert Lookup(first.current, e2.vehicle) == Some(ReadingOf(e1));
    StoredByOne(first, e2, AnomalyRow(e2.vehicle, Finding(Teleport, d), e2.recordedAt));
    StoredByOne(first, e2, AnomalyRow(e2.vehicle, Finding(Stuck, d), e2.recordedAt));
    StoredByOne(first, e2, AnomalyRow(e2.vehicle, Finding(BatteryRising, d), e2.recordedAt));
    TeleportOnPrior(e2, ReadingOf(e1), d);
    RulesOnPrior(e2, ReadingOf(e1), d);
  }

  // ---- Every run --------------------------------------------------------------------------------

  /** Position of the vehicle's last reading. */
  predicate IsLastOf(es: seq<Event>, k: nat, v: string) {
    && k < |es| && es[k].vehicle == v
    && forall m :: k < m < |es| ==> es[m].vehicle != v
  }

  function RawRows(es: seq<Event>): seq<RawRow> {
    seq(|es|, i requires 0 <= i < |es| => RawRow(es[i].vehicle, es[i].status, es[i].battery, es[i].recordedAt))
  }

  lemma {:induction false} SerialRow(db: Db, es: seq<Event>, k: nat, v: string)
    requires IsLastOf(es, k, v)
    ensures v in SerialAll(db, es).current && RowHolds(SerialAll(db, es).current[v], es[k])
    decreases |es|
  {
    hide Detect, RowsOf;
    var n := |es| - 1;
    if k < n {
      SerialRow(db, es[..n], k, v);
    }
  }

  lemma {:induction false} SerialRowKept(db: Db, es: seq<Event>, v: string)
    requires forall k :: 0 <= k < |es| ==> es[k].vehicle != v
    ensures Lookup(SerialAll(db, es).current, v) == Lookup(db.current, v)
    decreases |es|
  {
    hide Detect, RowsOf;
    if es != [] {
      SerialRowKept(db, es[..|es| - 1], v);
    }
  }

  lemma {:induction false} SerialRaw(db: Db, es: seq<Event>)
    ensures SerialAll(db, es).raw == db.raw + multiset(RawRows(es))
    decreases |es|
  {
    hide Detect, RowsOf;
    if es == [] {
      assert RawRows(es) == [];
    } else {
      var n := |es| - 1;
      SerialRaw(db, es[..n]);
      assert RawRows(es) == RawRows(es[..n]) + [RawRow(es[n].vehicle, es[n].status, es[n].battery, es[n].recordedAt)];
    }
  }

  /**
   * In every reachable state, mid-transaction ones included: a vehicle's row is,
   * field by field, its last committed reading, or what it was if none has been
   * committed; and the raw log has grown by one row for each committed reading.
   */
  lemma RowsAreLastReadings(db: Db, es: seq<Event>, actions: seq<Action>, v: string)
    requires ValidRun(Start(db, es), actions)
    ensures var s := Final(Start(db, es), actions);
      && LogOk(s)
      && (forall k: nat :: IsLastOf(Events(s), k, v) ==> v in s.db.current && RowHolds(s.db.current[v], Events(s)[k]))
      && ((forall k :: 0 <= k < |s.log| ==> Events(s)[k].vehicle != v) ==>
            Lookup(s.db.current, v) == Lookup(db.current, v))
      && s.db.raw == db.raw + multiset(RawRows(Events(s)))
  {
    hide SerialAll, RawRows, RowHolds;
    TablesRefineSerial(db, es, actions);
    var done := Events(Final(Start(db, es), actions));
    forall k: nat | IsLastOf(done, k, v)
      ensures v in SerialAll(db, done).current && RowHolds(SerialAll(db, done).current[v], done[k])
    {
      SerialRow(db, done, k, v);
    }
    if forall k :: 0 <= k < |done| ==> done[k].vehicle != v {
      SerialRowKept(db, done, v);
    }
    SerialRaw(db, Events(Final(Start(db, es), actions)));
  }

  // ---- Locks ----------------------------------------------------------------------------------------

  /** Between its upsert and its end a transaction has its vehicle's row to itself, and so for its zone's. */
  lemma RowsHeldAlone(db: Db, es: seq<Event>, actions: seq<Action>, i: nat, j: nat)
    requires ValidRun(Start(db, es), actions)
    ensures var txs := Final(Start(db, es), actions).txs;
      i < j < |txs| ==>
        && (&& (txs[i].pc.Upserted? || txs[i].pc.Counted?) && (txs[j].pc.Upserted? || txs[j].pc.Counted?)
            ==> txs[i].event.vehicle != txs[j].event.vehicle)
        && (&& txs[i].pc.Counted? && txs[i].pending.Some? && txs[j].pc.Counted? && txs[j].pending.Some?
            ==> txs[i].event.zone != txs[j].event.zone)
  {
    hide LogOk, Refines, PriorsOk, FreshSoFar;
    StartOk(db, es);
    RunKeeps(Start(db, es), db, actions);
  }
}
