/**
 * When the unlocked prior reads cost nothing: the exact condition, reading by
 * reading, under which the stored anomalies are those of the serial run.
 */
module AnomalySerial {
  import opened Wrappers
  import opened Telemetry
  import opened WritePath
  import opened Serializability

  /** The rules that look at the prior row. */
  predicate Compares(k: Kind) {
    k.Stuck? || k.Teleport? || k.BatteryRising?
  }

  /** The comparing rules say the same of a reading against either row. */
  ghost predicate Agree(e: Event, stale: Option<Reading>, current: Option<Reading>) {
    forall k :: Compares(k) ==> When(k, e, stale) == When(k, e, current)
  }

  lemma {:induction false} SelectAgrees(kinds: seq<Kind>, e: Event, stale: Option<Reading>, current: Option<Reading>)
    requires Agree(e, stale, current)
    ensures Select(kinds, e, stale) == Select(kinds, e, current)
    decreases |kinds|
  {
    if kinds != [] {
      var k := kinds[|kinds| - 1];
      SelectAgrees(kinds[..|kinds| - 1], e, stale, current);
      assert Compares(k) || When(k, e, stale) == When(k, e, current);
    }
  }

  /** The finding of a rule that fires is among the findings, and only then. */
  lemma WhenFound(k: Kind, e: Event, prior: Option<Reading>, f: Finding)
    requires f.kind == k
    ensures f in Detect(e, prior) <==> When(k, e, prior) == [f]
  {
    hide Fires, DetailOf, Detect;
    DetectedIffFires(e, prior, f);
  }

  /** A rule gives at most one finding, of its own kind. */
  lemma WhenOne(k: Kind, e: Event, prior: Option<Reading>)
    ensures When(k, e, prior) == [] || (|When(k, e, prior)| == 1 && When(k, e, prior)[0].kind == k)
  {
    hide Fires, DetailOf;
  }

  // ---- Which rows are stored ---------------------------------------------------------------

  ghost predicate IsRowOf(r: AnomalyRow, t: Tx) {
    r.vehicle == t.event.vehicle && r.detectedAt == t.event.recordedAt && r.finding in Found(t)
  }

  lemma RowOfTx(r: AnomalyRow, t: Tx)
    ensures r in multiset(RowsOf(t.event, Found(t))) <==> IsRowOf(r, t)
  {
    hide Found;
    var rows := RowsOf(t.event, Found(t));
    assert r in multiset(rows) <==> r in rows;
    if IsRowOf(r, t) {
      var i :| 0 <= i < |Found(t)| && Found(t)[i] == r.finding;
      assert rows[i] == r;
    }
  }

  ghost predicate Stored(r: AnomalyRow, ts: seq<Tx>) {
    exists j :: 0 <= j < |ts| && IsRowOf(r, ts[j])
  }

  lemma {:induction false} RowsStored(ts: seq<Tx>, r: AnomalyRow)
    ensures r in RowsOfAll(ts) <==> Stored(r, ts)
    decreases |ts|
  {
    hide IsRowOf, RowsOf, Found;
    if ts != [] {
      var n := |ts| - 1;
      RowsStored(ts[..n], r);
      RowOfTx(r, ts[n]);
      if Stored(r, ts[..n]) {
        var j :| 0 <= j < n && IsRowOf(r, ts[..n][j]);
        assert IsRowOf(r, ts[j]);
      }
      if Stored(r, ts) {
        var j :| 0 <= j < |ts| && IsRowOf(r, ts[j]);
        assert j < n ==> IsRowOf(r, ts[..n][j]);
      }
    }
  }

  /** No two readings of a vehicle carry the same time. */
  ghost predicate Timed(ts: seq<Tx>) {
    forall i, j :: 0 <= i < j < |ts| ==>
      ts[i].event.vehicle != ts[j].event.vehicle || ts[i].event.recordedAt != ts[j].event.recordedAt
  }

  ghost predicate SameReadings(ts: seq<Tx>, us: seq<Tx>) {
    |ts| == |us| && forall j :: 0 <= j < |ts| ==> ts[j].event == us[j].event
  }

  /** A rule's finding against one row is stored, so it is found against the other. */
  lemma FoundAlike(ts: seq<Tx>, us: seq<Tx>, j: nat, k: Kind)
    requires SameReadings(ts, us) && Timed(ts) && RowsOfAll(ts) == RowsOfAll(us) && j < |ts|
    ensures When(k, ts[j].event, ts[j].prior) != [] ==>
      When(k, us[j].event, us[j].prior) == When(k, ts[j].event, ts[j].prior)
  {
    hide RowsOfAll, Detect, When;
    var e := ts[j].event;
    WhenOne(k, e, ts[j].prior);
    if When(k, e, ts[j].prior) != [] {
      var f := When(k, e, ts[j].prior)[0];
      assert When(k, e, ts[j].prior) == [f];
      WhenFound(k, e, ts[j].prior, f);
      var r := AnomalyRow(e.vehicle, f, e.recordedAt);
      assert IsRowOf(r, ts[j]);
      RowsStored(ts, r);
      RowsStored(us, r);
      var i :| 0 <= i < |us| && IsRowOf(r, us[i]);
      assert ts[i].event == us[i].event;
      assert i == j;
      WhenFound(k, e, us[j].prior, f);
    }
  }

  lemma {:induction false} AgreeingRows(ts: seq<Tx>, us: seq<Tx>)
    requires SameReadings(ts, us) && forall j :: 0 <= j < |ts| ==> Agree(ts[j].event, ts[j].prior, us[j].prior)
    ensures RowsOfAll(ts) == RowsOfAll(us)
    decreases |ts|
  {
    hide RowsOf, Agree;
    if ts != [] {
      var n := |ts| - 1;
      AgreeingRows(ts[..n], us[..n]);
      SelectAgrees(RULES, ts[n].event, ts[n].prior, us[n].prior);
    }
  }

  lemma SameRowsIff(ts: seq<Tx>, us: seq<Tx>)
    requires SameReadings(ts, us) && Timed(ts)
    ensures RowsOfAll(ts) == RowsOfAll(us) <==>
      forall j :: 0 <= j < |ts| ==> Agree(ts[j].event, ts[j].prior, us[j].prior)
  {
    hide RowsOfAll, When;
    if RowsOfAll(ts) == RowsOfAll(us) {
      forall j, k | 0 <= j < |ts|
        ensures When(k, ts[j].event, ts[j].prior) == When(k, ts[j].event, us[j].prior)
      {
        FoundAlike(ts, us, j, k);
        FoundAlike(us, ts, j, k);
      }
    } else if forall j :: 0 <= j < |ts| ==> Agree(ts[j].event, ts[j].prior, us[j].prior) {
      AgreeingRows(ts, us);
    }
  }

  // ---- Over every interleaving -----------------------------------------------------------------

  /** The committed transactions as if each had read the row as of the commit before its own. */
  ghost function Fresh(s: Sys, db: Db): seq<Tx>
    requires LogOk(s)
  {
    seq(|s.log|, j requires 0 <= j < |s.log| => Done(s)[j].(prior := RowAfter(db, Events(s), j, Events(s)[j].vehicle)))
  }

  lemma FreshIsSerial(s: Sys, db: Db)
    requires LogOk(s)
    ensures SameReadings(Done(s), Fresh(s, db))
    ensures SerialAll(db, Events(s)).anomalies == db.anomalies + RowsOfAll(Fresh(s, db))
  {
    hide RowAfter, RowsOfAll, SerialAll;
    FreshRowsAreSerial(db, Fresh(s, db), Events(s));
  }

  /**
   * If no two committed readings of a vehicle carry the same time, the anomalies
   * stored are those of the serial run exactly when, for every committed reading,
   * the rules that compare agree on the row it read and the row it would have
   * read in its turn.
   */
  lemma AnomaliesSerialIff(db: Db, es: seq<Event>, actions: seq<Action>)
    requires ValidRun(Start(db, es), actions)
    requires var s := Final(Start(db, es), actions); LogOk(s) ==> Timed(Done(s))
    ensures var s := Final(Start(db, es), actions);
      && LogOk(s)
      && (s.db == SerialAll(db, Events(s)) <==>
            forall j :: 0 <= j < |s.log| ==>
              Agree(Events(s)[j], Done(s)[j].prior, RowAfter(db, Events(s), j, Events(s)[j].vehicle)))
  {
    hide SerialAll, RowAfter, RowsOfAll, Agree, Timed;
    TablesRefineSerial(db, es, actions);
    AnomaliesFromEarlierRows(db, es, actions);
    var s := Final(Start(db, es), actions);
    FreshIsSerial(s, db);
    SameRowsIff(Done(s), Fresh(s, db));
    var stored, serial := RowsOfAll(Done(s)), RowsOfAll(Fresh(s, db));
    assert db.anomalies + stored == db.anomalies + serial ==> stored == serial by {
      SumCancels(db.anomalies, stored, serial);
    }
  }

  lemma SumCancels(base: multiset<AnomalyRow>, a: multiset<AnomalyRow>, b: multiset<AnomalyRow>)
    ensures base + a == base + b ==> a == b
  {
    if base + a == base + b {
      forall r ensures a[r] == b[r] {
        assert (base + a)[r] == (base + b)[r];
      }
    }
  }
}
