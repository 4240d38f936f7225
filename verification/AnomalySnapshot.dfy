/**
 * The anomaly store: its snapshot holds the newest anomaly of each vehicle by
 * time, its patches arrive in commit order. When what it shows for a vehicle is
 * none the less its newest committed anomaly, exactly.
 */
module AnomalySnapshot {
  import opened Wrappers
  import opened PgOutput
  import opened Bytes
  import opened LastWrite
  import opened LatestAnomaly
  import opened Dashboard

  /** The time a timestamp's text stands for. */
  type Clock = Option<Text> -> real

  function ByTime(clock: Clock): Columns<Anomaly, Id> {
    Columns((a: Anomaly) => a.vehicleId, (a: Anomaly) => clock(a.detectedAt))
  }

  /** The anomalies committed, in commit order. */
  function AnomaliesIn(es: seq<Event>): seq<Anomaly> {
    if es == [] then [] else
    AnomaliesIn(es[..|es| - 1])
    + match AnomalyPatch(es[|es| - 1]) { case Some((_, a)) => [a] case None => [] }
  }

  lemma {:induction false} AnomaliesConcat(a: seq<Event>, b: seq<Event>)
    ensures AnomaliesIn(a + b) == AnomaliesIn(a) + AnomaliesIn(b)
    decreases |b|
  {
    hide AnomalyPatch;
    if b == [] {
      assert a + b == a;
    } else {
      assert (a + b)[..|a + b| - 1] == a + b[..|b| - 1];
      AnomaliesConcat(a, b[..|b| - 1]);
    }
  }

  /** The last patch to a vehicle is one of its rows; with no patch it has none. */
  lemma {:induction false} LastAnomaly(clock: Clock, es: seq<Event>, k: Id)
    ensures var last := Last(AnomalyPatch, es, k);
      && (last.Some? ==> last.value in AnomaliesIn(es) && last.value.vehicleId == k)
      && (last.None? ==> !HasRow(ByTime(clock), AnomaliesIn(es), k))
    decreases |es|
  {
    if es != [] {
      LastAnomaly(clock, es[..|es| - 1], k);
      if Last(AnomalyPatch, es, k).None? {
        RowInPrefix(ByTime(clock), AnomaliesIn(es), k);
      }
    }
  }

  /** Keying rows by vehicle keeps one of each vehicle's. */
  lemma {:induction false} KeyedRow(clock: Clock, rows: seq<Anomaly>, k: Id)
    ensures k in KeyedAnomalies(rows) <==> HasRow(ByTime(clock), rows, k)
    ensures k in KeyedAnomalies(rows) ==> KeyedAnomalies(rows)[k] in rows && KeyedAnomalies(rows)[k].vehicleId == k
    decreases |rows|
  {
    if rows != [] {
      var n := |rows| - 1;
      KeyedRow(clock, rows[..n], k);
      RowInPrefix(ByTime(clock), rows, k);
      if HasRow(ByTime(clock), rows[..n], k) {
        var i :| 0 <= i < n && rows[..n][i].vehicleId == k;
        assert ByTime(clock).vehicle(rows[i]) == k;
      }
      if rows[n].vehicleId == k {
        RowAt(ByTime(clock), rows, n);
      }
    }
  }

  /** What the dashboard shows for the vehicle is its newest anomaly in the table, or rightly nothing. */
  ghost predicate ShowsNewest(clock: Clock, store: AnomalyMap, table: seq<Anomaly>, k: Id) {
    match Lookup(store, k)
    case Some(a) => a.vehicleId == k && a in table && Newest(ByTime(clock), a, table)
    case None => !HasRow(ByTime(clock), table, k)
  }

  /** Some row of the same vehicle is at least as new. */
  ghost predicate Matched(clock: Clock, a: Anomaly, rows: seq<Anomaly>) {
    exists i :: 0 <= i < |rows| && rows[i].vehicleId == a.vehicleId && clock(a.detectedAt) <= clock(rows[i].detectedAt)
  }

  /** No anomaly of the vehicle among `later` is newer than all among `rows`. */
  ghost predicate NoneNewer(clock: Clock, rows: seq<Anomaly>, later: seq<Anomaly>, k: Id) {
    forall j :: 0 <= j < |later| && later[j].vehicleId == k ==> Matched(clock, later[j], rows)
  }

  /** With no patch since the seed the store shows the newest of those before it. */
  lemma SeedShows(clock: Clock, seed: seq<Anomaly>, rows: seq<Anomaly>, later: seq<Anomaly>, k: Id)
    requires LatestOf(ByTime(clock), seed, rows)
    ensures ShowsNewest(clock, KeyedAnomalies(seed), rows + later, k) <==> NoneNewer(clock, rows, later, k)
  {
    hide KeyedAnomalies;
    var c, table := ByTime(clock), rows + later;
    KeyedRow(clock, seed, k);
    if HasRow(c, seed, k) {
      var a := KeyedAnomalies(seed)[k];
      var i :| 0 <= i < |seed| && seed[i] == a;
      SeedNewest(clock, a, rows, later);
    } else {
      forall i | 0 <= i < |rows| ensures rows[i].vehicleId != k {
        assert HasRow(c, seed, c.vehicle(rows[i]));
      }
      NoRows(clock, rows, later, k);
    }
  }

  lemma SeedNewest(clock: Clock, a: Anomaly, rows: seq<Anomaly>, later: seq<Anomaly>)
    requires a in rows && Newest(ByTime(clock), a, rows)
    ensures a in rows + later
    ensures Newest(ByTime(clock), a, rows + later) <==> NoneNewer(clock, rows, later, a.vehicleId)
  {
    var c, table := ByTime(clock), rows + later;
    var m :| 0 <= m < |rows| && rows[m] == a;
    assert table[m] == a;
    if Newest(c, a, table) {
      forall j | 0 <= j < |later| && later[j].vehicleId == a.vehicleId ensures Matched(clock, later[j], rows) {
        assert table[|rows| + j] == later[j];
        assert clock(later[j].detectedAt) <= clock(rows[m].detectedAt);
      }
    }
    if NoneNewer(clock, rows, later, a.vehicleId) {
      forall j | 0 <= j < |table| && c.vehicle(table[j]) == c.vehicle(a) ensures c.at(table[j]) <= c.at(a) {
        if j < |rows| {
          assert table[j] == rows[j];
        } else {
          assert table[j] == later[j - |rows|];
          assert Matched(clock, later[j - |rows|], rows);
          var i :| && 0 <= i < |rows| && rows[i].vehicleId == a.vehicleId
                   && clock(table[j].detectedAt) <= clock(rows[i].detectedAt);
          assert c.at(rows[i]) <= c.at(a);
        }
      }
    }
  }

  lemma NoRows(clock: Clock, rows: seq<Anomaly>, later: seq<Anomaly>, k: Id)
    requires forall i :: 0 <= i < |rows| ==> rows[i].vehicleId != k
    ensures !HasRow(ByTime(clock), rows + later, k) <==> NoneNewer(clock, rows, later, k)
  {
    var c, table := ByTime(clock), rows + later;
    if j :| 0 <= j < |later| && later[j].vehicleId == k {
      assert c.vehicle(table[|rows| + j]) == k;
    }
  }

  /**
   * Seeded with the newest anomaly of each vehicle among `rows`, then patched:
   * with a patch since, the store shows the vehicle's newest iff its last patch
   * is; with none, iff no anomaly committed since the snapshot is newer.
   */
  lemma NewestIff(clock: Clock, seed: seq<Anomaly>, rows: seq<Anomaly>, later: seq<Anomaly>, patches: seq<Event>, k: Id)
    requires LatestOf(ByTime(clock), seed, rows)
    requires Last(AnomalyPatch, patches, k).Some? ==> Last(AnomalyPatch, patches, k).value in rows + later
    ensures var last, store := Last(AnomalyPatch, patches, k), FoldAny(AnomalyPatch, KeyedAnomalies(seed), patches);
      ShowsNewest(clock, store, rows + later, k)
      <==> if last.Some? then Newest(ByTime(clock), last.value, rows + later) else NoneNewer(clock, rows, later, k)
  {
    hide KeyedAnomalies, LatestOf, Newest, NoneNewer, HasRow, ByTime;
    AnyAt(AnomalyPatch, KeyedAnomalies(seed), patches, k);
    LastAnomaly(clock, patches, k);
    SeedShows(clock, seed, rows, later, k);
  }
}
