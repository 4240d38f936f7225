/**
 * Snapshot then stream: a table read at position `q` of the committed stream
 * seeds a store when the stream is at `t`, and patches up to `n` follow. Which
 * keys then agree with the table at `n`, exactly.
 */
module SnapshotRace {
  import opened Wrappers
  import opened PgOutput
  import opened LastWrite
  import opened Dashboard
  import opened LatestAnomaly
  import opened AnomalySnapshot

  /** The table, `initial` when the stream began, after its first `i` events. */
  function TableAt<K, V>(f: Reading<Event, K, V>, initial: map<K, V>, es: seq<Event>, i: nat): map<K, V>
    requires i <= |es|
  {
    FoldAny(f, initial, es[..i])
  }

  /** What a key holds after `last`, the latest write if any, on top of `below`. */
  function Over<V>(last: Option<V>, below: Option<V>): Option<V> {
    if last.Some? then last else below
  }

  /**
   * The race is harmless for `k`: the stream still patches it after the seed,
   * or the seed is no older than the stream, or what the seed missed, if
   * anything, wrote back the value it already had.
   */
  predicate Harmless<K(==), V(==)>(f: Reading<Event, K, V>, initial: map<K, V>, es: seq<Event>,
                                   q: nat, t: nat, n: nat, k: K)
    requires q <= n <= |es| && t <= n
  {
    || Last(f, es[t..n], k).Some?
    || t <= q
    || Last(f, es[q..t], k).None?
    || Last(f, es[q..t], k) == Lookup(TableAt(f, initial, es, q), k)
  }

  lemma TableLookup<K, V>(f: Reading<Event, K, V>, initial: map<K, V>, es: seq<Event>, i: nat, k: K)
    requires i <= |es|
    ensures Lookup(TableAt(f, initial, es, i), k) == Over(Last(f, es[..i], k), Lookup(initial, k))
  {
    AnyAt(f, initial, es[..i], k);
  }

  lemma RaceAtKey<K, V>(f: Reading<Event, K, V>, initial: map<K, V>, es: seq<Event>, q: nat, t: nat, n: nat, k: K)
    requires q <= n <= |es| && t <= n
    ensures (Over(Last(f, es[t..n], k), Lookup(TableAt(f, initial, es, q), k)) == Lookup(TableAt(f, initial, es, n), k))
            <==> Harmless(f, initial, es, q, t, n, k)
  {
    TableLookup(f, initial, es, q, k);
    TableLookup(f, initial, es, n, k);
    LastSplit(f, es, t, n, k);
    if t <= q {
      LastSplit(f, es, t, q, k);
      LastSplit(f, es, q, n, k);
      if Last(f, es[t..n], k).None? {
        NoneWithin(f, es, t, q, n, k);
      }
    } else {
      LastSplit(f, es, q, t, k);
    }
  }

  /** A closed store: its keys are the seed's for ever, and each is right iff harmless. */
  lemma ClosedStoreRace<K, V>(f: Reading<Event, K, V>, initial: map<K, V>, es: seq<Event>, q: nat, t: nat, n: nat)
    requires q <= n <= |es| && t <= n
    ensures var seed, table := TableAt(f, initial, es, q), TableAt(f, initial, es, n);
      var store := FoldKnown(f, seed, es[t..n]);
      && store.Keys == seed.Keys <= table.Keys
      && (forall k :: k in seed ==> (store[k] == table[k] <==> Harmless(f, initial, es, q, t, n, k)))
      && (store == table <==> table.Keys == seed.Keys && forall k :: k in seed ==> Harmless(f, initial, es, q, t, n, k))
  {
    var seed, table := TableAt(f, initial, es, q), TableAt(f, initial, es, n);
    KnownAt(f, seed, es[t..n]);
    forall k | k in seed
      ensures k in table
      ensures FoldKnown(f, seed, es[t..n])[k] == table[k] <==> Harmless(f, initial, es, q, t, n, k)
    {
      RaceAtKey(f, initial, es, q, t, n, k);
      TableLookup(f, initial, es, q, k);
      TableLookup(f, initial, es, n, k);
      LastSplit(f, es, q, n, k);
    }
  }

  /** An open store: keys may be added, and each key is right iff harmless. */
  lemma OpenStoreRace<K, V>(f: Reading<Event, K, V>, initial: map<K, V>, es: seq<Event>, q: nat, t: nat, n: nat, k: K)
    requires q <= n <= |es| && t <= n
    ensures (Lookup(FoldAny(f, TableAt(f, initial, es, q), es[t..n]), k) == Lookup(TableAt(f, initial, es, n), k))
            <==> Harmless(f, initial, es, q, t, n, k)
  {
    AnyAt(f, TableAt(f, initial, es, q), es[t..n], k);
    RaceAtKey(f, initial, es, q, t, n, k);
  }

  // ---- The component itself ------------------------------------------------------------

  /** Mounted from scratch, any events, then one seed, then any others. */
  lemma SeedThen(before: seq<AppEvent>, seed: AppEvent, after: seq<AppEvent>)
    requires StaysMounted(before)
    ensures var s := Run(EMPTY, before);
      s.active && Run(EMPTY, before + [seed] + after) == Run(Step(s, seed), after)
  {
    Mounted(EMPTY, before);
    assert (before + [seed])[..|before|] == before;
    RunConcat(EMPTY, before + [seed], after);
  }

  /**
   * The vehicle snapshot was read at `q` and resolves when the stream is at
   * `t`; patches folded before it and the other stores' seeds change nothing.
   */
  lemma VehicleStoreRace(before: seq<AppEvent>, rows: seq<Vehicle>, after: seq<AppEvent>,
                         initial: VehicleMap, es: seq<Event>, q: nat, t: nat, n: nat)
    requires q <= n <= |es| && t <= n
    requires StaysMounted(before) && StaysMounted(after) && NoSeed(after, (e: AppEvent) => e.VehiclesArrived?)
    requires Lists(rows, TableAt(VehiclePatch, initial, es, q)) && Patches(after) == es[t..n]
    ensures var store := Run(EMPTY, before + [VehiclesArrived(rows)] + after).vehicles;
      var seed, table := TableAt(VehiclePatch, initial, es, q), TableAt(VehiclePatch, initial, es, n);
      && store.Keys == seed.Keys <= table.Keys
      && (forall k :: k in seed ==> (store[k] == table[k] <==> Harmless(VehiclePatch, initial, es, q, t, n, k)))
      && (store == table <==>
            table.Keys == seed.Keys && forall k :: k in seed ==> Harmless(VehiclePatch, initial, es, q, t, n, k))
  {
    hide Harmless, Lists;
    SeedThen(before, VehiclesArrived(rows), after);
    SeedIsTable(rows, TableAt(VehiclePatch, initial, es, q));
    VehiclesFold(Step(Run(EMPTY, before), VehiclesArrived(rows)), after);
    ClosedStoreRace(VehiclePatch, initial, es, q, t, n);
  }

  lemma ZoneStoreRace(before: seq<AppEvent>, after: seq<AppEvent>, initial: ZoneMap, es: seq<Event>,
                      q: nat, t: nat, n: nat)
    requires q <= n <= |es| && t <= n
    requires StaysMounted(before) && StaysMounted(after) && NoSeed(after, (e: AppEvent) => e.ZonesArrived?)
    requires Patches(after) == es[t..n]
    ensures var seed, table := TableAt(ZonePatch, initial, es, q), TableAt(ZonePatch, initial, es, n);
      var store := Run(EMPTY, before + [ZonesArrived(seed)] + after).zones;
      && store.Keys == seed.Keys <= table.Keys
      && (forall k :: k in seed ==> (store[k] == table[k] <==> Harmless(ZonePatch, initial, es, q, t, n, k)))
  {
    hide Harmless;
    var seed := TableAt(ZonePatch, initial, es, q);
    SeedThen(before, ZonesArrived(seed), after);
    ZonesFold(Step(Run(EMPTY, before), ZonesArrived(seed)), after);
    ClosedStoreRace(ZonePatch, initial, es, q, t, n);
  }

  /** The anomalies committed by position `i` on top of those there when the stream began. */
  function AnomalyTable(initial: seq<Anomaly>, es: seq<Event>, i: nat): seq<Anomaly>
    requires i <= |es|
  {
    initial + AnomaliesIn(es[..i])
  }

  lemma AnomalyTableGrows(initial: seq<Anomaly>, es: seq<Event>, q: nat, n: nat)
    requires q <= n <= |es|
    ensures AnomalyTable(initial, es, n) == AnomalyTable(initial, es, q) + AnomaliesIn(es[q..n])
  {
    AnomaliesConcat(es[..q], es[q..n]);
    assert es[..n] == es[..q] + es[q..n];
  }

  lemma LastPatchCommitted(initial: seq<Anomaly>, es: seq<Event>, t: nat, n: nat, k: Id, clock: Clock)
    requires t <= n <= |es| && Last(AnomalyPatch, es[t..n], k).Some?
    ensures Last(AnomalyPatch, es[t..n], k).value in AnomalyTable(initial, es, n)
  {
    hide Last;
    LastAnomaly(clock, es[t..n], k);
    AnomalyTableGrows(initial, es, t, n);
  }

  /**
   * The anomaly snapshot holds each vehicle's newest anomaly by time at `q`,
   * while patches come in commit order. The store shows the vehicle's newest at
   * `n` exactly when its last patch is that, or it had no patch and nothing
   * newer was committed after `q`.
   */
  lemma AnomalyStoreRace(before: seq<AppEvent>, rows: seq<Anomaly>, after: seq<AppEvent>, initial: seq<Anomaly>,
                         es: seq<Event>, q: nat, t: nat, n: nat, k: Id, clock: Clock)
    requires q <= n <= |es| && t <= n
    requires StaysMounted(before) && StaysMounted(after) && NoSeed(after, (e: AppEvent) => e.AnomaliesArrived?)
    requires LatestOf(ByTime(clock), rows, AnomalyTable(initial, es, q)) && Patches(after) == es[t..n]
    ensures var store := Run(EMPTY, before + [AnomaliesArrived(rows)] + after).anomalies;
      var last, table := Last(AnomalyPatch, es[t..n], k), AnomalyTable(initial, es, n);
      ShowsNewest(clock, store, table, k)
      <==> if last.Some? then Newest(ByTime(clock), last.value, table)
           else NoneNewer(clock, AnomalyTable(initial, es, q), AnomaliesIn(es[q..n]), k)
  {
    hide Last, AnomalyTable, LatestOf, ShowsNewest, Newest, NoneNewer, KeyedAnomalies;
    SeedThen(before, AnomaliesArrived(rows), after);
    AnomaliesFold(Step(Run(EMPTY, before), AnomaliesArrived(rows)), after);
    AnomalyTableGrows(initial, es, q, n);
    if Last(AnomalyPatch, es[t..n], k).Some? {
      LastPatchCommitted(initial, es, t, n, k, clock);
    }
    NewestIff(clock, rows, AnomalyTable(initial, es, q), AnomaliesIn(es[q..n]), es[t..n], k);
  }
}
