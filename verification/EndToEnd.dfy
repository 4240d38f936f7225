/**
 * From commits to a dashboard opened in the middle: a snapshot read at some
 * commit seeds a store while the channel, rewound and replayed by crashes and
 * restarts, goes on. Once the consumer has caught up, which keys are right.
 */
module EndToEnd {
  import opened Wrappers
  import opened PgOutput
  import opened Replication
  import opened LastWrite
  import opened Dashboard
  import opened LatestAnomaly
  import opened AnomalySnapshot
  import opened SnapshotRace
  import opened Pipeline

  /**
   * The seed, read after `q` committed events, is made good for `k`: a patch has
   * come since, or nothing was committed since `q`, or only the value it had.
   */
  predicate MadeGood<K(==), V(==)>(f: Reading<Event, K, V>, initial: map<K, V>, es: seq<Event>, q: nat,
                                   patches: seq<Event>, k: K)
    requires q <= |es|
  {
    || Last(f, patches, k).Some?
    || Last(f, es[q..], k).None?
    || Last(f, es[q..], k) == Lookup(TableAt(f, initial, es, q), k)
  }

  /** The channel ends as the commits do, and the store has received its part from `p` on. */
  lemma KeyOverReplay<K, V>(f: Reading<Event, K, V>, initial: map<K, V>, es: seq<Event>, q: nat,
                            ps: seq<Event>, p: nat, k: K)
    requires q <= |es| && p <= |ps| && Last(f, ps, k) == Last(f, es, k)
    ensures var shown := Over(Last(f, ps[p..], k), Lookup(TableAt(f, initial, es, q), k));
      shown == Lookup(TableAt(f, initial, es, |es|), k) <==> MadeGood(f, initial, es, q, ps[p..], k)
  {
    hide Last;
    TableLookup(f, initial, es, q, k);
    TableLookup(f, initial, es, |es|, k);
    assert es[..|es|] == es && es[q..|es|] == es[q..];
    LastSplit(f, es, q, |es|, k);
    assert ps[..|ps|] == ps && ps[p..|ps|] == ps[p..];
    LastSplit(f, ps, p, |ps|, k);
  }

  /** A store closed to new keys, over any replay. */
  lemma ClosedOverReplay<K(!new), V>(f: Reading<Event, K, V>, initial: map<K, V>, es: seq<Event>, q: nat,
                                     ps: seq<Event>, p: nat)
    requires q <= |es| && p <= |ps| && forall k :: Last(f, ps, k) == Last(f, es, k)
    ensures var seed, table := TableAt(f, initial, es, q), TableAt(f, initial, es, |es|);
      var store := FoldKnown(f, seed, ps[p..]);
      store.Keys == seed.Keys <= table.Keys
      && forall k :: k in seed ==> (store[k] == table[k] <==> MadeGood(f, initial, es, q, ps[p..], k))
  {
    hide Last, MadeGood, TableAt;
    var seed := TableAt(f, initial, es, q);
    KnownAt(f, seed, ps[p..]);
    forall k | k in seed
      ensures k in TableAt(f, initial, es, |es|)
      ensures FoldKnown(f, seed, ps[p..])[k] == TableAt(f, initial, es, |es|)[k] <==>
        MadeGood(f, initial, es, q, ps[p..], k)
    {
      KeyOverReplay(f, initial, es, q, ps, p, k);
      TableLookup(f, initial, es, q, k);
      TableLookup(f, initial, es, |es|, k);
      assert es[..|es|] == es;
      LastSplit(f, es, q, |es|, k);
    }
  }

  lemma CaughtUp<K(!new), V>(w: World, actions: seq<Action>, f: Reading<Event, K, V>)
    requires Init(w) && ValidRun(w, actions)
    requires var w1 := Final(w, actions); w1.segments != [] && w1.next == |w1.wal|
    ensures var w1 := Final(w, actions); forall k :: Last(f, w1.published, k) == Last(f, Stream(w1.wal), k)
  {
    hide Init, ValidRun, Final, Stream, Last;
    var w1 := Final(w, actions);
    forall k ensures Last(f, w1.published, k) == Last(f, Stream(w1.wal), k) {
      PublishedLast(w, actions, f, k);
    }
  }

  /**
   * The vehicle store of a dashboard opened in the middle of any run with
   * crashes, failed publishes and restarts: its snapshot was read after `q`
   * committed events, and since it was seeded everything published from `p` on
   * has been folded into it. When the consumer has caught up, each of its
   * vehicles is as committed exactly when its seed has been made good.
   */
  lemma VehiclesEndToEnd(w: World, actions: seq<Action>, before: seq<AppEvent>, rows: seq<Vehicle>,
                         after: seq<AppEvent>, initial: VehicleMap, q: nat, p: nat)
    requires Init(w) && ValidRun(w, actions) && StaysMounted(before) && StaysMounted(after)
    requires NoSeed(after, (e: AppEvent) => e.VehiclesArrived?)
    requires var w1 := Final(w, actions);
      && w1.segments != [] && w1.next == |w1.wal|
      && q <= |Stream(w1.wal)| && Lists(rows, TableAt(VehiclePatch, initial, Stream(w1.wal), q))
      && p <= |w1.published| && Patches(after) == w1.published[p..]
    ensures var w1 := Final(w, actions);
      var es, store := Stream(w1.wal), Run(EMPTY, before + [VehiclesArrived(rows)] + after).vehicles;
      var seed, table := TableAt(VehiclePatch, initial, es, q), TableAt(VehiclePatch, initial, es, |es|);
      && store.Keys == seed.Keys <= table.Keys
      && forall k :: k in seed ==>
           (store[k] == table[k] <==> MadeGood(VehiclePatch, initial, es, q, w1.published[p..], k))
  {
    hide Init, ValidRun, Final, Stream, Last, MadeGood, TableAt, Lists;
    var w1 := Final(w, actions);
    SeedThen(before, VehiclesArrived(rows), after);
    SeedIsTable(rows, TableAt(VehiclePatch, initial, Stream(w1.wal), q));
    VehiclesFold(Step(Run(EMPTY, before), VehiclesArrived(rows)), after);
    CaughtUp(w, actions, VehiclePatch);
    ClosedOverReplay(VehiclePatch, initial, Stream(w1.wal), q, w1.published, p);
  }

  /** The same for the zone tiles. */
  lemma ZonesEndToEnd(w: World, actions: seq<Action>, before: seq<AppEvent>, after: seq<AppEvent>,
                      initial: ZoneMap, q: nat, p: nat)
    requires Init(w) && ValidRun(w, actions) && StaysMounted(before) && StaysMounted(after)
    requires NoSeed(after, (e: AppEvent) => e.ZonesArrived?)
    requires var w1 := Final(w, actions);
      && w1.segments != [] && w1.next == |w1.wal|
      && q <= |Stream(w1.wal)| && p <= |w1.published| && Patches(after) == w1.published[p..]
    ensures var w1 := Final(w, actions);
      var es := Stream(w1.wal);
      var seed, table := TableAt(ZonePatch, initial, es, q), TableAt(ZonePatch, initial, es, |es|);
      var store := Run(EMPTY, before + [ZonesArrived(seed)] + after).zones;
      store.Keys == seed.Keys <= table.Keys
      && forall k :: k in seed ==> (store[k] == table[k] <==> MadeGood(ZonePatch, initial, es, q, w1.published[p..], k))
  {
    hide Init, ValidRun, Final, Stream, Last, MadeGood, TableAt;
    var w1 := Final(w, actions);
    var seed := TableAt(ZonePatch, initial, Stream(w1.wal), q);
    SeedThen(before, ZonesArrived(seed), after);
    ZonesFold(Step(Run(EMPTY, before), ZonesArrived(seed)), after);
    CaughtUp(w, actions, ZonePatch);
    ClosedOverReplay(ZonePatch, initial, Stream(w1.wal), q, w1.published, p);
  }

  /**
   * The anomaly store, seeded with each vehicle's newest anomaly by time after
   * `q` committed events: it shows the vehicle's newest of all committed exactly
   * when it was patched since and the last committed is the newest, or it was
   * not and nothing newer was committed after the snapshot.
   */
  lemma AnomaliesEndToEnd(w: World, actions: seq<Action>, before: seq<AppEvent>, rows: seq<Anomaly>,
                          after: seq<AppEvent>, initial: seq<Anomaly>, q: nat, p: nat, k: Id, clock: Clock)
    requires Init(w) && ValidRun(w, actions) && StaysMounted(before) && StaysMounted(after)
    requires NoSeed(after, (e: AppEvent) => e.AnomaliesArrived?)
    requires var w1 := Final(w, actions);
      && w1.segments != [] && w1.next == |w1.wal| && q <= |Stream(w1.wal)|
      && LatestOf(ByTime(clock), rows, AnomalyTable(initial, Stream(w1.wal), q))
      && p <= |w1.published| && Patches(after) == w1.published[p..]
    ensures var w1 := Final(w, actions);
      var es, store := Stream(w1.wal), Run(EMPTY, before + [AnomaliesArrived(rows)] + after).anomalies;
      var last, table := Last(AnomalyPatch, es, k), AnomalyTable(initial, es, |es|);
      ShowsNewest(clock, store, table, k)
      <==> if Last(AnomalyPatch, w1.published[p..], k).Some? then last.Some? && Newest(ByTime(clock), last.value, table)
           else NoneNewer(clock, AnomalyTable(initial, es, q), AnomaliesIn(es[q..]), k)
  {
    hide Init, ValidRun, Final, Stream, Last, AnomalyTable, LatestOf, ShowsNewest, Newest, NoneNewer, KeyedAnomalies;
    var w1 := Final(w, actions);
    var es, ps := Stream(w1.wal), w1.published;
    SeedThen(before, AnomaliesArrived(rows), after);
    AnomaliesFold(Step(Run(EMPTY, before), AnomaliesArrived(rows)), after);
    PublishedLast(w, actions, AnomalyPatch, k);
    assert ps[..|ps|] == ps && ps[p..|ps|] == ps[p..];
    LastSplit(AnomalyPatch, ps, p, |ps|, k);
    assert es[0..|es|] == es && es[q..|es|] == es[q..];
    AnomalyTableGrows(initial, es, q, |es|);
    if Last(AnomalyPatch, es, k).Some? {
      LastPatchCommitted(initial, es, 0, |es|, k, clock);
    }
    NewestIff(clock, rows, AnomalyTable(initial, es, q), AnomaliesIn(es[q..]), ps[p..], k);
  }
}
