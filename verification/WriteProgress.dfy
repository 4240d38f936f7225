/**
 * Counters, progress and termination of the telemetry transactions, and the
 * interleaving in which the unlocked prior read loses an anomaly.
 */
module WriteProgress {
  import opened Wrappers
  import opened Sequences
  import opened Telemetry
  import opened WritePath
  import opened Serializability

  // ---- No lost increment ------------------------------------------------------------------

  /** How many readings name the zone. */
  function Entries(es: seq<Event>, zone: string): nat {
    if es == [] then 0 else Entries(es[..|es| - 1], zone) + (if es[|es| - 1].zone == Some(zone) then 1 else 0)
  }

  /** How many readings name a zone that has a row. */
  function Seeded(zones: map<string, int>, es: seq<Event>): nat {
    if es == [] then 0 else
    var e := es[|es| - 1];
    Seeded(zones, es[..|es| - 1]) + (if e.zone.Some? && e.zone.value in zones then 1 else 0)
  }

  ghost function SumOver(keys: set<string>, m: map<string, int>): int
    requires keys <= m.Keys
    decreases |keys|
  {
    if keys == {} then 0 else
    var k :| k in keys;
    m[k] + SumOver(keys - {k}, m)
  }

  ghost function Total(m: map<string, int>): int {
    SumOver(m.Keys, m)
  }

  lemma {:induction false} SumWithout(keys: set<string>, m: map<string, int>, k: string)
    requires keys <= m.Keys && k in keys
    ensures SumOver(keys, m) == m[k] + SumOver(keys - {k}, m)
    decreases |keys|
  {
    var c :| c in keys && SumOver(keys, m) == m[c] + SumOver(keys - {c}, m);
    if c != k {
      SumWithout(keys - {c}, m, k);
      assert keys - {c} - {k} == keys - {k} - {c};
      SumWithout(keys - {k}, m, c);
    }
  }

  lemma {:induction false} SumAgrees(keys: set<string>, m: map<string, int>, n: map<string, int>)
    requires keys <= m.Keys && keys <= n.Keys && forall k :: k in keys ==> m[k] == n[k]
    ensures SumOver(keys, m) == SumOver(keys, n)
    decreases |keys|
  {
    if keys != {} {
      var c :| c in keys && SumOver(keys, m) == m[c] + SumOver(keys - {c}, m);
      SumAgrees(keys - {c}, m, n);
      SumWithout(keys, n, c);
    }
  }

  lemma TotalEntered(zones: map<string, int>, zone: Option<string>)
    ensures Entered(zones, zone).Keys == zones.Keys
    ensures Total(Entered(zones, zone)) == Total(zones) + if zone.Some? && zone.value in zones then 1 else 0
  {
    if zone.Some? && zone.value in zones {
      var z, after := zone.value, Entered(zones, zone);
      assert after.Keys == zones.Keys;
      SumWithout(zones.Keys, zones, z);
      SumWithout(zones.Keys, after, z);
      SumAgrees(zones.Keys - {z}, zones, after);
    }
  }

  lemma {:induction false} SerialZones(db: Db, es: seq<Event>)
    ensures var zones := SerialAll(db, es).zones;
      && zones.Keys == db.zones.Keys
      && (forall z :: z in db.zones ==> zones[z] == db.zones[z] + Entries(es, z))
      && Total(zones) == Total(db.zones) + Seeded(db.zones, es)
    decreases |es|
  {
    hide Detect, RowsOf, Total;
    if es != [] {
      var rest := es[..|es| - 1];
      SerialZones(db, rest);
      TotalEntered(SerialAll(db, rest).zones, es[|es| - 1].zone);
    }
  }

  /** The uncommitted value of the transaction holding a zone's lock. */
  function Pending(s: Sys, zone: string): Option<int> {
    if zone in s.zoneLocks && s.zoneLocks[zone] < |s.txs| then s.txs[s.zoneLocks[zone]].pending else None
  }

  /**
   * In every reachable state each counter is its start value plus the committed
   * readings that name it, whoever holds its lock would commit one more, and
   * the total has grown by exactly the committed readings of seeded zones.
   */
  lemma NoLostIncrement(db: Db, es: seq<Event>, actions: seq<Action>)
    requires ValidRun(Start(db, es), actions)
    ensures var s := Final(Start(db, es), actions);
      && LogOk(s) && s.db.zones.Keys == db.zones.Keys
      && (forall z :: z in db.zones ==> s.db.zones[z] == db.zones[z] + Entries(Events(s), z))
      && (forall z :: z in s.zoneLocks ==> z in s.db.zones && Pending(s, z) == Some(s.db.zones[z] + 1))
      && Total(s.db.zones) == Total(db.zones) + Seeded(db.zones, Events(s))
  {
    hide SerialAll, Total, RowLocksOk, PriorsOk, FreshSoFar;
    StartOk(db, es);
    RunKeeps(Start(db, es), db, actions);
    SerialZones(db, Events(Final(Start(db, es), actions)));
  }

  /** Counters are 32-bit: no committed or pending value is ever beyond the column's range. */
  ghost predicate InRange(s: Sys) {
    && (forall z :: z in s.db.zones ==> s.db.zones[z] <= 2147483647)
    && (forall i :: 0 <= i < |s.txs| && s.txs[i].pending.Some? ==> s.txs[i].pending.value <= 2147483647)
  }

  lemma StepInRange(s: Sys, a: Action)
    requires Enabled(s, a) && InRange(s)
    ensures InRange(Apply(s, a))
  {
    hide Detect, RowsOf, Release, RawOf, ReadingOf, WaitsFor;
    var n := Apply(s, a);
    forall i | 0 <= i < |n.txs| && n.txs[i].pending.Some? ensures n.txs[i].pending.value <= 2147483647 {
      assert i != a.id ==> n.txs[i] == s.txs[i];
    }
  }

  lemma {:induction false} RunInRange(s: Sys, actions: seq<Action>)
    requires ValidRun(s, actions) && InRange(s)
    ensures InRange(Final(s, actions))
    decreases |actions|
  {
    hide InRange, Enabled, Apply;
    if actions != [] {
      StepInRange(s, actions[0]);
      RunInRange(Apply(s, actions[0]), actions[1..]);
    }
  }

  /**
   * However the transactions interleave, no counter leaves its 32-bit range: the
   * committed readings that name a zone are never more than its row had room for.
   */
  lemma CountsBounded(db: Db, es: seq<Event>, actions: seq<Action>, z: string)
    requires ValidRun(Start(db, es), actions) && z in db.zones
    requires forall y :: y in db.zones ==> db.zones[y] <= 2147483647
    ensures var s := Final(Start(db, es), actions);
      && LogOk(s) && z in s.db.zones && s.db.zones[z] <= 2147483647
      && Entries(Events(s), z) <= 2147483647 - db.zones[z]
  {
    hide ValidRun, Entries, Total;
    assert ValidRun(Start(db, es), actions);
    NoLostIncrement(db, es, actions);
    RunInRange(Start(db, es), actions);
  }

  // ---- No deadlock ---------------------------------------------------------------------------

  /** Every transaction locks its vehicle row before its zone row, so the wait chain ends. */
  lemma NoDeadlock(s: Sys, db: Db, a: nat) returns (i: nat)
    requires Inv(s, db) && a < |s.txs| && Active(s.txs[a])
    ensures Enabled(s, Statement(i))
  {
    hide LogOk, Refines;
    i := a;
    if WaitsFor(s, i).Some? {
      i := WaitsFor(s, i).value;
    }
    if WaitsFor(s, i).Some? {
      i := WaitsFor(s, i).value;
    }
  }

  // ---- Termination -----------------------------------------------------------------------------

  /** Bound on the statements a transaction has left. */
  function Left(t: Tx): nat {
    match t.pc
    case Begin => 12
    case Read => 11
    case Logged => 10
    case Upserted => 9
    case Counted => Max(8 - t.written, 1)
    case _ => 0
  }

  function AllLeft(ts: seq<Tx>): nat {
    Sum(seq(|ts|, i requires 0 <= i < |ts| => Left(ts[i])))
  }

  lemma LeftUpdate(ts: seq<Tx>, i: nat, t: Tx)
    requires i < |ts|
    ensures AllLeft(ts[i := t]) == AllLeft(ts) - Left(ts[i]) + Left(t)
  {
    hide Left;
    var lefts := seq(|ts|, j requires 0 <= j < |ts| => Left(ts[j]));
    SumUpdate(lefts, i, Left(t));
    assert lefts[i := Left(t)] == seq(|ts|, j requires 0 <= j < |ts| => Left(ts[i := t][j]));
  }

  lemma FoundBound(t: Tx)
    ensures |Found(t)| <= 7
  {
  }

  lemma StepShrinks(s: Sys, db: Db, a: Action)
    requires Inv(s, db) && Enabled(s, a)
    ensures AllLeft(Apply(s, a).txs) < AllLeft(s.txs)
  {
    hide RowLocksOk, ZoneLocksOk, LogOk, Refines, Written, Release, WaitsFor, AllLeft;
    FoundBound(s.txs[a.id]);
    var s1 := Apply(s, a);
    assert s1.txs == s.txs[a.id := s1.txs[a.id]];
    LeftUpdate(s.txs, a.id, s1.txs[a.id]);
  }

  lemma {:induction false} RunShrinks(s: Sys, db: Db, actions: seq<Action>)
    requires Inv(s, db) && ValidRun(s, actions)
    ensures |actions| + AllLeft(Final(s, actions).txs) <= AllLeft(s.txs)
    decreases |actions|
  {
    hide Inv, Enabled, Apply, AllLeft;
    if actions != [] {
      StepShrinks(s, db, actions[0]);
      StepKeeps(s, db, actions[0]);
      RunShrinks(Apply(s, actions[0]), db, actions[1..]);
    }
  }

  lemma LeftAtStart(ts: seq<Tx>)
    requires forall i :: 0 <= i < |ts| ==> ts[i].pc.Begin?
    ensures AllLeft(ts) == 12 * |ts|
  {
    SumConstant(seq(|ts|, i requires 0 <= i < |ts| => Left(ts[i])), 12);
  }

  /** Every run is finite, and one that cannot go on has finished every transaction. */
  lemma EveryRunEnds(db: Db, es: seq<Event>, actions: seq<Action>)
    requires ValidRun(Start(db, es), actions)
    ensures |actions| <= 12 * |es|
    ensures var s := Final(Start(db, es), actions);
      (forall i :: !Enabled(s, Statement(i))) ==> forall j :: 0 <= j < |s.txs| ==> !Active(s.txs[j])
  {
    hide Apply, Enabled, PriorsOk, FreshSoFar, Inv, AllLeft;
    StartOk(db, es);
    RunShrinks(Start(db, es), db, actions);
    LeftAtStart(Start(db, es).txs);
    RunKeeps(Start(db, es), db, actions);
    var s := Final(Start(db, es), actions);
    if j :| 0 <= j < |s.txs| && Active(s.txs[j]) {
      var i := NoDeadlock(s, db, j);
      assert Enabled(s, Statement(i));
    }
  }

  // ---- The unlocked prior read --------------------------------------------------------------------

  /** A first reading of a vehicle at a battery level, triggering no rule by itself. */
  function Level(battery: real): Event {
    Event("v", Idle, battery, 0.0, None, 0.0, [], None, None)
  }

  const EMPTY_DB: Db := Db(multiset{}, map[], map[], multiset{})

  /** Both transactions read; then each runs to its commit in turn. */
  const OVERLAP: seq<Action> := [
    Statement(0), Statement(1),
    Statement(0), Statement(0), Statement(0), Statement(0),
    Statement(1), Statement(1), Statement(1), Statement(1)]

  lemma LevelQuiet(battery: real)
    requires battery >= LOW_BATTERY_PCT
    ensures Detect(Level(battery), None) == []
  {
    var found := Detect(Level(battery), None);
    if found != [] {
      DetectedIffFires(Level(battery), None, found[0]);
    }
  }

  lemma RunStep(s: Sys, a: Action, rest: seq<Action>)
    requires Enabled(s, a) && ValidRun(Apply(s, a), rest)
    ensures ValidRun(s, [a] + rest) && Final(s, [a] + rest) == Final(Apply(s, a), rest)
  {
    assert ([a] + rest)[1..] == rest;
  }

  /** With nothing found and no zone, four statements after its read a transaction has committed. */
  lemma RunToCommit(s: Sys, i: nat, rest: seq<Action>)
    requires i < |s.txs| && s.txs[i].pc.Read? && s.txs[i].event.zone.None? && s.txs[i].pending.None? &&
      Found(s.txs[i]) == []
    requires s.rowLocks == map[] && s.zoneLocks == map[]
    requires ValidRun(AtCommit(s, i), rest)
    ensures var run := [Statement(i), Statement(i), Statement(i), Statement(i)] + rest;
      ValidRun(s, run) && Final(s, run) == Final(AtCommit(s, i), rest)
  {
    hide Detect, ValidRun, Final, RowsOf;
    var a := Statement(i);
    var s1 := Apply(s, a);
    var s2 := Apply(s1, a);
    var s3 := Apply(s2, a);
    var s4 := Apply(s3, a);
    assert s2.rowLocks == map[s.txs[i].event.vehicle := i];
    assert Found(s3.txs[i]) == Found(s.txs[i]);
    assert s4.txs == AtCommit(s, i).txs && s4.rowLocks == map[] && s4.zoneLocks == map[];
    assert s4 == AtCommit(s, i);
    RunStep(s3, a, rest);
    RunStep(s2, a, [a] + rest);
    RunStep(s1, a, [a] + ([a] + rest));
    RunStep(s, a, [a] + ([a] + ([a] + rest)));
    assert [a, a, a, a] + rest == [a] + ([a] + ([a] + ([a] + rest)));
  }

  function AtCommit(s: Sys, i: nat): Sys
    requires i < |s.txs|
  {
    s.(txs := s.txs[i := s.txs[i].(pc := Committed)], db := Written(s.db, s.txs[i]), log := s.log + [i])
  }

  /** Both transactions stand after their prior read, which found nothing. */
  function BothRead(es: seq<Event>): Sys {
    Sys(EMPTY_DB, seq(|es|, i requires 0 <= i < |es| => Tx(es[i], Read, None, 0, None, 0)), map[], map[], [])
  }

  lemma ReadBoth(es: seq<Event>, rest: seq<Action>)
    requires |es| == 2 && ValidRun(BothRead(es), rest)
    ensures ValidRun(Start(EMPTY_DB, es), [Statement(0)] + ([Statement(1)] + rest))
    ensures Final(Start(EMPTY_DB, es), [Statement(0)] + ([Statement(1)] + rest)) == Final(BothRead(es), rest)
  {
    hide ValidRun, Final, Detect;
    var s0 := Start(EMPTY_DB, es);
    var s1 := Apply(s0, Statement(0));
    var s2 := Apply(s1, Statement(1));
    assert s2.txs == BothRead(es).txs;
    RunStep(s1, Statement(1), rest);
    RunStep(s0, Statement(0), [Statement(1)] + rest);
  }

  /** After both reads, running one transaction and then the other stores no anomaly. */
  lemma BothCommit(es: seq<Event>)
    requires es == [Level(50.0), Level(60.0)]
    ensures var run := [Statement(0), Statement(0), Statement(0), Statement(0)]
                       + [Statement(1), Statement(1), Statement(1), Statement(1)];
      && ValidRun(BothRead(es), run)
      && Final(BothRead(es), run) == AtCommit(AtCommit(BothRead(es), 0), 1)
  {
    hide Detect, Written, RowsOf;
    LevelQuiet(50.0);
    LevelQuiet(60.0);
    var s := BothRead(es);
    var last := [Statement(1), Statement(1), Statement(1), Statement(1)];
    assert Found(s.txs[0]) == [] && Found(s.txs[1]) == [];
    RunToCommit(AtCommit(s, 0), 1, []);
    assert last + [] == last;
    RunToCommit(s, 0, last);
  }

  lemma NothingStored(es: seq<Event>)
    requires es == [Level(50.0), Level(60.0)]
    ensures var s := AtCommit(AtCommit(BothRead(es), 0), 1);
      LogOk(s) && Events(s) == es && s.db.anomalies == multiset{}
  {
    hide Detect;
    LevelQuiet(50.0);
    LevelQuiet(60.0);
    var s := BothRead(es);
    assert RowsOf(es[0], Found(s.txs[0])) == [] && RowsOf(es[1], Found(s.txs[1])) == [];
    var end := AtCommit(AtCommit(s, 0), 1);
    assert end.log == [0, 1];
  }

  /**
   * Two overlapping first readings of one vehicle, 50 % then 60 %: both read no
   * prior row, so the rise that one by one would have flagged goes unflagged.
   */
  lemma OverlapLosesAnomaly()
    ensures var es := [Level(50.0), Level(60.0)];
      && ValidRun(Start(EMPTY_DB, es), OVERLAP)
      && var s := Final(Start(EMPTY_DB, es), OVERLAP);
         && LogOk(s) && Events(s) == es
         && s.db.anomalies == multiset{} && SerialAll(EMPTY_DB, es).anomalies != multiset{}
  {
    hide Detect, ValidRun, Final, Start, BothRead, AtCommit, LogOk, SerialAll;
    var es := [Level(50.0), Level(60.0)];
    var first := [Statement(0), Statement(0), Statement(0), Statement(0)];
    var last := [Statement(1), Statement(1), Statement(1), Statement(1)];
    BothCommit(es);
    ReadBoth(es, first + last);
    assert OVERLAP == [Statement(0)] + ([Statement(1)] + (first + last));
    NothingStored(es);
    SerialFlagsRise(es);
  }

  lemma SerialFlagsRise(es: seq<Event>)
    requires es == [Level(50.0), Level(60.0)]
    ensures SerialAll(EMPTY_DB, es).anomalies != multiset{}
  {
    hide Detect;
    assert es[..1] == [Level(50.0)] && [Level(50.0)][..0] == [];
    var first := SerialAll(EMPTY_DB, es[..1]);
    assert first == Serial(EMPTY_DB, Level(50.0));
    var prior := Lookup(first.current, "v");
    var rise := Finding(BatteryRising, Rise(50.0, 60.0));
    DetectedIffFires(Level(60.0), prior, rise);
    var found := Detect(Level(60.0), prior);
    var i :| 0 <= i < |found| && found[i] == rise;
    assert RowsOf(Level(60.0), found)[i] in multiset(RowsOf(Level(60.0), found));
  }
}
