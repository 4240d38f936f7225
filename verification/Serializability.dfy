/**
 * What every interleaving of telemetry transactions leaves behind, compared
 * with running the committed ones one by one in commit order.
 */
module Serializability {
  import opened Wrappers
  import opened Telemetry
  import opened WritePath

  // ---- Locks over one step -----------------------------------------------------------------

  lemma RowsAfterEnd(s: Sys, i: nat, t: Tx)
    requires RowLocksOk(s) && i < |s.txs| && !HoldsRow(t)
    ensures RowLocksOk(End(s, i, t))
  {
    var s1 := End(s, i, t);
    forall j | 0 <= j < |s1.txs| && HoldsRow(s1.txs[j])
      ensures s1.txs[j].event.vehicle in s1.rowLocks && s1.rowLocks[s1.txs[j].event.vehicle] == j
    {
      assert s1.txs[j] == s.txs[j];
    }
  }

  /** A step of one transaction that neither takes nor drops a row lock. */
  lemma RowsAfterUpdate(s: Sys, i: nat, t: Tx, zoneLocks: map<string, nat>)
    requires RowLocksOk(s) && i < |s.txs| && t.event == s.txs[i].event && HoldsRow(t) == HoldsRow(s.txs[i])
    ensures RowLocksOk(s.(txs := s.txs[i := t], zoneLocks := zoneLocks))
  {
    var s1 := s.(txs := s.txs[i := t], zoneLocks := zoneLocks);
    assert forall j :: 0 <= j < |s.txs| ==>
      s1.txs[j].event == s.txs[j].event && HoldsRow(s1.txs[j]) == HoldsRow(s.txs[j]);
  }

  lemma RowsAfterLock(s: Sys, i: nat)
    requires RowLocksOk(s) && i < |s.txs| && s.txs[i].pc.Logged? && s.txs[i].event.vehicle !in s.rowLocks
    ensures RowLocksOk(s.(txs := s.txs[i := s.txs[i].(pc := Upserted)],
      rowLocks := s.rowLocks[s.txs[i].event.vehicle := i]))
  {
  }

  lemma StepRows(s: Sys, a: Action)
    requires RowLocksOk(s) && Enabled(s, a)
    ensures RowLocksOk(Apply(s, a))
  {
    hide Found, Written, Release, RowLocksOk, HoldsRow, Detect;
    var i := a.id;
    var t := s.txs[i];
    assert HoldsRow(t) == (t.pc.Upserted? || t.pc.Counted?) by {
      RowHolder(t);
    }
    RowHolder(t.(pc := Aborted));
    RowHolder(t.(pc := Committed));
    RowsAfterEnd(s, i, t.(pc := Aborted));
    RowsAfterEnd(s, i, t.(pc := Committed));
    RowsUnaffected(End(s, i, t.(pc := Committed)), Written(s.db, t), s.log + [i]);
    if t.pc.Logged? && a.Statement? {
      RowsAfterLock(s, i);
    } else {
      var s1 := Apply(s, a);
      RowHolder(s1.txs[i]);
      if s1.rowLocks == s.rowLocks && HoldsRow(s1.txs[i]) == HoldsRow(t) {
        RowsAfterUpdate(s, i, s1.txs[i], s1.zoneLocks);
      }
    }
  }

  lemma RowHolder(t: Tx)
    ensures HoldsRow(t) <==> t.pc.Upserted? || t.pc.Counted?
  {
  }

  lemma RowsUnaffected(s: Sys, db: Db, log: seq<nat>)
    requires RowLocksOk(s)
    ensures RowLocksOk(s.(db := db, log := log))
  {
  }

  lemma ZonesAfterEnd(s: Sys, i: nat, t: Tx)
    requires ZoneLocksOk(s) && i < |s.txs| && !Active(t)
    ensures ZoneLocksOk(End(s, i, t))
  {
  }

  /** Only the lock holder's zone changes at commit, so other pending values stay right. */
  lemma {:induction false} ZonesAfterCommit(s: Sys, i: nat)
    requires ZoneLocksOk(s) && i < |s.txs| && s.txs[i].pc.Counted?
    ensures ZoneLocksOk(Commit(s, i))
  {
    hide Found, RowsOf;
    ZonesAfterEnd(s, i, s.txs[i].(pc := Committed));
    var t, s1 := s.txs[i], Commit(s, i);
    assert s1.db.zones.Keys == s.db.zones.Keys;
    forall j | 0 <= j < |s1.txs| && HoldsZone(s1.txs[j])
      ensures Counts(s1, s1.txs[j]) && s1.txs[j].pending == Some(s1.db.zones[s1.txs[j].event.zone.value] + 1)
    {
      assert j != i && s1.txs[j] == s.txs[j];
    }
  }

  lemma StepZones(s: Sys, a: Action)
    requires ZoneLocksOk(s) && Enabled(s, a)
    ensures ZoneLocksOk(Apply(s, a))
  {
    hide Found, Release, Commit, Abort, ZoneLocksOk;
    var i := a.id;
    var t := s.txs[i];
    ZoneFacts(s, i);
    if a.Fails? {
      AbortZones(s, i);
    } else if t.pc.Counted? {
      if t.written >= |Found(t)| {
        ZonesAfterCommit(s, i);
      } else {
        UpdateZones(s, i, t.(written := t.written + 1), s.rowLocks);
      }
    } else if t.pc.Upserted? && Counts(s, t) {
      AbortZones(s, i);
      AcquireZones(s, i);
    } else {
      UpdateZones(s, i, Advance(s, i).txs[i], Advance(s, i).rowLocks);
    }
  }

  lemma ZoneFacts(s: Sys, i: nat)
    requires ZoneLocksOk(s) && i < |s.txs|
    ensures Active(s.txs[i]) && !s.txs[i].pc.Counted? ==> s.txs[i].pending.None?
    ensures s.txs[i].pc.Counted? && s.txs[i].pending.None? ==> !Counts(s, s.txs[i])
  {
  }

  lemma AbortZones(s: Sys, i: nat)
    requires ZoneLocksOk(s) && i < |s.txs|
    ensures ZoneLocksOk(Abort(s, i))
  {
    ZonesAfterEnd(s, i, s.txs[i].(pc := Aborted));
  }

  /** A step of one transaction that neither takes nor drops a zone lock. */
  lemma {:induction false} UpdateZones(s: Sys, i: nat, t: Tx, rowLocks: map<string, nat>)
    requires ZoneLocksOk(s) && i < |s.txs| && Active(t) && t.event == s.txs[i].event
    requires t.pending == s.txs[i].pending && HoldsZone(t) == HoldsZone(s.txs[i])
    requires t.pending.None? && t.pc.Counted? ==> !Counts(s, t)
    requires t.pending.Some? ==> t.pc.Counted?
    ensures ZoneLocksOk(s.(txs := s.txs[i := t], rowLocks := rowLocks))
  {
    var s1 := s.(txs := s.txs[i := t], rowLocks := rowLocks);
    assert forall j :: 0 <= j < |s.txs| ==>
      s1.txs[j].event == s.txs[j].event && HoldsZone(s1.txs[j]) == HoldsZone(s.txs[j]) &&
        s1.txs[j].pending == s.txs[j].pending;
  }

  lemma AcquireZones(s: Sys, i: nat)
    requires ZoneLocksOk(s) && i < |s.txs| && s.txs[i].pc.Upserted? && Counts(s, s.txs[i])
    requires s.txs[i].event.zone.value !in s.zoneLocks
    ensures var z := s.txs[i].event.zone.value;
      ZoneLocksOk(s.(txs := s.txs[i := s.txs[i].(pc := Counted, pending := Some(s.db.zones[z] + 1))],
        zoneLocks := s.zoneLocks[z := i]))
  {
  }

  // ---- The log and the committed tables over one step ---------------------------------------------

  lemma LogAfterUpdate(s: Sys, i: nat, s1: Sys)
    requires LogOk(s) && i < |s.txs| && Active(s.txs[i]) && s1.log == s.log
    requires |s1.txs| == |s.txs| && s1.txs[i].event == s.txs[i].event && !s1.txs[i].pc.Committed?
    requires forall j :: 0 <= j < |s.txs| && j != i ==> s1.txs[j] == s.txs[j]
    ensures LogOk(s1) && Events(s1) == Events(s)
  {
    assert forall j :: 0 <= j < |s.log| ==> s.log[j] != i;
  }

  lemma LogAfterCommit(s: Sys, i: nat)
    requires LogOk(s) && i < |s.txs| && Active(s.txs[i])
    ensures var s1 := Commit(s, i); LogOk(s1) && Events(s1) == Events(s) + [s.txs[i].event]
  {
    hide Found, Release, Written;
    var s1 := Commit(s, i);
    assert s1.txs == s.txs[i := s.txs[i].(pc := Committed)] && s1.log == s.log + [i];
    assert forall j :: 0 <= j < |s.log| ==> s.log[j] != i && s1.log[j] == s.log[j];
    assert s1.log[|s.log|] == i;
    forall j | 0 <= j < |s1.txs| && s1.txs[j].pc.Committed? ensures j in s1.log {
      if j != i {
        assert j in s.log;
      }
    }
  }

  lemma LogAfter(s: Sys, a: Action)
    requires LogOk(s) && Enabled(s, a)
    ensures LogOk(Apply(s, a))
    ensures var s1 := Apply(s, a);
      if s1.log == s.log then s1.db == s.db && Events(s1) == Events(s)
      else s1 == Commit(s, a.id) && s.txs[a.id].pc.Counted? && Events(s1) == Events(s) + [s.txs[a.id].event]
  {
    hide Found, Release, Written, LogOk, Events;
    var s1 := Apply(s, a);
    if s1.log == s.log {
      LogAfterUpdate(s, a.id, s1);
    } else {
      LogAfterCommit(s, a.id);
    }
  }

  /** Committing a transaction that holds its locks is one serial step. */
  lemma CommitRefines(s: Sys, db: Db, i: nat)
    requires Inv(s, db) && i < |s.txs| && s.txs[i].pc.Counted?
    ensures SameBut(Written(s.db, s.txs[i]), Serial(SerialAll(db, Events(s)), s.txs[i].event))
  {
    hide SerialAll, Events, Found, Detect, RowsOf, LogOk, RowLocksOk;
  }

  lemma StepKeeps(s: Sys, db: Db, a: Action)
    requires Inv(s, db) && Enabled(s, a)
    ensures Inv(Apply(s, a), db)
  {
    hide RowLocksOk, ZoneLocksOk, Apply, Serial, Written, WaitsFor;
    StepRows(s, a);
    StepZones(s, a);
    LogAfter(s, a);
    var s1 := Apply(s, a);
    if s1.log != s.log {
      CommitRefines(s, db, a.id);
      assert Events(s1)[..|Events(s)|] == Events(s);
    }
  }

  lemma {:induction false} RunKeeps(s: Sys, db: Db, actions: seq<Action>)
    requires Inv(s, db) && ValidRun(s, actions)
    ensures Inv(Final(s, actions), db)
    decreases |actions|
  {
    hide Inv, Enabled, Apply;
    if actions != [] {
      StepKeeps(s, db, actions[0]);
      RunKeeps(Apply(s, actions[0]), db, actions[1..]);
    }
  }

  /**
   * Any interleaving: raw log, current state and zone counts are those of the
   * committed readings run one by one in commit order; each committed
   * transaction is there once and an aborted one has left nothing.
   */
  lemma TablesRefineSerial(db: Db, es: seq<Event>, actions: seq<Action>)
    requires ValidRun(Start(db, es), actions)
    ensures var s := Final(Start(db, es), actions);
      LogOk(s) && SameBut(s.db, SerialAll(db, Events(s)))
  {
    RunKeeps(Start(db, es), db, actions);
  }

  // ---- Anomalies: against which prior reading they were judged ---------------------------------------

  /** The committed transactions, in commit order. */
  function Done(s: Sys): seq<Tx>
    requires LogOk(s)
  {
    seq(|s.log|, j requires 0 <= j < |s.log| => s.txs[s.log[j]])
  }

  function RowsOfAll(ts: seq<Tx>): multiset<AnomalyRow> {
    if ts == [] then multiset{} else
    RowsOfAll(ts[..|ts| - 1]) + multiset(RowsOf(ts[|ts| - 1].event, Found(ts[|ts| - 1])))
  }

  predicate HasRead(t: Tx) {
    !t.pc.Begin? && !t.pc.Aborted?
  }

  /** What a vehicle's row held after the first `k` commits. */
  function RowAfter(db: Db, es: seq<Event>, k: nat, vehicle: string): Option<Reading>
    requires k <= |es|
  {
    Lookup(SerialAll(db, es[..k]).current, vehicle)
  }

  /** `t` read its vehicle's row as of some commit. */
  predicate PriorOk(t: Tx, db: Db, es: seq<Event>) {
    HasRead(t) ==> t.readAt <= |es| && t.prior == RowAfter(db, es, t.readAt, t.event.vehicle)
  }

  ghost predicate PriorsOk(s: Sys, db: Db)
    requires LogOk(s)
  {
    && (forall i :: 0 <= i < |s.txs| ==> PriorOk(s.txs[i], db, Events(s)))
    && (forall j :: 0 <= j < |s.log| ==> s.txs[s.log[j]].readAt <= j)
    && s.db.anomalies == db.anomalies + RowsOfAll(Done(s))
  }

  lemma DoneAfter(s: Sys, a: Action)
    requires LogOk(s) && Enabled(s, a)
    ensures var s1 := Apply(s, a);
      LogOk(s1) && Done(s1) == if s1.log == s.log then Done(s) else Done(s) + [s.txs[a.id].(pc := Committed)]
  {
    hide Found, Release, Written, Events, WaitsFor;
    LogAfter(s, a);
    var s1 := Apply(s, a);
    assert |s1.txs| == |s.txs| && forall j :: 0 <= j < |s.txs| && j != a.id ==> s1.txs[j] == s.txs[j];
    assert forall j :: 0 <= j < |s.log| ==> s.log[j] != a.id && s1.log[j] == s.log[j];
  }

  lemma PriorGrows(t: Tx, db: Db, es: seq<Event>, more: seq<Event>)
    requires PriorOk(t, db, es)
    ensures PriorOk(t, db, es + more)
  {
    if HasRead(t) {
      assert (es + more)[..t.readAt] == es[..t.readAt];
    }
  }

  /** The read sees exactly the commits so far. */
  lemma PriorRead(s: Sys, db: Db, i: nat)
    requires LogOk(s) && Refines(s, db) && i < |s.txs| && s.txs[i].pc.Begin?
    ensures PriorOk(Advance(s, i).txs[i], db, Events(s))
  {
    hide SerialAll;
    assert Events(s)[..|s.log|] == Events(s);
  }

  lemma StepPriors(s: Sys, db: Db, a: Action)
    requires Inv(s, db) && PriorsOk(s, db) && Enabled(s, a)
    ensures Inv(Apply(s, a), db) && PriorsOk(Apply(s, a), db)
  {
    hide RowLocksOk, ZoneLocksOk, Refines, RowsOf, Release, WaitsFor, RowsOfAll, Found, Written, RowAfter;
    StepKeeps(s, db, a);
    LogAfter(s, a);
    StepAnomalies(s, db, a);
    var s1 := Apply(s, a);
    assert |s1.txs| == |s.txs| && forall j :: 0 <= j < |s.txs| && j != a.id ==> s1.txs[j] == s.txs[j];
    var more := if s1.log == s.log then [] else [s.txs[a.id].event];
    assert Events(s1) == Events(s) + more;
    forall j | 0 <= j < |s1.txs| ensures PriorOk(s1.txs[j], db, Events(s1)) {
      PriorGrows(s.txs[j], db, Events(s), more);
      if j == a.id && s.txs[j].pc.Begin? && a.Statement? {
        PriorRead(s, db, j);
      }
    }
  }

  lemma StepAnomalies(s: Sys, db: Db, a: Action)
    requires LogOk(s) && Enabled(s, a) && s.db.anomalies == db.anomalies + RowsOfAll(Done(s))
    ensures LogOk(Apply(s, a)) && Apply(s, a).db.anomalies == db.anomalies + RowsOfAll(Done(Apply(s, a)))
  {
    hide RowsOf, Release, WaitsFor, RowsOfAll, Detect, Advance, Events, LogOk, Done;
    LogAfter(s, a);
    DoneAfter(s, a);
    if Apply(s, a).log != s.log {
      RowsOfAllNext(Done(s), s.txs[a.id].(pc := Committed));
    }
  }

  lemma StartOk(db: Db, es: seq<Event>)
    ensures Inv(Start(db, es), db) && PriorsOk(Start(db, es), db) && FreshSoFar(Start(db, es))
  {
    assert Events(Start(db, es)) == [] && Done(Start(db, es)) == [];
  }

  lemma RowsOfAllNext(ts: seq<Tx>, t: Tx)
    ensures RowsOfAll(ts + [t]) == RowsOfAll(ts) + multiset(RowsOf(t.event, Found(t)))
  {
    assert (ts + [t])[..|ts|] == ts;
  }

  lemma {:induction false} RunPriors(s: Sys, db: Db, actions: seq<Action>)
    requires Inv(s, db) && PriorsOk(s, db) && ValidRun(s, actions)
    ensures Inv(Final(s, actions), db) && PriorsOk(Final(s, actions), db)
    decreases |actions|
  {
    hide Inv, Enabled, Apply, PriorsOk;
    if actions != [] {
      StepPriors(s, db, actions[0]);
      RunPriors(Apply(s, actions[0]), db, actions[1..]);
    }
  }

  /**
   * Always: the anomaly rows are those of the committed transactions, each
   * judged against its vehicle's row as of some earlier commit, possibly stale.
   */
  lemma AnomaliesFromEarlierRows(db: Db, es: seq<Event>, actions: seq<Action>)
    requires ValidRun(Start(db, es), actions)
    ensures var s := Final(Start(db, es), actions);
      && LogOk(s) && s.db.anomalies == db.anomalies + RowsOfAll(Done(s))
      && forall j :: 0 <= j < |s.log| ==>
           && Done(s)[j].readAt <= j
           && Done(s)[j].prior == RowAfter(db, Events(s), Done(s)[j].readAt, Events(s)[j].vehicle)
  {
    hide SerialAll, RowAfter, RowLocksOk, ZoneLocksOk, Refines, FreshSoFar;
    StartOk(db, es);
    RunPriors(Start(db, es), db, actions);
  }

  /** No other reading of the vehicle was committed between a transaction's read and its commit. */
  ghost predicate Undisturbed(s: Sys)
    requires LogOk(s)
  {
    forall j, k :: 0 <= j < |s.log| && Done(s)[j].readAt <= k < j ==> Events(s)[k].vehicle != Events(s)[j].vehicle
  }

  lemma {:induction false} RowKept(db: Db, es: seq<Event>, lo: nat, hi: nat, vehicle: string)
    requires lo <= hi <= |es| && forall k :: lo <= k < hi ==> es[k].vehicle != vehicle
    ensures RowAfter(db, es, hi, vehicle) == RowAfter(db, es, lo, vehicle)
    decreases hi
  {
    hide Detect, RowsOf;
    if lo < hi {
      RowKept(db, es, lo, hi - 1, vehicle);
      assert es[..hi][..hi - 1] == es[..hi - 1];
    }
  }

  lemma {:induction false} FreshRowsAreSerial(db: Db, ts: seq<Tx>, es: seq<Event>)
    requires |ts| == |es|
    requires forall j :: 0 <= j < |ts| ==> ts[j].event == es[j] && ts[j].prior == RowAfter(db, es, j, es[j].vehicle)
    ensures SerialAll(db, es).anomalies == db.anomalies + RowsOfAll(ts)
    decreases |ts|
  {
    hide RowsOf, Detect;
    if ts != [] {
      var n := |ts| - 1;
      forall j | 0 <= j < n
        ensures ts[..n][j].event == es[..n][j] && ts[..n][j].prior == RowAfter(db, es[..n], j, es[..n][j].vehicle)
      {
        assert es[..n][..j] == es[..j];
      }
      FreshRowsAreSerial(db, ts[..n], es[..n]);
      assert ts[n].prior == Lookup(SerialAll(db, es[..n]).current, es[n].vehicle);
      assert Found(ts[n]) == Detect(es[n], ts[n].prior);
    }
  }

  lemma UndisturbedIsSerial(s: Sys, db: Db)
    requires Inv(s, db) && PriorsOk(s, db) && Undisturbed(s)
    ensures s.db == SerialAll(db, Events(s))
  {
    hide SerialAll, RowLocksOk, ZoneLocksOk, RowAfter, RowsOfAll;
    forall j | 0 <= j < |s.log| ensures Done(s)[j].prior == RowAfter(db, Events(s), j, Events(s)[j].vehicle) {
      RowKept(db, Events(s), Done(s)[j].readAt, j, Events(s)[j].vehicle);
    }
    FreshRowsAreSerial(db, Done(s), Events(s));
  }

  // ---- Without overlap the run is serial altogether ------------------------------------------------

  predicate InFlight(t: Tx) {
    HasRead(t) && Active(t)
  }

  /** No two transactions of one vehicle are between their read and their end. */
  ghost predicate NoOverlap(s: Sys) {
    forall i, j :: 0 <= i < j < |s.txs| && InFlight(s.txs[i]) && InFlight(s.txs[j])
      ==> s.txs[i].event.vehicle != s.txs[j].event.vehicle
  }

  ghost predicate NeverOverlaps(s: Sys, actions: seq<Action>)
    requires ValidRun(s, actions)
    decreases |actions|
  {
    NoOverlap(s) && (actions != [] ==> NeverOverlaps(Apply(s, actions[0]), actions[1..]))
  }

  ghost predicate FreshSoFar(s: Sys)
    requires LogOk(s)
  {
    && Undisturbed(s)
    && forall i, k :: 0 <= i < |s.txs| && InFlight(s.txs[i]) && s.txs[i].readAt <= k < |s.log|
         ==> Events(s)[k].vehicle != s.txs[i].event.vehicle
  }

  /** What a step leaves of the other transactions and, at a commit, adds to the history. */
  lemma StepFacts(s: Sys, a: Action)
    requires LogOk(s) && Enabled(s, a)
    ensures var s1 := Apply(s, a);
      && LogOk(s1) && a.id < |s.txs| == |s1.txs|
      && (forall j :: 0 <= j < |s.txs| && j != a.id ==> s1.txs[j] == s.txs[j])
      && s1.txs[a.id].event == s.txs[a.id].event
      && (InFlight(s1.txs[a.id]) ==>
            && s1.log == s.log
            && (s1.txs[a.id].readAt == |s.log|
                || (InFlight(s.txs[a.id]) && s1.txs[a.id].readAt == s.txs[a.id].readAt)))
      && (if s1.log == s.log then Done(s1) == Done(s) && Events(s1) == Events(s)
          else Done(s1) == Done(s) + [s.txs[a.id].(pc := Committed)] && Events(s1) == Events(s) + [s.txs[a.id].event]
               && InFlight(s.txs[a.id]))
  {
    hide WaitsFor, Found, Release, Written, Done, Events, LogOk;
    LogAfter(s, a);
    DoneAfter(s, a);
  }

  lemma StepFresh(s: Sys, a: Action)
    requires LogOk(s) && NoOverlap(s) && FreshSoFar(s) && Enabled(s, a)
    ensures LogOk(Apply(s, a)) && FreshSoFar(Apply(s, a))
  {
    hide Apply, Enabled, LogOk, Done, Events, InFlight;
    var s1 := Apply(s, a);
    StepFacts(s, a);
    LogLengths(s);
    LogLengths(s1);
    forall j, k | 0 <= j < |s1.log| && Done(s1)[j].readAt <= k < j
      ensures Events(s1)[k].vehicle != Events(s1)[j].vehicle
    {
      if j < |s.log| {
        assert Done(s1)[j] == Done(s)[j] && Events(s1)[k] == Events(s)[k] && Events(s1)[j] == Events(s)[j];
      } else {
        assert Events(s1)[k] == Events(s)[k] && InFlight(s.txs[a.id]);
      }
    }
    forall i, k | 0 <= i < |s1.txs| && InFlight(s1.txs[i]) && s1.txs[i].readAt <= k < |s1.log|
      ensures Events(s1)[k].vehicle != s1.txs[i].event.vehicle
    {
      if k < |s.log| {
        assert Events(s1)[k] == Events(s)[k];
      }
    }
  }

  lemma LogLengths(s: Sys)
    requires LogOk(s)
    ensures forall j :: 0 <= j < |s.log| ==> s.log[j] < |s.txs|
    ensures |Done(s)| == |Events(s)| == |s.log|
  {
  }

  lemma {:induction false} RunFresh(s: Sys, actions: seq<Action>)
    requires LogOk(s) && FreshSoFar(s) && ValidRun(s, actions) && NeverOverlaps(s, actions)
    ensures LogOk(Final(s, actions)) && FreshSoFar(Final(s, actions))
    decreases |actions|
  {
    hide LogOk, Enabled, Apply, FreshSoFar, NoOverlap;
    if actions != [] {
      StepFresh(s, actions[0]);
      RunFresh(Apply(s, actions[0]), actions[1..]);
    }
  }

  /**
   * If transactions of one vehicle never overlap between prior-read and end,
   * every table, the anomalies included, is that of the serial run.
   */
  lemma NoOverlapIsSerial(db: Db, es: seq<Event>, actions: seq<Action>)
    requires ValidRun(Start(db, es), actions) && NeverOverlaps(Start(db, es), actions)
    ensures var s := Final(Start(db, es), actions); LogOk(s) && s.db == SerialAll(db, Events(s))
  {
    hide SerialAll, RowAfter, Apply, Enabled, NoOverlap, Inv, PriorsOk, LogOk, Undisturbed;
    StartOk(db, es);
    RunPriors(Start(db, es), db, actions);
    RunFresh(Start(db, es), actions);
    UndisturbedIsSerial(Final(Start(db, es), actions), db);
  }
}
