/**
 * Any number of `persist_telemetry` transactions side by side: each is a
 * program counter over its SQL statements, reads committed data, holds its row
 * locks to the end, and commits or aborts at once.
 */
module WritePath {
  import opened Wrappers
  import opened Telemetry

  /** The statement a transaction has completed last. */
  datatype Pc = Begin | Read | Logged | Upserted | Counted | Committed | Aborted

  /**
   * `prior` is what the unlocked read returned, after `readAt` commits;
   * `pending` is the uncommitted counter value, if a zone row matched;
   * `written` counts the anomaly rows inserted so far.
   */
  datatype Tx = Tx(event: Event, pc: Pc, prior: Option<Reading>, readAt: nat, pending: Option<int>, written: nat)

  /** Committed tables, transactions, row locks by key, and ids in commit order. */
  datatype Sys = Sys(db: Db, txs: seq<Tx>, rowLocks: map<string, nat>, zoneLocks: map<string, nat>, log: seq<nat>)

  function Start(db: Db, es: seq<Event>): Sys {
    Sys(db, seq(|es|, i requires 0 <= i < |es| => Tx(es[i], Begin, None, 0, None, 0)), map[], map[], [])
  }

  predicate Active(t: Tx) {
    !t.pc.Committed? && !t.pc.Aborted?
  }

  function Found(t: Tx): seq<Finding> {
    Detect(t.event, t.prior)
  }

  /** The increment matches a row. */
  predicate Counts(s: Sys, t: Tx) {
    t.event.zone.Some? && t.event.zone.value in s.db.zones
  }

  /** The transaction holding the lock that `i`'s next statement waits for. */
  function WaitsFor(s: Sys, i: nat): Option<nat>
    requires i < |s.txs|
  {
    var t := s.txs[i];
    if t.pc.Logged? then Lookup(s.rowLocks, t.event.vehicle)
    else if t.pc.Upserted? && Counts(s, t) then Lookup(s.zoneLocks, t.event.zone.value)
    else None
  }

  /** The committed tables once `t`'s writes join them. */
  function Written(db: Db, t: Tx): Db {
    Db(db.raw + multiset{RawOf(t.event)},
       db.current[t.event.vehicle := ReadingOf(t.event)],
       if t.pending.Some? && t.event.zone.Some? then db.zones[t.event.zone.value := t.pending.value] else db.zones,
       db.anomalies + multiset(RowsOf(t.event, Found(t))))
  }

  function Release(locks: map<string, nat>, i: nat): map<string, nat> {
    locks - (set k | k in locks && locks[k] == i)
  }

  /** Ends transaction `i`, dropping its locks. */
  function End(s: Sys, i: nat, t: Tx): Sys
    requires i < |s.txs|
  {
    s.(txs := s.txs[i := t], rowLocks := Release(s.rowLocks, i), zoneLocks := Release(s.zoneLocks, i))
  }

  function Commit(s: Sys, i: nat): Sys
    requires i < |s.txs|
  {
    End(s, i, s.txs[i].(pc := Committed)).(db := Written(s.db, s.txs[i]), log := s.log + [i])
  }

  function Abort(s: Sys, i: nat): Sys
    requires i < |s.txs|
  {
    End(s, i, s.txs[i].(pc := Aborted))
  }

  /** The next statement of transaction `i`, which must not be waiting. */
  function Advance(s: Sys, i: nat): Sys
    requires i < |s.txs| && Active(s.txs[i]) && WaitsFor(s, i).None?
  {
    var t := s.txs[i];
    match t.pc
    case Begin =>
      s.(txs := s.txs[i := t.(pc := Read, prior := Lookup(s.db.current, t.event.vehicle), readAt := |s.log|)])
    case Read => s.(txs := s.txs[i := t.(pc := Logged)])
    case Logged => s.(txs := s.txs[i := t.(pc := Upserted)], rowLocks := s.rowLocks[t.event.vehicle := i])
    case Upserted =>
      if !Counts(s, t) then s.(txs := s.txs[i := t.(pc := Counted)])
      else
        var z := t.event.zone.value;
        if s.db.zones[z] >= MAX_COUNT then Abort(s, i)
        else s.(txs := s.txs[i := t.(pc := Counted, pending := Some(s.db.zones[z] + 1))],
          zoneLocks := s.zoneLocks[z := i])
    case Counted =>
      if t.written < |Found(t)| then s.(txs := s.txs[i := t.(written := t.written + 1)]) else Commit(s, i)
  }

  /** One statement of a transaction, or its failure at any point. */
  datatype Action = Statement(id: nat) | Fails(id: nat)

  predicate Enabled(s: Sys, a: Action) {
    a.id < |s.txs| && Active(s.txs[a.id]) && (a.Statement? ==> WaitsFor(s, a.id).None?)
  }

  function Apply(s: Sys, a: Action): Sys
    requires Enabled(s, a)
  {
    if a.Statement? then Advance(s, a.id) else Abort(s, a.id)
  }

  ghost predicate ValidRun(s: Sys, actions: seq<Action>)
    decreases |actions|
  {
    actions == [] || (Enabled(s, actions[0]) && ValidRun(Apply(s, actions[0]), actions[1..]))
  }

  ghost function Final(s: Sys, actions: seq<Action>): Sys
    requires ValidRun(s, actions)
    decreases |actions|
  {
    if actions == [] then s else Final(Apply(s, actions[0]), actions[1..])
  }

  // ---- Invariant ---------------------------------------------------------------------------

  predicate HoldsRow(t: Tx) {
    t.pc.Upserted? || t.pc.Counted?
  }

  predicate HoldsZone(t: Tx) {
    t.pc.Counted? && t.pending.Some?
  }

  ghost predicate RowLocksOk(s: Sys) {
    && (forall v :: v in s.rowLocks ==>
          s.rowLocks[v] < |s.txs| && HoldsRow(s.txs[s.rowLocks[v]]) && s.txs[s.rowLocks[v]].event.vehicle == v)
    && (forall i :: 0 <= i < |s.txs| && HoldsRow(s.txs[i]) ==>
          s.txs[i].event.vehicle in s.rowLocks && s.rowLocks[s.txs[i].event.vehicle] == i)
  }

  /** Lock holders of zone rows, and what each would commit: one more than committed. */
  ghost predicate ZoneLocksOk(s: Sys) {
    && (forall z :: z in s.zoneLocks ==>
          s.zoneLocks[z] < |s.txs| && HoldsZone(s.txs[s.zoneLocks[z]]) && s.txs[s.zoneLocks[z]].event.zone == Some(z))
    && (forall i :: 0 <= i < |s.txs| && HoldsZone(s.txs[i]) ==>
          && Counts(s, s.txs[i])
          && var z := s.txs[i].event.zone.value;
             z in s.zoneLocks && s.zoneLocks[z] == i && s.txs[i].pending == Some(s.db.zones[z] + 1))
    && (forall i :: 0 <= i < |s.txs| && s.txs[i].pc.Counted? && s.txs[i].pending.None? ==> !Counts(s, s.txs[i]))
    && (forall i :: 0 <= i < |s.txs| && Active(s.txs[i]) && !s.txs[i].pc.Counted? ==> s.txs[i].pending.None?)
  }

  ghost predicate LogOk(s: Sys) {
    && (forall j :: 0 <= j < |s.log| ==> s.log[j] < |s.txs| && s.txs[s.log[j]].pc.Committed?)
    && (forall j, k :: 0 <= j < k < |s.log| ==> s.log[j] != s.log[k])
    && (forall i :: 0 <= i < |s.txs| && s.txs[i].pc.Committed? ==> i in s.log)
  }

  /** The committed readings, in commit order. */
  function Events(s: Sys): seq<Event>
    requires forall j :: 0 <= j < |s.log| ==> s.log[j] < |s.txs|
  {
    seq(|s.log|, j requires 0 <= j < |s.log| => s.txs[s.log[j]].event)
  }

  /** Everything but the anomalies. */
  predicate SameBut(a: Db, b: Db) {
    a.raw == b.raw && a.current == b.current && a.zones == b.zones
  }

  ghost predicate Refines(s: Sys, db: Db)
    requires LogOk(s)
  {
    SameBut(s.db, SerialAll(db, Events(s)))
  }

  ghost predicate Inv(s: Sys, db: Db) {
    RowLocksOk(s) && ZoneLocksOk(s) && LogOk(s) && Refines(s, db)
  }
}
