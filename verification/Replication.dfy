/**
 * The replication protocol as a state machine: a server with a slot, one
 * consumer at a time (the functions of Consumer.dfy, fed the encoded bytes),
 * reports in flight, publish failures, crashes and restarts in any order.
 *
 * Assumptions about the server, as enabling conditions of its actions:
 * transactions are sent whole and in commit order; a position sent before a
 * transaction's Commit is at most its commit start, and the Commit carries its
 * end; a new session sends the transactions starting at or after the confirmed
 * position; position 0 in a report is ignored; a relation is announced in the
 * session before its first change. A report may set the confirmed position
 * outright, even backwards, or be ignored when it is older.
 */
module Replication {
  import opened Wrappers
  import opened Bytes
  import opened PgOutput
  import opened RoundTrip
  import opened Consumer
  import opened Framing
  import opened LastWrite

  // ---- Committed transactions ----------------------------------------------------

  datatype ChangeRecord = Change(table: Table, op: Message)

  ghost predicate ChangeOk(c: ChangeRecord) {
    TableOk(c.table) && !c.op.Relation? && MessageOk(map[c.table.oid := c.table], c.op)
  }

  type Change = c: ChangeRecord | ChangeOk(c)
    ghost witness Change(Table(0, [], [], 0, []), Other(0x44, []))

  /** One row change's event, if its table is watched. */
  ghost function ChangeEvents(c: Change): seq<Event> {
    Opt(EventOf(map[c.table.oid := c.table], c.op))
  }

  ghost function EventsOfChanges(cs: seq<Change>): seq<Event> {
    if cs == [] then [] else EventsOfChanges(cs[..|cs| - 1]) + ChangeEvents(cs[|cs| - 1])
  }

  datatype Txn = Txn(start: nat, end: nat, changes: seq<Change>)

  ghost function TxnEvents(t: Txn): seq<Event> {
    EventsOfChanges(t.changes)
  }

  /** The committed event stream: every transaction once, in commit order. */
  ghost function Stream(wal: seq<Txn>): seq<Event> {
    if wal == [] then [] else Stream(wal[..|wal| - 1]) + TxnEvents(wal[|wal| - 1])
  }

  // ---- State -----------------------------------------------------------------------

  datatype Session = Session(consumer: Option<State>, leaving: bool, announced: Catalog, acks: seq<int>)

  /**
   * `wal` holds the transactions committed since the slot was created. The
   * latest session has sent everything before transaction `next`, and of that
   * transaction its Begin (if `begun`) and `sent` changes. `segments` records
   * which stretch of the committed stream each session published.
   */
  datatype World = World(
    wal: seq<Txn>, written: nat, confirmed: int,
    session: Option<Session>, next: nat, begun: bool, sent: nat,
    published: seq<Event>, segments: seq<Segment>)

  ghost predicate Init(w: World) {
    && w.wal == [] && w.confirmed == w.written && Position(w.written) && w.session.None?
    && w.next == 0 && !w.begun && w.sent == 0 && w.published == [] && w.segments == []
  }

  datatype Action =
    | CommitTxn(txn: Txn)
    | WriteWal(upto: nat)
    | Connect(clock: real)
    | SendBegin(lsn: nat, body: bytes, turn: Turn)
    | SendRelation(lsn: nat, table: Table, turn: Turn)
    | SendChange(lsn: nat, turn: Turn)
    | SendCommit(body: bytes, turn: Turn)
    | SkipEmpty
    | SendKeepalive(lsn: nat, reply: bool, turn: Turn)
    | Report(now: real, force: bool, io: Io)
    | ServerAck(ignoreOlder: bool)
    | Leave
    | Crash
    | Close

  /** Number of leading transactions the confirmed position lets the server skip. */
  ghost function Skipped(wal: seq<Txn>, lsn: int): (n: nat)
    ensures n <= |wal|
    ensures n < |wal| ==> lsn <= wal[n].start
    ensures forall i :: 0 <= i < n ==> wal[i].start < lsn
  {
    if wal == [] then 0
    else
      var n := Skipped(wal[..|wal| - 1], lsn);
      if n == |wal| - 1 && wal[n].start < lsn then |wal| else n
  }

  ghost predicate Receiving(w: World) {
    w.session.Some? && w.session.value.consumer.Some? && !w.session.value.leaving
  }

  /** Upper bound on the positions sent before the next Commit. */
  ghost predicate SendableBefore(w: World, lsn: nat) {
    lsn <= w.written && (w.next < |w.wal| ==> lsn <= w.wal[w.next].start)
  }

  ghost predicate InTxn(w: World, lsn: nat) {
    Receiving(w) && w.next < |w.wal| && SendableBefore(w, lsn)
  }

  ghost predicate Enabled(w: World, a: Action) {
    match a
    case CommitTxn(t) => w.written <= t.start < t.end && Position(t.end)
    case WriteWal(upto) => w.written <= upto && Position(upto)
    case Connect(_) => w.session.None?
    case SendBegin(lsn, _, _) => InTxn(w, lsn) && !w.begun
    case SendRelation(lsn, table, _) => Receiving(w) && SendableBefore(w, lsn) && TableOk(table)
    case SendChange(lsn, _) =>
      && InTxn(w, lsn) && w.begun && w.sent < |w.wal[w.next].changes|
      && var c := w.wal[w.next].changes[w.sent];
         c.table.oid in w.session.value.announced && w.session.value.announced[c.table.oid] == c.table
    case SendCommit(_, _) => Receiving(w) && w.next < |w.wal| && w.begun && w.sent == |w.wal[w.next].changes|
    case SkipEmpty => Receiving(w) && w.next < |w.wal| && !w.begun && w.wal[w.next].changes == []
    case SendKeepalive(lsn, _, _) => Receiving(w) && SendableBefore(w, lsn)
    case Report(_, _, _) => w.session.Some? && w.session.value.consumer.Some?
    case ServerAck(_) => w.session.Some? && w.session.value.acks != []
    case Leave => Receiving(w)
    case Crash => w.session.Some? && w.session.value.consumer.Some?
    case Close => w.session.Some? && w.session.value.consumer.None?
  }

  function Confirmations(trace: seq<Entry>): seq<int> {
    if trace == [] then []
    else Confirmations(trace[..|trace| - 1]) + (if trace[|trace| - 1].Confirmed? then [trace[|trace| - 1].lsn] else [])
  }

  /** Reports newly on the wire after the consumer moved from `c` to `c1`. */
  function NewReports(c: State, c1: State): seq<int> {
    if |c.trace| <= |c1.trace| then Confirmations(c1.trace[|c.trace|..]) else []
  }

  /** The consumer's new state; once a call has raised it only leaves. */
  function Moved(w: World, c1: State, raised: bool): World
    requires w.session.Some? && w.session.value.consumer.Some?
  {
    var s := w.session.value;
    w.(session := Some(s.(consumer := Some(c1), leaving := s.leaving || raised,
                          acks := s.acks + NewReports(s.consumer.value, c1))),
       published := c1.published)
  }

  function Delivered(w: World, msg: bytes, turn: Turn): World
    requires w.session.Some? && w.session.value.consumer.Some?
  {
    var (c1, raised) := OnCopy(w.session.value.consumer.value, msg, turn);
    Moved(w, c1, raised)
  }

  /** The latest segment now reaches `n` events further. */
  function Extend(segments: seq<Segment>, n: nat): seq<Segment> {
    if segments == [] then [] else
    var last := segments[|segments| - 1];
    segments[..|segments| - 1] + [Segment(last.from, last.to + n)]
  }

  ghost function Apply(w: World, a: Action): World
    requires Enabled(w, a)
  {
    match a
    case CommitTxn(t) => w.(wal := w.wal + [t], written := t.end)
    case WriteWal(upto) => w.(written := upto)
    case Connect(clock) =>
      var n := Skipped(w.wal, w.confirmed);
      var at := |Stream(w.wal[..n])|;
      var consumer := Fresh(w.published).(lastFeedback := clock, streaming := true);
      w.(session := Some(Session(Some(consumer), false, map[], [])),
         next := n, begun := false, sent := 0, segments := w.segments + [Segment(at, at)])
    case SendBegin(lsn, body, turn) =>
      Delivered(w, XLogData(lsn, lsn, 0, Other(0x42, body)), turn).(begun := true)
    case SendRelation(lsn, table, turn) =>
      var w1 := Delivered(w, XLogData(lsn, lsn, 0, Relation(table)), turn);
      var s := w1.session.value;
      w1.(session := Some(s.(announced := s.announced[table.oid := table])))
    case SendChange(lsn, turn) =>
      var w1 := Delivered(w, XLogData(lsn, lsn, 0, w.wal[w.next].changes[w.sent].op), turn);
      w1.(sent := if w1.session.value.leaving then w.sent else w.sent + 1,
          segments := Extend(w.segments, Max(|w1.published| - |w.published|, 0)))
    case SendCommit(body, turn) =>
      Delivered(w, XLogData(w.wal[w.next].end, w.wal[w.next].end, 0, Other(0x43, body)), turn)
        .(next := w.next + 1, begun := false, sent := 0)
    case SkipEmpty => w.(next := w.next + 1)
    case SendKeepalive(lsn, reply, turn) => Delivered(w, Keepalive(lsn, 0, reply), turn)
    case Report(now, force, io) =>
      var (c1, raised) := Feedback(w.session.value.consumer.value, now, force, io);
      Moved(w, c1, raised)
    case ServerAck(ignoreOlder) =>
      var s := w.session.value;
      var lsn := s.acks[0];
      w.(session := Some(s.(acks := s.acks[1..])),
         confirmed := if lsn == 0 || (ignoreOlder && lsn < w.confirmed) then w.confirmed else lsn)
    case Leave => w.(session := Some(w.session.value.(leaving := true)))
    case Crash => w.(session := Some(w.session.value.(consumer := None)))
    case Close => w.(session := None)
  }

  // ---- Runs -------------------------------------------------------------------------

  ghost predicate ValidRun(w: World, actions: seq<Action>)
    decreases |actions|
  {
    actions == [] || (Enabled(w, actions[0]) && ValidRun(Apply(w, actions[0]), actions[1..]))
  }

  ghost function Final(w: World, actions: seq<Action>): World
    requires ValidRun(w, actions)
    decreases |actions|
  {
    if actions == [] then w else Final(Apply(w, actions[0]), actions[1..])
  }

  lemma Prepend(w: World, a: Action, rest: seq<Action>)
    requires Enabled(w, a) && ValidRun(Apply(w, a), rest)
    ensures ValidRun(w, [a] + rest) && Final(w, [a] + rest) == Final(Apply(w, a), rest)
  {
    assert ([a] + rest)[1..] == rest;
  }

  lemma NoSteps(w: World)
    ensures ValidRun(w, []) && Final(w, []) == w
  {
  }

  lemma {:induction false} RunConcat(w: World, a: seq<Action>, b: seq<Action>)
    requires ValidRun(w, a) && ValidRun(Final(w, a), b)
    ensures ValidRun(w, a + b) && Final(w, a + b) == Final(Final(w, a), b)
    decreases |a|
  {
    hide Apply, Enabled;
    if a == [] {
      assert a + b == b;
    } else {
      assert (a + b)[1..] == a[1..] + b;
      RunConcat(Apply(w, a[0]), a[1..], b);
    }
  }

  // ---- Invariant ----------------------------------------------------------------------

  ghost predicate WalOk(w: World) {
    && Position(w.written)
    && (forall i :: 0 <= i < |w.wal| ==> w.wal[i].start < w.wal[i].end <= w.written)
    && (forall i, j :: 0 <= i < j < |w.wal| ==> w.wal[i].end <= w.wal[j].start)
  }

  /** Confirming `lsn` lets the server skip nothing that has not been sent whole. */
  ghost predicate Safe(w: World, lsn: int) {
    lsn <= w.written && forall i :: w.next <= i < |w.wal| ==> lsn <= w.wal[i].start
  }

  ghost predicate CursorOk(w: World) {
    && w.next <= |w.wal|
    && (w.begun || w.sent > 0 ==> w.next < |w.wal|)
    && (w.next < |w.wal| ==> w.sent <= |w.wal[w.next].changes|)
  }

  /** `part` occurs in `whole` in one piece. */
  ghost predicate Contains(whole: seq<Event>, part: seq<Event>) {
    exists k :: 0 <= k && OccursAt(whole, part, k)
  }

  predicate OccursAt(whole: seq<Event>, part: seq<Event>, k: nat) {
    k + |part| <= |whole| && whole[k..k + |part|] == part
  }

  /** Events of the transaction in progress delivered so far. */
  ghost function Partial(w: World): seq<Event>
    requires CursorOk(w)
  {
    if w.next < |w.wal| then EventsOfChanges(w.wal[w.next].changes[..w.sent]) else []
  }

  predicate EndsWith(whole: seq<Event>, part: seq<Event>) {
    |part| <= |whole| && whole[|whole| - |part|..] == part
  }

  ghost predicate SessionOk(w: World, s: Session) {
    && CatalogOk(s.announced)
    && (forall a :: a in s.acks ==> Safe(w, a))
    && (s.consumer.Some? ==>
          && Safe(w, s.consumer.value.lastLsn)
          && s.consumer.value.published == w.published
          && Mirrors(s.consumer.value.cache, s.announced))
  }

  ghost predicate SentOk(w: World) {
    && CursorOk(w)
    && EndsWith(w.published, Partial(w))
    && forall i :: 0 <= i < w.next ==> Contains(w.published, TxnEvents(w.wal[i]))
  }

  ghost predicate Inv(w: World) {
    && WalOk(w) && SentOk(w) && Safe(w, w.confirmed)
    && (w.session.Some? ==> SessionOk(w, w.session.value))
  }
}
