/**
 * The protocol invariant, action by action: no position that is confirmed, on
 * the wire or held by the consumer lets the server skip a transaction it has not
 * sent whole, and what it has sent whole has been published.
 */
module AtLeastOnce {
  import opened Wrappers
  import opened Bytes
  import opened PgOutput
  import opened RoundTrip
  import opened Consumer
  import opened Framing
  import opened Replication

  // ---- Sequences ------------------------------------------------------------------

  lemma ContainsGrows(whole: seq<Event>, more: seq<Event>, part: seq<Event>)
    requires Contains(whole, part)
    ensures Contains(whole + more, part)
  {
    var k :| 0 <= k && OccursAt(whole, part, k);
    assert (whole + more)[k..k + |part|] == whole[k..k + |part|];
    assert OccursAt(whole + more, part, k);
  }

  lemma EndsWithGrows(whole: seq<Event>, part: seq<Event>, more: seq<Event>)
    requires EndsWith(whole, part)
    ensures EndsWith(whole + more, part + more)
  {
    assert (whole + more)[|whole| - |part|..] == part + more;
  }

  lemma EndIsContained(whole: seq<Event>, part: seq<Event>)
    requires EndsWith(whole, part)
    ensures Contains(whole, part)
  {
    assert OccursAt(whole, part, |whole| - |part|);
  }

  lemma EmptyEnd(whole: seq<Event>)
    ensures EndsWith(whole, [])
  {
  }

  lemma MoreChanges(cs: seq<Change>, k: nat)
    requires k < |cs|
    ensures EventsOfChanges(cs[..k + 1]) == EventsOfChanges(cs[..k]) + ChangeEvents(cs[k])
  {
    assert cs[..k + 1][..k] == cs[..k];
  }

  // ---- One message, seen from the protocol -------------------------------------------

  lemma OneEntry(e: Entry)
    ensures Confirmations([e]) == if e.Confirmed? then [e.lsn] else []
  {
    assert [e][..0] == [];
  }

  lemma DataReports(c: State, c1: State, lsn: int)
    requires c1.trace == c.trace + [Received(lsn)]
    ensures NewReports(c, c1) == []
  {
    OneEntry(Received(lsn));
    assert c1.trace[|c.trace|..] == [Received(lsn)];
  }

  lemma FeedbackReports(c: State, now: real, force: bool, io: Io)
    ensures var c1 := Feedback(c, now, force, io).0;
      && (forall a :: a in NewReports(c, c1) ==> a == c.lastLsn)
      && c1.(trace := c.trace, lastFeedback := c.lastFeedback) == c
  {
    var c1 := Feedback(c, now, force, io).0;
    assert c1.trace == c.trace || c1.trace == c.trace + [Confirmed(c.lastLsn, now, force)];
    if c1.trace == c.trace {
      assert c1.trace[|c.trace|..] == [];
    } else {
      OneEntry(Confirmed(c.lastLsn, now, force));
      assert c1.trace[|c.trace|..] == [Confirmed(c.lastLsn, now, force)];
    }
  }

  lemma KeepaliveReports(c: State, lsn: nat, reply: bool, turn: Turn)
    requires Position(lsn)
    ensures var c1 := OnCopy(c, Keepalive(lsn, 0, reply), turn).0;
      && (forall a :: a in NewReports(c, c1) ==> a == Max(c.lastLsn, lsn))
      && c1.lastLsn == Max(c.lastLsn, lsn) && c1.published == c.published && c1.cache == c.cache
  {
    hide OnCopy, Keepalive, Position;
    DeliverKeepalive(c, lsn, 0, reply, turn);
    var c0, c1 := Advance(c, lsn), OnCopy(c, Keepalive(lsn, 0, reply), turn).0;
    assert c0.trace == c.trace + [Received(lsn)];
    OneEntry(Received(lsn));
    if c1.trace == c0.trace {
      assert c1.trace[|c.trace|..] == [Received(lsn)];
    } else {
      var e := Confirmed(c0.lastLsn, turn.replyClock, true);
      assert c1.trace[|c.trace|..] == [Received(lsn), e];
      assert [Received(lsn), e][..1] == [Received(lsn)];
    }
  }

  /** Delivering one data message: only the session and the channel change. */
  lemma DeliveredData(w: World, lsn: nat, m: Message, turn: Turn)
    requires Receiving(w) && SessionOk(w, w.session.value) && Position(lsn)
    requires MessageOk(w.session.value.announced, m)
    ensures var s := w.session.value;
      var due := Opt(EventOf(s.announced, m));
      var raised := due != [] && !turn.publishOk;
      var w1 := Delivered(w, XLogData(lsn, lsn, 0, m), turn);
      && w1 == w.(session := w1.session, published := if raised then w.published else w.published + due)
      && w1.session.Some? && w1.session.value.consumer.Some?
      && w1.session.value.acks == s.acks && w1.session.value.announced == s.announced
      && w1.session.value.leaving == raised
      && var c1 := w1.session.value.consumer.value;
         && c1.lastLsn == Max(s.consumer.value.lastLsn, lsn) && c1.published == w1.published
         && CatalogOk(Announce(s.announced, m))
         && Mirrors(c1.cache, if raised then s.announced else Announce(s.announced, m))
  {
    hide OnCopy, XLogData, Position, CatalogOk, Mirrors, MessageOk, EventOf, Announce, NewReports, Safe;
    var s := w.session.value;
    DeliverData(s.consumer.value, s.announced, lsn, lsn, 0, m, turn);
    DataReports(s.consumer.value, OnCopy(s.consumer.value, XLogData(lsn, lsn, 0, m), turn).0, lsn);
  }

  // ---- Each action keeps the invariant ---------------------------------------------------

  /** A longer log, or one written further, keeps every position safe that was. */
  lemma LogKeeps(w: World, a: Action)
    requires Inv(w) && Enabled(w, a) && (a.CommitTxn? || a.WriteWal?)
    ensures Inv(Apply(w, a))
  {
    hide CatalogOk, Mirrors, Contains, TxnEvents, Position, EventsOfChanges, EndsWith;
    var w1 := Apply(w, a);
    assert forall lsn :: Safe(w, lsn) ==> Safe(w1, lsn);
    if a.CommitTxn? {
      assert forall i :: 0 <= i < |w.wal| ==> w1.wal[i] == w.wal[i];
      if w.next == |w.wal| {
        EmptyPartial(w1);
      }
    }
    assert SentOk(w1);
  }

  lemma ServerKeeps(w: World, a: Action)
    requires Inv(w) && Enabled(w, a) && (a.Close? || a.Crash? || a.Leave? || a.ServerAck?)
    ensures Inv(Apply(w, a))
  {
    hide CatalogOk, Mirrors, Safe, WalOk;
    var w1 := Apply(w, a);
    SameSafe(w, w1);
    SentStill(w, w1);
  }

  lemma SameSafe(w: World, w1: World)
    requires w1.wal == w.wal && w1.written == w.written && w1.next == w.next
    ensures forall lsn :: Safe(w, lsn) <==> Safe(w1, lsn)
    ensures WalOk(w) ==> WalOk(w1)
  {
    hide Position;
  }

  lemma SentStill(w: World, w1: World)
    requires SentOk(w) && w1.wal == w.wal && w1.next == w.next && w1.sent == w.sent && w1.published == w.published
    requires w1.begun ==> w1.next < |w1.wal|
    ensures SentOk(w1)
  {
    hide Contains, EndsWith, TxnEvents, EventsOfChanges;
  }

  lemma ConnectKeeps(w: World, clock: real)
    requires Inv(w) && Enabled(w, Connect(clock))
    ensures Inv(Apply(w, Connect(clock)))
  {
    hide Contains, TxnEvents, Stream, Position;
    var w1 := Apply(w, Connect(clock));
    assert w1.next <= w.next;
    EmptyEnd(w.published);
    if w1.next < |w.wal| {
      assert w.wal[w1.next].changes[..0] == [];
      forall i | w1.next <= i < |w.wal| ensures w.confirmed <= w.wal[i].start {
        if i > w1.next {
          assert w.wal[w1.next].end <= w.wal[i].start;
        }
      }
    }
    assert Fresh(w.published).lastLsn == 0;
  }

  lemma ControlKeeps(w: World, a: Action)
    requires Inv(w) && Enabled(w, a) && (a.SendBegin? || a.SendRelation?)
    ensures Inv(Apply(w, a))
  {
    hide CatalogOk, Mirrors, XLogData, Position, Delivered, TableOk, SentOk, WalOk, Safe;
    var m := if a.SendBegin? then Other(0x42, a.body) else Relation(a.table);
    ControlSafe(w, a);
    DeliveredData(w, a.lsn, m, a.turn);
    var w1 := Apply(w, a);
    SameSafe(w, w1);
    SentStill(w, w1);
    var before, after := w.session.value.consumer.value.lastLsn, w1.session.value.consumer.value.lastLsn;
    assert after == before || after == a.lsn;
  }

  lemma ControlSafe(w: World, a: Action)
    requires Inv(w) && Enabled(w, a) && (a.SendBegin? || a.SendRelation?)
    ensures Position(a.lsn) && Safe(w, a.lsn)
    ensures w.begun || a.SendBegin? ==> w.next < |w.wal|
  {
    hide CatalogOk, Mirrors, TableOk, EndsWith, Contains, TxnEvents, EventsOfChanges;
    PositionBelow(w, a.lsn);
    SafeNext(w, a.lsn);
  }

  lemma PositionBelow(w: World, lsn: nat)
    requires WalOk(w) && lsn <= w.written
    ensures Position(lsn)
  {
  }

  /** The catalogue entry decides the event, whatever else is announced. */
  lemma AnnouncedEvent(known: Catalog, c: Change)
    requires CatalogOk(known) && c.table.oid in known && known[c.table.oid] == c.table
    ensures MessageOk(known, c.op) && Opt(EventOf(known, c.op)) == ChangeEvents(c)
  {
  }

  lemma ChangeKeeps(w: World, lsn: nat, turn: Turn)
    requires Inv(w) && Enabled(w, SendChange(lsn, turn))
    ensures Inv(Apply(w, SendChange(lsn, turn)))
  {
    hide CatalogOk, Mirrors, Contains, TxnEvents, XLogData, Position, Delivered, EventsOfChanges, MessageOk, EventOf,
         ChangeEvents, EndsWith;
    var s := w.session.value;
    var changes := w.wal[w.next].changes;
    var c := changes[w.sent];
    PositionBelow(w, lsn);
    AnnouncedEvent(s.announced, c);
    DeliveredData(w, lsn, c.op, turn);
    var w1 := Apply(w, SendChange(lsn, turn));
    assert forall a :: Safe(w, a) ==> Safe(w1, a);
    MoreChanges(changes, w.sent);
    var more := if w1.sent == w.sent then [] else ChangeEvents(c);
    EndsWithGrows(w.published, Partial(w), more);
    assert Partial(w) + more == Partial(w1);
    assert w1.published == w.published + more;
    forall i | 0 <= i < w.next ensures Contains(w1.published, TxnEvents(w.wal[i])) {
      ContainsGrows(w.published, more, TxnEvents(w.wal[i]));
    }
  }

  lemma CommitKeeps(w: World, body: bytes, turn: Turn)
    requires Inv(w) && Enabled(w, SendCommit(body, turn))
    ensures Inv(Apply(w, SendCommit(body, turn)))
  {
    hide CatalogOk, Mirrors, Contains, XLogData, Position, Delivered, EventsOfChanges, EndsWith;
    var t := w.wal[w.next];
    PositionBelow(w, t.end);
    DeliveredData(w, t.end, Other(0x43, body), turn);
    var w1 := Apply(w, SendCommit(body, turn));
    assert w1.published == w.published;
    assert forall a :: Safe(w, a) ==> Safe(w1, a);
    assert Safe(w1, t.end);
    assert t.changes[..w.sent] == t.changes;
    EndIsContained(w.published, TxnEvents(t));
    EmptyPartial(w1);
  }

  lemma EmptyPartial(w: World)
    requires CursorOk(w) && w.sent == 0
    ensures EndsWith(w.published, Partial(w))
  {
    if w.next < |w.wal| {
      assert w.wal[w.next].changes[..0] == [];
    }
  }

  lemma SkipKeeps(w: World)
    requires Inv(w) && Enabled(w, SkipEmpty)
    ensures Inv(Apply(w, SkipEmpty))
  {
    hide CatalogOk, Mirrors, Contains, Position, EndsWith;
    var w1 := Apply(w, SkipEmpty);
    assert forall a :: Safe(w, a) ==> Safe(w1, a);
    assert EventsOfChanges(w.wal[w.next].changes) == [];
    EmptyEnd(w.published);
    EndIsContained(w.published, []);
    EmptyPartial(w1);
  }

  lemma ReportKeeps(w: World, a: Action)
    requires Inv(w) && Enabled(w, a) && (a.SendKeepalive? || a.Report?)
    ensures Inv(Apply(w, a))
  {
    hide CatalogOk, Mirrors, Contains, Position, TxnEvents, EventsOfChanges, NewReports, Keepalive, OnCopy, Feedback;
    var c := w.session.value.consumer.value;
    if a.SendKeepalive? {
      PositionBelow(w, a.lsn);
      KeepaliveReports(c, a.lsn, a.reply, a.turn);
      assert Safe(w, a.lsn) by {
        SafeNext(w, a.lsn);
      }
    } else {
      FeedbackReports(c, a.now, a.force, a.io);
    }
    var w1 := Apply(w, a);
    assert forall lsn :: Safe(w, lsn) ==> Safe(w1, lsn);
  }

  lemma SafeNext(w: World, lsn: nat)
    requires WalOk(w) && SendableBefore(w, lsn) && w.next <= |w.wal|
    ensures Safe(w, lsn)
  {
    hide Position;
    forall i | w.next <= i < |w.wal| ensures lsn <= w.wal[i].start {
      if i > w.next {
        assert w.wal[w.next].end <= w.wal[i].start;
      }
    }
  }

  lemma StepKeeps(w: World, a: Action)
    requires Inv(w) && Enabled(w, a)
    ensures Inv(Apply(w, a))
  {
    hide Inv, Enabled, Apply;
    match a
    case Connect(clock) => ConnectKeeps(w, clock);
    case SendChange(lsn, turn) => ChangeKeeps(w, lsn, turn);
    case SendCommit(body, turn) => CommitKeeps(w, body, turn);
    case SkipEmpty => SkipKeeps(w);
    case SendBegin(_, _, _) => ControlKeeps(w, a);
    case SendRelation(_, _, _) => ControlKeeps(w, a);
    case SendKeepalive(_, _, _) => ReportKeeps(w, a);
    case Report(_, _, _) => ReportKeeps(w, a);
    case CommitTxn(_) => LogKeeps(w, a);
    case WriteWal(_) => LogKeeps(w, a);
    case _ => ServerKeeps(w, a);
  }

  // ---- Every run --------------------------------------------------------------------------

  lemma {:induction false} RunKeeps(w: World, actions: seq<Action>)
    requires Inv(w) && ValidRun(w, actions)
    ensures Inv(Final(w, actions))
    decreases |actions|
  {
    hide Inv, Enabled, Apply;
    if actions != [] {
      StepKeeps(w, actions[0]);
      RunKeeps(Apply(w, actions[0]), actions[1..]);
    }
  }
}
