/**
 * From the protocol to the dashboard: what Redis carries is the committed
 * stream, rewound and replayed, so once the latest session has caught up the
 * stores hold what folding every commit once would leave.
 */
module Pipeline {
  import opened Wrappers
  import opened Bytes
  import opened PgOutput
  import opened RoundTrip
  import opened Consumer
  import opened Framing
  import opened Replication
  import opened LastWrite
  import opened AtLeastOnce
  import opened Dashboard

  // ---- The published channel is a rewinding replay -----------------------------------------

  /** Position in the committed stream that the latest session has reached. */
  ghost function Reached(w: World): nat
    requires CursorOk(w)
  {
    |Stream(w.wal[..w.next])| + |Partial(w)|
  }

  ghost predicate Woven(w: World)
    requires CursorOk(w)
  {
    var n := |w.segments|;
    && Chain(w.segments, |Stream(w.wal)|)
    && w.published == Replay(Stream(w.wal), w.segments)
    && (if n == 0 then w.next == 0 && w.session.None? else w.segments[n - 1].to == Reached(w))
  }

  lemma StreamNext(wal: seq<Txn>, n: nat)
    requires n < |wal|
    ensures Stream(wal[..n + 1]) == Stream(wal[..n]) + TxnEvents(wal[n])
  {
    assert wal[..n + 1][..n] == wal[..n];
  }

  lemma {:induction false} StreamPrefix(wal: seq<Txn>, n: nat)
    requires n <= |wal|
    ensures Stream(wal[..n]) <= Stream(wal)
    decreases |wal| - n
  {
    if n == |wal| {
      assert wal[..n] == wal;
    } else {
      StreamNext(wal, n);
      StreamPrefix(wal, n + 1);
    }
  }

  lemma {:induction false} ChangesPrefix(cs: seq<Change>, k: nat)
    requires k <= |cs|
    ensures EventsOfChanges(cs[..k]) <= EventsOfChanges(cs)
    decreases |cs| - k
  {
    if k == |cs| {
      assert cs[..k] == cs;
    } else {
      MoreChanges(cs, k);
      ChangesPrefix(cs, k + 1);
    }
  }

  /** Up to the cursor the committed stream is what the session was sent. */
  lemma SentPrefix(wal: seq<Txn>, n: nat, k: nat)
    requires n < |wal| && k <= |wal[n].changes|
    ensures Stream(wal[..n]) + EventsOfChanges(wal[n].changes[..k]) <= Stream(wal)
  {
    hide Stream, EventsOfChanges;
    ChangesPrefix(wal[n].changes, k);
    StreamNext(wal, n);
    StreamPrefix(wal, n + 1);
    assert EventsOfChanges(wal[n].changes) == TxnEvents(wal[n]);
  }

  /** A longer stream replays the same stretches to the same events. */
  lemma {:induction false} ReplayStable(es: seq<Event>, more: seq<Event>, segments: seq<Segment>)
    requires Chain(segments, |es|)
    ensures Chain(segments, |es + more|) && Replay(es + more, segments) == Replay(es, segments)
    decreases |segments|
  {
    if segments != [] {
      var n := |segments| - 1;
      ReplayStable(es, more, segments[..n]);
      assert (es + more)[segments[n].from..segments[n].to] == es[segments[n].from..segments[n].to];
    }
  }

  lemma ExtendEnd(segments: seq<Segment>, n: nat)
    requires segments != []
    ensures var longer, last := Extend(segments, n), segments[|segments| - 1];
      |longer| == |segments| && longer[..|longer| - 1] == segments[..|segments| - 1]
      && longer[|longer| - 1] == Segment(last.from, last.to + n)
  {
  }

  lemma ExtendChain(segments: seq<Segment>, n: nat, length: nat)
    requires Chain(segments, length) && segments != [] && segments[|segments| - 1].to + n <= length
    ensures Chain(Extend(segments, n), length)
  {
    hide Extend;
    ExtendEnd(segments, n);
    var longer, m := Extend(segments, n), |segments| - 1;
    forall i | 0 <= i < m ensures longer[i] == segments[i] {
      assert longer[i] == longer[..m][i] == segments[..m][i];
    }
  }

  lemma {:induction false} ReplayExtend(es: seq<Event>, segments: seq<Segment>, n: nat)
    requires Chain(segments, |es|) && segments != [] && segments[|segments| - 1].to + n <= |es|
    ensures var last := segments[|segments| - 1].to;
      Chain(Extend(segments, n), |es|) && Replay(es, Extend(segments, n)) == Replay(es, segments) + es[last..last + n]
  {
    hide Chain, Extend;
    ExtendChain(segments, n, |es|);
    ExtendEnd(segments, n);
    var last := segments[|segments| - 1];
    LastSegment(es, segments);
    LastSegment(es, Extend(segments, n));
    assert es[last.from..last.to + n] == es[last.from..last.to] + es[last.to..last.to + n];
  }

  lemma {:induction false} LastSegment(es: seq<Event>, segments: seq<Segment>)
    requires Chain(segments, |es|) && segments != []
    ensures var m := |segments| - 1;
      && Chain(segments[..m], |es|) && segments[m].from <= segments[m].to <= |es|
      && Replay(es, segments) == Replay(es, segments[..m]) + es[segments[m].from..segments[m].to]
  {
  }

  lemma CommitTxnWeaves(w: World, t: Txn)
    requires Inv(w) && Woven(w) && Enabled(w, CommitTxn(t))
    ensures var w1 := Apply(w, CommitTxn(t)); CursorOk(w1) && Woven(w1)
  {
    hide EventsOfChanges, Safe, Contains, SessionOk, Replay, Chain, TxnEvents;
    var w1 := Apply(w, CommitTxn(t));
    assert w1.wal[..|w.wal|] == w.wal;
    assert w1.wal[..w.next] == w.wal[..w.next];
    ReplayStable(Stream(w.wal), TxnEvents(t), w.segments);
    if w.next == |w.wal| {
      assert t.changes[..0] == [];
      assert EventsOfChanges(t.changes[..0]) == [] by {
        NoChanges();
      }
    }
  }

  lemma NoChanges()
    ensures EventsOfChanges([]) == []
  {
  }

  lemma ConnectWeaves(w: World, clock: real)
    requires Inv(w) && Woven(w) && Enabled(w, Connect(clock))
    ensures var w1 := Apply(w, Connect(clock)); CursorOk(w1) && Woven(w1)
  {
    hide EventsOfChanges, Contains, SessionOk, Stream, TxnEvents, EndsWith, WalOk, Chain, Replay;
    var w1 := Apply(w, Connect(clock));
    var es := Stream(w.wal);
    assert w1.next <= w.next;
    assert w.wal[..w.next][..w1.next] == w.wal[..w1.next];
    StreamPrefix(w.wal[..w.next], w1.next);
    StreamPrefix(w.wal, w1.next);
    if w1.next < |w.wal| {
      assert w.wal[w1.next].changes[..0] == [];
      NoChanges();
    }
    if w.segments == [] {
      assert w.wal[..0] == [];
      assert Stream(w.wal[..0]) == [] by {
        NoTxns();
      }
    }
    NewSegment(es, w.segments, |Stream(w.wal[..w1.next])|);
  }

  /** A new session starts an empty stretch no later than the last one ended. */
  lemma {:induction false} NewSegment(es: seq<Event>, segments: seq<Segment>, at: nat)
    requires Chain(segments, |es|) && at <= |es|
    requires if segments == [] then at == 0 else at <= segments[|segments| - 1].to
    ensures Chain(segments + [Segment(at, at)], |es|)
    ensures Replay(es, segments + [Segment(at, at)]) == Replay(es, segments)
  {
    var longer := segments + [Segment(at, at)];
    assert longer[..|segments|] == segments;
    assert es[at..at] == [];
  }

  lemma NoTxns()
    ensures Stream([]) == []
  {
  }

  lemma ChangeWeaves(w: World, lsn: nat, turn: Turn)
    requires Inv(w) && Woven(w) && Enabled(w, SendChange(lsn, turn))
    ensures var w1 := Apply(w, SendChange(lsn, turn)); CursorOk(w1) && Woven(w1)
  {
    hide CatalogOk, Mirrors, Contains, TxnEvents, XLogData, Position, Delivered, EventsOfChanges, MessageOk,
         EventOf, ChangeEvents, EndsWith, Stream, Replay, Chain, Extend, Safe;
    var s := w.session.value;
    var changes := w.wal[w.next].changes;
    PositionBelow(w, lsn);
    AnnouncedEvent(s.announced, changes[w.sent]);
    DeliveredData(w, lsn, changes[w.sent].op, turn);
    var w1 := Apply(w, SendChange(lsn, turn));
    var more := if w1.sent == w.sent then [] else ChangeEvents(changes[w.sent]);
    assert w1.published == w.published + more;
    assert w1.segments == Extend(w.segments, |more|);
    MoreChanges(changes, w.sent);
    assert Partial(w1) == Partial(w) + more;
    SentPrefix(w.wal, w.next, w1.sent);
    var at := Reached(w);
    assert Stream(w.wal)[at..at + |more|] == more by {
      assert Stream(w.wal[..w.next]) + (Partial(w) + more) <= Stream(w.wal);
    }
    ReplayExtend(Stream(w.wal), w.segments, |more|);
    ExtendEnd(w.segments, |more|);
  }

  /** Finishing a transaction, or passing an empty one, stays at the same position. */
  lemma AdvanceWeaves(w: World, a: Action)
    requires Inv(w) && Woven(w) && Enabled(w, a) && (a.SendCommit? || a.SkipEmpty?)
    ensures var w1 := Apply(w, a); CursorOk(w1) && Woven(w1)
  {
    hide CatalogOk, Mirrors, Contains, XLogData, Position, Delivered, EndsWith, Stream, Replay, Chain, Safe,
         EventsOfChanges;
    StepKeeps(w, a);
    var t := w.wal[w.next];
    if a.SendCommit? {
      PositionBelow(w, t.end);
      DeliveredData(w, t.end, Other(0x43, a.body), a.turn);
    }
    var w1 := Apply(w, a);
    assert t.changes[..w.sent] == t.changes;
    assert TxnEvents(t) == Partial(w);
    StreamNext(w.wal, w.next);
    if w1.next < |w.wal| {
      assert w.wal[w1.next].changes[..0] == [];
      NoChanges();
    }
  }

  lemma QuietWeaves(w: World, a: Action)
    requires Inv(w) && Woven(w) && Enabled(w, a)
    requires !a.CommitTxn? && !a.Connect? && !a.SendChange? && !a.SendCommit? && !a.SkipEmpty?
    ensures var w1 := Apply(w, a); CursorOk(w1) && Woven(w1)
  {
    hide CatalogOk, Mirrors, Contains, XLogData, Keepalive, Position, EndsWith, Stream, Replay, Chain, Safe,
         EventsOfChanges,
         OnCopy, Feedback, TableOk, NewReports;
    var w1 := Apply(w, a);
    if a.SendBegin? || a.SendRelation? {
      PositionBelow(w, a.lsn);
      DeliveredData(w, a.lsn, if a.SendBegin? then Other(0x42, a.body) else Relation(a.table), a.turn);
    } else if a.SendKeepalive? {
      PositionBelow(w, a.lsn);
      KeepaliveReports(w.session.value.consumer.value, a.lsn, a.reply, a.turn);
    } else if a.Report? {
      FeedbackReports(w.session.value.consumer.value, a.now, a.force, a.io);
    }
    assert w1.published == w.published && w1.segments == w.segments && w1.wal == w.wal && w1.next == w.next &&
      w1.sent == w.sent;
  }

  lemma StepWeaves(w: World, a: Action)
    requires Inv(w) && Woven(w) && Enabled(w, a)
    ensures var w1 := Apply(w, a); Inv(w1) && Woven(w1)
  {
    hide Inv, Enabled, Apply, Woven, CursorOk;
    StepKeeps(w, a);
    match a
    case CommitTxn(t) => CommitTxnWeaves(w, t);
    case Connect(clock) => ConnectWeaves(w, clock);
    case SendChange(lsn, turn) => ChangeWeaves(w, lsn, turn);
    case SendCommit(_, _) => AdvanceWeaves(w, a);
    case SkipEmpty => AdvanceWeaves(w, a);
    case _ => QuietWeaves(w, a);
  }

  lemma {:induction false} RunWeaves(w: World, actions: seq<Action>)
    requires Inv(w) && Woven(w) && ValidRun(w, actions)
    ensures var w1 := Final(w, actions); Inv(w1) && Woven(w1)
    decreases |actions|
  {
    hide Inv, Enabled, Apply, Woven;
    if actions != [] {
      StepWeaves(w, actions[0]);
      RunWeaves(Apply(w, actions[0]), actions[1..]);
    }
  }

  lemma StartsWoven(w: World)
    requires Init(w)
    ensures Inv(w) && Woven(w)
  {
    EmptyEnd(w.published);
  }

  /**
   * Within a session events come out in commit order: in every reachable state
   * the channel ends with the stretch of the committed stream that the latest
   * session has published, from where the server restarted it.
   */
  lemma SessionInCommitOrder(w: World, actions: seq<Action>)
    requires Init(w) && ValidRun(w, actions)
    ensures var w1 := Final(w, actions);
      w1.segments != [] ==>
        var last := w1.segments[|w1.segments| - 1];
        && last.from <= last.to <= |Stream(w1.wal)|
        && EndsWith(w1.published, Stream(w1.wal)[last.from..last.to])
  {
    hide Inv, Init, Chain, Stream, Final, ValidRun;
    StartsWoven(w);
    RunWeaves(w, actions);
    var w1 := Final(w, actions);
    if w1.segments != [] {
      LastSegment(Stream(w1.wal), w1.segments);
    }
  }

  /** Once caught up, a key's last published value is its last committed one. */
  lemma PublishedLast<K, V>(w: World, actions: seq<Action>, f: Reading<Event, K, V>, k: K)
    requires Init(w) && ValidRun(w, actions)
    requires var w1 := Final(w, actions); w1.segments != [] && w1.next == |w1.wal|
    ensures var w1 := Final(w, actions); Last(f, w1.published, k) == Last(f, Stream(w1.wal), k)
  {
    hide Inv, Init, Stream, Final, ValidRun, Replay, Chain;
    StartsWoven(w);
    RunWeaves(w, actions);
    var w1 := Final(w, actions);
    var es := Stream(w1.wal);
    assert w1.wal[..w1.next] == w1.wal;
    FurthestBound(w1.segments, |es|);
    ReplayConverges(f, es, w1.segments, k);
    assert es[..|es|] == es;
  }

  /**
   * End to end, over every run with crashes, failed publishes and restarts:
   * when the latest session has caught up, each store folded from everything
   * ever published equals the store folded from every commit exactly once.
   */
  lemma DashboardConverges(w: World, actions: seq<Action>, s: AppState)
    requires Init(w) && ValidRun(w, actions)
    requires var w1 := Final(w, actions); w1.segments != [] && w1.next == |w1.wal|
    ensures var w1 := Final(w, actions);
      && FoldKnown(VehiclePatch, s.vehicles, w1.published) == FoldKnown(VehiclePatch, s.vehicles, Stream(w1.wal))
      && FoldKnown(ZonePatch, s.zones, w1.published) == FoldKnown(ZonePatch, s.zones, Stream(w1.wal))
      && FoldAny(AnomalyPatch, s.anomalies, w1.published) == FoldAny(AnomalyPatch, s.anomalies, Stream(w1.wal))
  {
    hide Init, Stream, Final, ValidRun, Last, FoldAny, FoldKnown;
    var w1 := Final(w, actions);
    forall k ensures Last(VehiclePatch, w1.published, k) == Last(VehiclePatch, Stream(w1.wal), k) {
      PublishedLast(w, actions, VehiclePatch, k);
    }
    FoldsAgree(VehiclePatch, s.vehicles, w1.published, Stream(w1.wal));
    forall k ensures Last(ZonePatch, w1.published, k) == Last(ZonePatch, Stream(w1.wal), k) {
      PublishedLast(w, actions, ZonePatch, k);
    }
    FoldsAgree(ZonePatch, s.zones, w1.published, Stream(w1.wal));
    forall k ensures Last(AnomalyPatch, w1.published, k) == Last(AnomalyPatch, Stream(w1.wal), k) {
      PublishedLast(w, actions, AnomalyPatch, k);
    }
    FoldsAgree(AnomalyPatch, s.anomalies, w1.published, Stream(w1.wal));
  }
}
