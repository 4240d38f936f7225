/**
 * Nothing wedges the slot: from every reachable state the protocol can go on
 * to a session that has published everything committed.
 */
module Recovery {
  import opened Wrappers
  import opened Bytes
  import opened PgOutput
  import opened RoundTrip
  import opened Consumer
  import opened Framing
  import opened Replication
  import opened AtLeastOnce
  import opened LastWrite
  import opened Dashboard
  import opened Pipeline
  import opened Delivery

  /** A turn in which the publish succeeds. */
  const GOOD: Turn := Turn(false, Ended, true, 0.0, Sent, 0.0, Sent)

  /** The change due next and whether its table has been announced. */
  ghost predicate Announced(w: World)
    requires w.session.Some?
  {
    w.next < |w.wal| && w.sent < |w.wal[w.next].changes|
    && var t := w.wal[w.next].changes[w.sent].table;
       t.oid in w.session.value.announced && w.session.value.announced[t.oid] == t
  }

  lemma AfterControl(w: World, a: Action)
    requires Inv(w) && Enabled(w, a) && (a.SendBegin? || a.SendRelation?)
    ensures var w1 := Apply(w, a);
      && Receiving(w1) && w1.wal == w.wal && w1.next == w.next && w1.sent == w.sent
      && (a.SendBegin? ==> w1.begun)
      && (a.SendRelation? ==> w1.begun == w.begun && a.table.oid in w1.session.value.announced
                              && w1.session.value.announced[a.table.oid] == a.table)
  {
    hide CatalogOk, Mirrors, SentOk, XLogData, Position, Delivered, TableOk, Safe;
    var m := if a.SendBegin? then Other(0x42, a.body) else Relation(a.table);
    PositionBelow(w, a.lsn);
    DeliveredData(w, a.lsn, m, a.turn);
  }

  lemma AfterChange(w: World)
    requires Inv(w) && Enabled(w, SendChange(0, GOOD))
    ensures var w1 := Apply(w, SendChange(0, GOOD));
      Receiving(w1) && w1.wal == w.wal && w1.next == w.next && w1.begun && w1.sent == w.sent + 1
  {
    hide CatalogOk, Mirrors, SentOk, XLogData, Position, Delivered, MessageOk, EventOf, ChangeEvents, Safe, Extend;
    var c := w.wal[w.next].changes[w.sent];
    PositionBelow(w, 0);
    AnnouncedEvent(w.session.value.announced, c);
    DeliveredData(w, 0, c.op, GOOD);
  }

  lemma AfterCommit(w: World)
    requires Inv(w) && Enabled(w, SendCommit([], GOOD))
    ensures var w1 := Apply(w, SendCommit([], GOOD));
      Receiving(w1) && w1.wal == w.wal && w1.next == w.next + 1 && !w1.begun && w1.sent == 0
  {
    hide CatalogOk, Mirrors, SentOk, XLogData, Position, Delivered, Safe;
    var t := w.wal[w.next];
    PositionBelow(w, t.end);
    DeliveredData(w, t.end, Other(0x43, []), GOOD);
  }

  ghost function DueAction(w: World): Action
    requires w.session.Some? && CursorOk(w) && w.next < |w.wal|
  {
    if !w.begun then SendBegin(0, [], GOOD)
    else if w.sent == |w.wal[w.next].changes| then SendCommit([], GOOD)
    else if Announced(w) then SendChange(0, GOOD)
    else SendRelation(0, w.wal[w.next].changes[w.sent].table, GOOD)
  }

  lemma DueEnabled(w: World)
    requires Inv(w) && Receiving(w) && w.next < |w.wal|
    ensures Enabled(w, DueAction(w))
  {
    hide CatalogOk, Mirrors, Safe, Contains, EndsWith, Position;
    if w.begun && w.sent < |w.wal[w.next].changes| {
      ChangeTable(w.wal[w.next].changes[w.sent]);
    }
  }

  lemma ChangeTable(c: Change)
    ensures TableOk(c.table)
  {
  }

  /** A connected session can send and publish everything still due. */
  lemma {:induction false} Drain(w: World) returns (actions: seq<Action>)
    requires Inv(w) && Receiving(w)
    ensures ValidRun(w, actions)
    ensures var w1 := Final(w, actions); w1.wal == w.wal && w1.next == |w1.wal| && w1.session.Some?
    decreases |w.wal| - w.next,
              if w.begun then 0 else 1,
              if w.next < |w.wal| then |w.wal[w.next].changes| - w.sent else 0,
              if Announced(w) then 0 else 1
  {
    hide Inv, Apply, ValidRun, Final, Enabled, Announced;
    CursorIn(w);
    if w.next == |w.wal| {
      NoSteps(w);
      actions := [];
    } else {
      var a := DueAction(w);
      DueEnabled(w);
      match a {
        case SendChange(_, _) => AfterChange(w);
        case SendCommit(_, _) => AfterCommit(w);
        case _ => AfterControl(w, a);
      }
      StepKeeps(w, a);
      var w1 := Apply(w, a);
      CursorIn(w1);
      if a.SendRelation? {
        NowAnnounced(w1, a.table);
      }
      var rest := Drain(w1);
      Prepend(w, a, rest);
      actions := [a] + rest;
    }
  }

  lemma NowAnnounced(w: World, t: Table)
    requires w.session.Some? && w.next < |w.wal| && w.sent < |w.wal[w.next].changes|
    requires w.wal[w.next].changes[w.sent].table == t
    requires t.oid in w.session.value.announced && w.session.value.announced[t.oid] == t
    ensures Announced(w)
  {
  }

  /** Whatever state the last session is in, a new one can be opened. */
  lemma Reconnect(w: World) returns (actions: seq<Action>)
    requires Inv(w)
    ensures ValidRun(w, actions)
    ensures var w1 := Final(w, actions); Inv(w1) && Receiving(w1) && w1.wal == w.wal
  {
    hide Inv, ValidRun, Final, Skipped, Stream;
    if w.session.None? {
      StepKeeps(w, Connect(0.0));
      NoSteps(Apply(w, Connect(0.0)));
      Prepend(w, Connect(0.0), []);
      actions := [Connect(0.0)] + [];
    } else if w.session.value.consumer.None? {
      actions := ReconnectClosing(w);
    } else {
      StepKeeps(w, Crash);
      var rest := ReconnectClosing(Apply(w, Crash));
      Prepend(w, Crash, rest);
      actions := [Crash] + rest;
    }
  }

  lemma ReconnectClosing(w: World) returns (actions: seq<Action>)
    requires Inv(w) && w.session.Some? && w.session.value.consumer.None?
    ensures ValidRun(w, actions)
    ensures var w1 := Final(w, actions); Inv(w1) && Receiving(w1) && w1.wal == w.wal
  {
    hide Inv, ValidRun, Final, Skipped, Stream;
    var closed := Apply(w, Close);
    StepKeeps(w, Close);
    StepKeeps(closed, Connect(0.0));
    NoSteps(Apply(closed, Connect(0.0)));
    Prepend(closed, Connect(0.0), []);
    Prepend(w, Close, [Connect(0.0)] + []);
    actions := [Close] + ([Connect(0.0)] + []);
  }

  /**
   * However a run has gone, it has a continuation after which every committed
   * transaction lies whole in a published stretch, and every store agrees with
   * the commits.
   */
  lemma CanAlwaysCatchUp(w: World, run: seq<Action>, s: AppState) returns (more: seq<Action>)
    requires Init(w) && ValidRun(w, run)
    ensures ValidRun(w, run + more)
    ensures var w1 := Final(w, run + more);
      && w1.wal == Final(w, run).wal
      && Chain(w1.segments, |Stream(w1.wal)|) && w1.published == Replay(Stream(w1.wal), w1.segments)
      && (forall i :: 0 <= i < |w1.wal| ==>
            PublishedWhole(w1.segments, w1.wal, i) && Contains(w1.published, TxnEvents(w1.wal[i])))
      && FoldKnown(VehiclePatch, s.vehicles, w1.published) == FoldKnown(VehiclePatch, s.vehicles, Stream(w1.wal))
      && FoldKnown(ZonePatch, s.zones, w1.published) == FoldKnown(ZonePatch, s.zones, Stream(w1.wal))
      && FoldAny(AnomalyPatch, s.anomalies, w1.published) == FoldAny(AnomalyPatch, s.anomalies, Stream(w1.wal))
  {
    hide Inv, Init, ValidRun, Final, Stream, Chain, Replay, FoldKnown, FoldAny, VehiclePatch, ZonePatch, AnomalyPatch,
         Apply, Enabled, PublishedWhole, Contains, TxnEvents;
    StartDelivers(w);
    RunDelivers(w, run);
    var w0 := Final(w, run);
    var first := Reconnect(w0);
    var w1 := Final(w0, first);
    var rest := Drain(w1);
    Replication.RunConcat(w0, first, rest);
    more := first + rest;
    Replication.RunConcat(w, run, more);
    RunDelivers(w, run + more);
    var end := Final(w, run + more);
    CursorIn(end);
    SafeSkips(end);
    SessionHasSegment(end);
    DashboardConverges(w, run + more, s);
  }

  lemma SessionHasSegment(w: World)
    requires CursorOk(w) && Woven(w) && w.session.Some?
    ensures w.segments != []
  {
  }
}
