/**
 * At-least-once delivery, position by position: every transaction the server
 * may skip lies whole in one stretch of the committed stream that some session
 * has published, although the consumer moves its position before it decodes and
 * reports it even after a failed publish.
 */
module Delivery {
  import opened Wrappers
  import opened PgOutput
  import opened Consumer
  import opened Framing
  import opened RoundTrip
  import opened Replication
  import opened LastWrite
  import opened AtLeastOnce
  import opened Pipeline

  /** The stretch holds transaction `i` of the committed stream from its first event to its last. */
  ghost predicate Spans(stretch: Segment, wal: seq<Txn>, i: nat)
    requires i < |wal|
  {
    stretch.from <= |Stream(wal[..i])| && |Stream(wal[..i + 1])| <= stretch.to
  }

  ghost predicate PublishedWhole(segments: seq<Segment>, wal: seq<Txn>, i: nat)
    requires i < |wal|
  {
    exists k :: 0 <= k < |segments| && Spans(segments[k], wal, i)
  }

  /** All transactions sent so far are delivered, and the latest session began no later than the cursor. */
  ghost predicate SoFar(w: World)
    requires w.next <= |w.wal|
  {
    && (forall i :: 0 <= i < w.next ==> PublishedWhole(w.segments, w.wal, i))
    && (w.segments != [] ==> w.segments[|w.segments| - 1].from <= |Stream(w.wal[..w.next])|)
  }

  // ---- Each action keeps it ------------------------------------------------------------------

  lemma LogGrows(w: World, t: Txn)
    requires w.next <= |w.wal| && SoFar(w)
    ensures SoFar(w.(wal := w.wal + [t], written := t.end))
  {
    hide Stream;
    var wal := w.wal + [t];
    assert wal[..w.next] == w.wal[..w.next];
    forall i | 0 <= i < w.next ensures PublishedWhole(w.segments, wal, i) {
      assert PublishedWhole(w.segments, w.wal, i);
      var k :| 0 <= k < |w.segments| && Spans(w.segments[k], w.wal, i);
      assert wal[..i] == w.wal[..i] && wal[..i + 1] == w.wal[..i + 1];
      assert Spans(w.segments[k], wal, i);
    }
  }

  lemma NewSession(w: World, n: nat)
    requires n <= w.next <= |w.wal| && SoFar(w)
    ensures var at := |Stream(w.wal[..n])|; SoFar(w.(next := n, segments := w.segments + [Segment(at, at)]))
  {
    hide Stream, Spans;
    var at := |Stream(w.wal[..n])|;
    var longer := w.segments + [Segment(at, at)];
    forall i | 0 <= i < n ensures PublishedWhole(longer, w.wal, i) {
      assert PublishedWhole(w.segments, w.wal, i);
      var k :| 0 <= k < |w.segments| && Spans(w.segments[k], w.wal, i);
      assert longer[k] == w.segments[k];
    }
  }

  lemma LongerStretch(w: World, n: nat)
    requires w.next <= |w.wal| && SoFar(w)
    ensures SoFar(w.(segments := Extend(w.segments, n)))
  {
    hide Stream, Extend;
    if w.segments != [] {
      var longer, m := Extend(w.segments, n), |w.segments| - 1;
      ExtendEnd(w.segments, n);
      forall i | 0 <= i < w.next ensures PublishedWhole(longer, w.wal, i) {
        assert PublishedWhole(w.segments, w.wal, i);
        var k :| 0 <= k < |w.segments| && Spans(w.segments[k], w.wal, i);
        assert k < m ==> longer[k] == longer[..m][k] == w.segments[..m][k];
        assert Spans(longer[k], w.wal, i);
      }
    } else {
      assert Extend(w.segments, n) == [] by {
        NoStretch(n);
      }
    }
  }

  lemma NoStretch(n: nat)
    ensures Extend([], n) == []
  {
  }

  /** At the end of a transaction the latest stretch has reached it, having begun no later than its first event. */
  lemma NextTxn(w: World, w1: World)
    requires CursorOk(w) && SoFar(w) && w.next < |w.wal|
    requires w1.wal == w.wal && w1.segments == w.segments && w1.next == w.next + 1 && w1.sent == 0
    requires CursorOk(w1) && Woven(w1) && w1.segments != []
    ensures SoFar(w1)
  {
    hide Stream, Chain, Replay;
    var last := w.segments[|w.segments| - 1];
    StreamNext(w.wal, w.next);
    assert Spans(last, w.wal, w.next);
    forall i | 0 <= i < w1.next ensures PublishedWhole(w1.segments, w1.wal, i) {
      if i < w.next {
        assert PublishedWhole(w.segments, w.wal, i);
      }
    }
  }

  /** What an action does to the log, the cursor and the stretches. */
  lemma Moves(w: World, a: Action)
    requires Inv(w) && Enabled(w, a)
    ensures var w1 := Apply(w, a);
      match a
      case CommitTxn(t) => w1 == w.(wal := w.wal + [t], written := t.end)
      case Connect(_) =>
        && w1.wal == w.wal && w1.next == Skipped(w.wal, w.confirmed) <= w.next
        && var at := |Stream(w.wal[..w1.next])|; w1.segments == w.segments + [Segment(at, at)]
      case SendChange(_, _) =>
        w1.wal == w.wal && w1.next == w.next && exists n: nat :: w1.segments == Extend(w.segments, n)
      case SendCommit(_, _) => w1.wal == w.wal && w1.segments == w.segments && w1.next == w.next + 1 && w1.sent == 0
      case SkipEmpty => w1.wal == w.wal && w1.segments == w.segments && w1.next == w.next + 1 && w1.sent == 0
      case _ => w1.wal == w.wal && w1.segments == w.segments && w1.next == w.next
  {
    hide OnCopy, Feedback, XLogData, Keepalive, SessionOk, TableOk, Stream, NewReports, Extend, EndsWith, Contains,
         TxnEvents;
    var w1 := Apply(w, a);
    if a.SendChange? {
      assert w1.segments == Extend(w.segments, Max(|w1.published| - |w.published|, 0));
    }
  }

  lemma StepDelivers(w: World, a: Action)
    requires Inv(w) && Woven(w) && SoFar(w) && Enabled(w, a)
    ensures var w1 := Apply(w, a); Inv(w1) && Woven(w1) && SoFar(w1)
  {
    hide Inv, Enabled, Apply, SoFar, Woven, CursorOk, Extend, Skipped;
    var w1 := Apply(w, a);
    CursorIn(w);
    StepWeaves(w, a);
    CursorIn(w1);
    Moves(w, a);
    match a {
      case CommitTxn(t) => LogGrows(w, t);
      case Connect(_) =>
        NewSession(w, w1.next);
        SameDelivery(w.(next := w1.next, segments := w1.segments), w1);
      case SendChange(_, _) =>
        var n: nat :| w1.segments == Extend(w.segments, n);
        LongerStretch(w, n);
        SameDelivery(w.(segments := w1.segments), w1);
      case SendCommit(_, _) =>
        InSession(w, a);
        NextTxn(w, w1);
      case SkipEmpty =>
        InSession(w, a);
        NextTxn(w, w1);
      case _ => SameDelivery(w, w1);
    }
  }

  lemma CursorIn(w: World)
    requires Inv(w)
    ensures CursorOk(w) && w.next <= |w.wal|
  {
  }

  lemma InSession(w: World, a: Action)
    requires Inv(w) && Woven(w) && Enabled(w, a) && (a.SendCommit? || a.SkipEmpty?)
    ensures w.segments != [] && w.next < |w.wal|
  {
  }

  lemma SameDelivery(w: World, w1: World)
    requires w.next <= |w.wal| && SoFar(w)
    requires w1.wal == w.wal && w1.next == w.next && w1.segments == w.segments
    ensures SoFar(w1)
  {
  }

  lemma {:induction false} RunDelivers(w: World, actions: seq<Action>)
    requires Inv(w) && Woven(w) && SoFar(w) && ValidRun(w, actions)
    ensures var w1 := Final(w, actions); Inv(w1) && Woven(w1) && SoFar(w1)
    decreases |actions|
  {
    hide Inv, Enabled, Apply, Woven, SoFar;
    if actions != [] {
      StepDelivers(w, actions[0]);
      RunDelivers(Apply(w, actions[0]), actions[1..]);
    }
  }

  lemma StartDelivers(w: World)
    requires Init(w)
    ensures Inv(w) && Woven(w) && SoFar(w)
  {
    StartsWoven(w);
  }

  // ---- Main result ------------------------------------------------------------------------------

  /** Some stretch has published position `p` of the committed stream. */
  predicate Reaches(segments: seq<Segment>, p: nat) {
    exists k :: 0 <= k < |segments| && segments[k].from <= p < segments[k].to
  }

  /** Every position before transaction `n` belongs to some transaction. */
  lemma {:induction false} TxnAt(wal: seq<Txn>, n: nat, p: nat) returns (i: nat)
    requires n <= |wal| && p < |Stream(wal[..n])|
    ensures i < n && |Stream(wal[..i])| <= p < |Stream(wal[..i + 1])|
    decreases n
  {
    hide Stream;
    if n == 0 {
      assert wal[..n] == [];
      NoTxns();
    }
    if n > 0 && p < |Stream(wal[..n - 1])| {
      i := TxnAt(wal, n - 1, p);
    } else {
      i := n - 1;
    }
  }

  lemma SafeSkips(w: World)
    requires Inv(w)
    ensures forall i :: 0 <= i < |w.wal| && w.wal[i].start < w.confirmed ==> i < w.next
    ensures forall i :: 0 <= i < w.next <= |w.wal| ==> Contains(w.published, TxnEvents(w.wal[i]))
    ensures Skipped(w.wal, w.confirmed) <= w.next
  {
    hide WalOk, SessionOk, Contains, TxnEvents;
  }

  /**
   * In every reachable state the channel is the committed stream replayed in
   * stretches, each starting no later than the last one ended; a transaction
   * the server may skip on reconnect lies whole in one of them; so no position
   * before the confirmed one is missing, however often equal events repeat.
   */
  lemma AtLeastOnceDelivery(w: World, actions: seq<Action>)
    requires Init(w) && ValidRun(w, actions)
    ensures var w1 := Final(w, actions);
      && Chain(w1.segments, |Stream(w1.wal)|) && w1.published == Replay(Stream(w1.wal), w1.segments)
      && (forall i :: 0 <= i < |w1.wal| && w1.wal[i].start < w1.confirmed ==>
            PublishedWhole(w1.segments, w1.wal, i) && Contains(w1.published, TxnEvents(w1.wal[i])))
      && (forall p :: 0 <= p < |Stream(w1.wal[..Skipped(w1.wal, w1.confirmed)])| ==> Reaches(w1.segments, p))
  {
    hide Inv, Init, ValidRun, Final, Stream, Chain, Replay, Skipped, Contains, TxnEvents;
    StartDelivers(w);
    RunDelivers(w, actions);
    var w1 := Final(w, actions);
    CursorIn(w1);
    SafeSkips(w1);
    var n := Skipped(w1.wal, w1.confirmed);
    forall p | 0 <= p < |Stream(w1.wal[..n])| ensures Reaches(w1.segments, p) {
      var i := TxnAt(w1.wal, n, p);
      assert PublishedWhole(w1.segments, w1.wal, i);
      var k :| 0 <= k < |w1.segments| && Spans(w1.segments[k], w1.wal, i);
      assert w1.segments[k].from <= p < w1.segments[k].to;
    }
  }
}
