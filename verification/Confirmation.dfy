/** Where the confirmed position comes from: nothing but a consumer's report moves it. */
module Confirmation {
  import opened Wrappers
  import opened Consumer
  import opened Replication

  ghost predicate HasConsumer(w: World) {
    w.session.Some? && w.session.value.consumer.Some?
  }

  /** The trace gains a report of the position beyond its first `from` entries. */
  ghost predicate Gains(trace: seq<Entry>, from: nat, lsn: int) {
    exists k :: from <= k < |trace| && trace[k].Confirmed? && trace[k].lsn == lsn
  }

  /** The action makes the session's consumer report the position. */
  ghost predicate MakesReport(w: World, a: Action, lsn: int)
    requires Enabled(w, a)
  {
    var n := Apply(w, a);
    && HasConsumer(w) && HasConsumer(n)
    && Gains(n.session.value.consumer.value.trace, |w.session.value.consumer.value.trace|, lsn)
  }

  ghost predicate Reported(w: World, actions: seq<Action>, lsn: int)
    requires ValidRun(w, actions)
    decreases |actions|
  {
    actions != [] && (MakesReport(w, actions[0], lsn) || Reported(Apply(w, actions[0]), actions[1..], lsn))
  }

  /** Confirmed, or reported and on its way. */
  ghost predicate Stands(w: World, lsn: int) {
    w.confirmed == lsn || (w.session.Some? && lsn in w.session.value.acks)
  }

  lemma {:induction false} ConfirmationsAre(trace: seq<Entry>, lsn: int)
    requires lsn in Confirmations(trace)
    ensures Gains(trace, 0, lsn)
    decreases |trace|
  {
    var n := |trace| - 1;
    if lsn in Confirmations(trace[..n]) {
      ConfirmationsAre(trace[..n], lsn);
      var k :| 0 <= k < n && trace[..n][k].Confirmed? && trace[..n][k].lsn == lsn;
      assert trace[k].lsn == lsn;
    }
  }

  lemma NewReportsAre(c: State, c1: State, lsn: int)
    requires lsn in NewReports(c, c1)
    ensures Gains(c1.trace, |c.trace|, lsn)
  {
    var tail := c1.trace[|c.trace|..];
    ConfirmationsAre(tail, lsn);
    var k :| 0 <= k < |tail| && tail[k].Confirmed? && tail[k].lsn == lsn;
    assert c1.trace[|c.trace| + k] == tail[k];
  }

  lemma StepStands(w: World, a: Action, lsn: int)
    requires Enabled(w, a) && Stands(Apply(w, a), lsn)
    ensures Stands(w, lsn) || MakesReport(w, a, lsn)
  {
    hide OnCopy, Feedback, Gains, NewReports, Skipped, Stream, Extend;
    var n := Apply(w, a);
    if HasConsumer(w) && HasConsumer(n) {
      var c, c1 := w.session.value.consumer.value, n.session.value.consumer.value;
      if lsn in NewReports(c, c1) {
        NewReportsAre(c, c1, lsn);
      }
    }
  }

  lemma {:induction false} RunStands(w: World, actions: seq<Action>, lsn: int)
    requires ValidRun(w, actions) && Stands(Final(w, actions), lsn)
    ensures Stands(w, lsn) || Reported(w, actions, lsn)
    decreases |actions|
  {
    hide Enabled, Apply, Stands, MakesReport;
    if actions != [] {
      RunStands(Apply(w, actions[0]), actions[1..], lsn);
      if Stands(Apply(w, actions[0]), lsn) {
        StepStands(w, actions[0], lsn);
      }
    }
  }

  /**
   * In every run the server stands where it began or at a position that one of
   * the consumers reported in that run: no send, crash, restart or commit moves it.
   */
  lemma ConfirmedWasReported(w: World, actions: seq<Action>)
    requires Init(w) && ValidRun(w, actions)
    ensures var lsn := Final(w, actions).confirmed; lsn == w.confirmed || Reported(w, actions, lsn)
  {
    hide Reported, ValidRun, Final;
    RunStands(w, actions, Final(w, actions).confirmed);
  }
}
