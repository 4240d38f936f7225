/**
 * What one consumer run reports back, over every script of messages, failures
 * and clock readings: each report is the highest position received before it,
 * so reports never go back; and rate-limited reports keep their distance.
 */
module FeedbackDiscipline {
  import opened Wrappers
  import opened Bytes
  import opened PgOutput
  import opened Consumer
  import Windows

  // ---- Positions ---------------------------------------------------------------

  /** Highest position among the entries received, 0 if none. */
  function MaxReceived(trace: seq<Entry>): int {
    if trace == [] then 0 else
    var e, rest := trace[|trace| - 1], trace[..|trace| - 1];
    if e.Received? then Max(MaxReceived(rest), e.lsn) else MaxReceived(rest)
  }

  ghost predicate Exact(trace: seq<Entry>) {
    forall i :: 0 <= i < |trace| && trace[i].Confirmed? ==> trace[i].lsn == MaxReceived(trace[..i])
  }

  ghost predicate Coherent(s: State) {
    s.lastLsn == MaxReceived(s.trace) && Exact(s.trace)
  }

  lemma AppendEntry(trace: seq<Entry>, e: Entry)
    requires Exact(trace) && (e.Confirmed? ==> e.lsn == MaxReceived(trace))
    ensures Exact(trace + [e])
    ensures MaxReceived(trace + [e]) == if e.Received? then Max(MaxReceived(trace), e.lsn) else MaxReceived(trace)
  {
    var t := trace + [e];
    assert t[..|trace|] == trace;
    forall i | 0 <= i < |t| && t[i].Confirmed? ensures t[i].lsn == MaxReceived(t[..i]) {
      if i < |trace| {
        assert t[..i] == trace[..i];
      }
    }
  }

  lemma FeedbackCoherent(s: State, now: real, force: bool, io: Io)
    requires Coherent(s)
    ensures Coherent(Feedback(s, now, force, io).0)
  {
    AppendEntry(s.trace, Confirmed(s.lastLsn, now, force));
  }

  lemma AdvanceCoherent(s: State, lsn: int)
    requires Coherent(s)
    ensures Coherent(Advance(s, lsn))
  {
    AppendEntry(s.trace, Received(lsn));
  }

  lemma ConsumeCoherent(s: State, payload: bytes, publishOk: bool)
    requires Coherent(s)
    ensures Coherent(Consume(s, payload, publishOk).0)
  {
    hide DecodeMessage, MaxReceived, Exact;
  }

  lemma OnCopyCoherent(s: State, msg: bytes, turn: Turn)
    requires Coherent(s)
    ensures Coherent(OnCopy(s, msg, turn).0)
  {
    hide FromBE, Signed, Slice, Coherent, Advance, Consume, Feedback, IntAt;
    if IntAt(msg, 9, 8).Success? {
      var lsn := IntAt(msg, 9, 8).value.0;
      AdvanceCoherent(s, lsn);
      ConsumeCoherent(Advance(s, lsn), Slice(msg, 25, |msg|), turn.publishOk);
    }
    if |msg| >= 18 {
      var lsn := Signed(FromBE(msg[1..9]), 8);
      AdvanceCoherent(s, lsn);
      FeedbackCoherent(Advance(s, lsn), turn.replyClock, true, turn.replyIo);
    }
  }

  lemma TurnCoherent(s: State, turn: Turn)
    requires Coherent(s)
    ensures Coherent(PumpTurn(s, turn).0)
  {
    hide OnCopy, Coherent;
    FeedbackCoherent(s, turn.clock, false, turn.io);
    if turn.polled.Message? {
      OnCopyCoherent(s, turn.polled.msg, turn);
      FeedbackCoherent(OnCopy(s, turn.polled.msg, turn).0, turn.clock, false, turn.io);
    }
  }

  lemma {:induction false} PumpCoherent(s: State, turns: seq<Turn>)
    requires Coherent(s)
    ensures Coherent(Pump(s, turns).0)
    decreases |turns|
  {
    hide PumpTurn, Coherent;
    if turns != [] {
      TurnCoherent(s, turns[0]);
      PumpCoherent(PumpTurn(s, turns[0]).0, turns[1..]);
    }
  }

  lemma {:induction false} MaxReceivedGrows(trace: seq<Entry>, i: nat, j: nat)
    requires i <= j <= |trace|
    ensures MaxReceived(trace[..i]) <= MaxReceived(trace[..j])
    decreases j
  {
    if i < j {
      MaxReceivedGrows(trace, i, j - 1);
      assert trace[..j][..j - 1] == trace[..j - 1];
    }
  }

  /**
   * Every report of a run, the forced one on the way out of a failure included,
   * is exactly the highest position received so far; so reports never decrease.
   */
  lemma ReportsAreReceivedMaxima(script: Script, published: seq<Event>)
    ensures var trace := Run(Fresh(published), script).0.trace;
      && Exact(trace)
      && forall i, j :: 0 <= i < j < |trace| && trace[i].Confirmed? && trace[j].Confirmed? ==>
           trace[i].lsn <= trace[j].lsn
  {
    hide Pump;
    var s := Fresh(published).(lastFeedback := script.startClock, streaming := true);
    var s1 := if script.startOk then Pump(s, script.turns).0 else Fresh(published);
    PumpCoherent(s, script.turns);
    FeedbackCoherent(s1, script.exitClock, true, if script.startOk then script.exitIo else PutFails);
    var trace := Run(Fresh(published), script).0.trace;
    forall i, j | 0 <= i < j < |trace| && trace[i].Confirmed? && trace[j].Confirmed?
      ensures trace[i].lsn <= trace[j].lsn
    {
      MaxReceivedGrows(trace, i, j);
    }
  }

  // ---- Times -------------------------------------------------------------------

  /** Clock readings never go back, from `low` through the turns to `last`. */
  ghost predicate ClockFrom(low: real, turns: seq<Turn>, last: real)
    decreases |turns|
  {
    if turns == [] then low <= last
    else low <= turns[0].replyClock <= turns[0].clock && ClockFrom(turns[0].clock, turns[1..], last)
  }

  /** A rate-limited report comes at least a second after every earlier report. */
  ghost predicate Apart(trace: seq<Entry>) {
    forall i, j :: 0 <= j < i < |trace| && trace[i].Confirmed? && !trace[i].forced && trace[j].Confirmed?
      ==> trace[i].at - trace[j].at >= 1.0
  }

  ghost predicate Paced(s: State, low: real) {
    && s.lastFeedback <= low && Apart(s.trace)
    && forall i :: 0 <= i < |s.trace| && s.trace[i].Confirmed? ==> s.trace[i].at <= s.lastFeedback
  }

  lemma FeedbackPaced(s: State, low: real, now: real, force: bool, io: Io)
    requires Paced(s, low) && low <= now
    ensures var (s1, raised) := Feedback(s, now, force, io); Apart(s1.trace) && (!raised ==> Paced(s1, now))
  {
  }

  lemma TurnPaced(s: State, low: real, turn: Turn)
    requires Paced(s, low) && low <= turn.replyClock <= turn.clock
    ensures var (s1, next) := PumpTurn(s, turn); Apart(s1.trace) && (next.Again? ==> Paced(s1, turn.clock))
  {
    hide FromBE, DecodeMessage, Signed, IntAt;
    if turn.polled.Message? && !turn.stop {
      var msg := turn.polled.msg;
      var (s1, raised) := OnCopy(s, msg, turn);
      if Slice(msg, 0, 1) == [0x6B] && |msg| >= 18 {
        var s0 := Advance(s, Signed(FromBE(msg[1..9]), 8));
        FeedbackPaced(s0, low, turn.replyClock, true, turn.replyIo);
      }
      assert Apart(s1.trace) && (!raised ==> Paced(s1, turn.replyClock));
      if !raised {
        FeedbackPaced(s1, turn.replyClock, turn.clock, false, turn.io);
      }
    } else {
      FeedbackPaced(s, low, turn.clock, false, turn.io);
    }
  }

  lemma {:induction false} PumpPaced(s: State, low: real, turns: seq<Turn>, last: real)
    requires Paced(s, low) && ClockFrom(low, turns, last)
    ensures Apart(Pump(s, turns).0.trace)
    decreases |turns|
  {
    if turns != [] {
      TurnPaced(s, low, turns[0]);
      var (s1, next) := PumpTurn(s, turns[0]);
      if next.Again? {
        PumpPaced(s1, turns[0].clock, turns[1..], last);
      }
    }
  }

  /** Times of the rate-limited reports that fall in a window. */
  function LimitedIn(trace: seq<Entry>, from: real, length: real): seq<real> {
    if trace == [] then [] else
    var e, rest := trace[|trace| - 1], LimitedIn(trace[..|trace| - 1], from, length);
    if e.Confirmed? && !e.forced && from <= e.at <= from + length then rest + [e.at] else rest
  }

  /** Some report in the trace was made at `at`. */
  ghost predicate ReportedAt(trace: seq<Entry>, at: real) {
    exists i :: 0 <= i < |trace| && trace[i].Confirmed? && trace[i].at == at
  }

  lemma {:induction false} LimitedSpaced(trace: seq<Entry>, from: real, length: real)
    requires Apart(trace)
    ensures var ts := LimitedIn(trace, from, length);
      && Windows.Spaced(ts, 1.0) && Windows.Within(ts, from, length)
      && forall k :: 0 <= k < |ts| ==> ReportedAt(trace, ts[k])
    decreases |trace|
  {
    if trace != [] {
      var rest, last := trace[..|trace| - 1], trace[|trace| - 1];
      LimitedSpaced(rest, from, length);
      var older, ts := LimitedIn(rest, from, length), LimitedIn(trace, from, length);
      forall k | 0 <= k < |older|
        ensures ReportedAt(trace, older[k])
        ensures last.Confirmed? && !last.forced ==> last.at - older[k] >= 1.0
      {
        assert ReportedAt(rest, older[k]);
        var i :| 0 <= i < |rest| && rest[i].Confirmed? && rest[i].at == older[k];
        assert trace[i] == rest[i];
      }
      if ts != older {
        assert trace[|trace| - 1].at == last.at;
        assert ReportedAt(trace, last.at);
      }
    }
  }

  /** In any window of `length` seconds at most floor(length) + 1 rate-limited reports. */
  lemma ReportRate(script: Script, published: seq<Event>, from: real, length: real)
    requires ClockFrom(script.startClock, script.turns, script.exitClock) && length >= 0.0
    ensures |LimitedIn(Run(Fresh(published), script).0.trace, from, length)| <= length.Floor + 1
  {
    hide Pump, LimitedIn;
    var s := Fresh(published).(lastFeedback := script.startClock, streaming := true);
    PumpPaced(s, script.startClock, script.turns, script.exitClock);
    var trace := Run(Fresh(published), script).0.trace;
    LimitedSpaced(trace, from, length);
    Windows.WindowBound(LimitedIn(trace, from, length), 1.0, from, length);
  }
}
