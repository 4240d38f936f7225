/**
 * The pump is a player of the protocol: each turn is one message of the server
 * followed by one report, so what holds of every run of the protocol holds of
 * the loop that the consumer runs.
 */
module PumpProtocol {
  import opened Wrappers
  import opened Bytes
  import opened PgOutput
  import opened RoundTrip
  import opened Consumer
  import opened Framing
  import opened Replication
  import opened AtLeastOnce

  /** The server sends something to the consumer. */
  predicate Sends(a: Action) {
    a.SendBegin? || a.SendRelation? || a.SendChange? || a.SendCommit? || a.SendKeepalive?
  }

  /** The bytes it sends. */
  ghost function Wire(w: World, a: Action): bytes
    requires Sends(a) && Enabled(w, a)
  {
    match a
    case SendBegin(lsn, body, _) => XLogData(lsn, lsn, 0, Other(0x42, body))
    case SendRelation(lsn, table, _) => XLogData(lsn, lsn, 0, Relation(table))
    case SendChange(lsn, _) => XLogData(lsn, lsn, 0, w.wal[w.next].changes[w.sent].op)
    case SendCommit(body, _) => XLogData(w.wal[w.next].end, w.wal[w.next].end, 0, Other(0x43, body))
    case SendKeepalive(lsn, reply, _) => Keepalive(lsn, 0, reply)
  }

  ghost function ConsumerOf(w: World): State
    requires w.session.Some? && w.session.value.consumer.Some?
  {
    w.session.value.consumer.value
  }

  /** A session with a consumer; the flag of `Leaving` says whether a call of it has raised. */
  ghost predicate Live(w: World) {
    w.session.Some? && w.session.value.consumer.Some?
  }

  lemma SendIsOnCopy(w: World, a: Action)
    requires Sends(a) && Enabled(w, a)
    ensures Live(w) && !w.session.value.leaving && Live(Apply(w, a))
    ensures (ConsumerOf(Apply(w, a)), Apply(w, a).session.value.leaving) == OnCopy(ConsumerOf(w), Wire(w, a), a.turn)
  {
    hide OnCopy, XLogData, Keepalive, TableOk, NewReports, Extend;
  }

  lemma ReportIsFeedback(w: World, now: real, force: bool, io: Io)
    requires Live(w)
    ensures Enabled(w, Report(now, force, io)) && Live(Apply(w, Report(now, force, io)))
    ensures var (n, (c1, raised)) := (Apply(w, Report(now, force, io)), Feedback(ConsumerOf(w), now, force, io));
      ConsumerOf(n) == c1 && n.session.value.leaving == (w.session.value.leaving || raised)
  {
    hide Feedback, NewReports;
  }

  /** A turn that finds the server's message is that send, and then, unless it raised, a report. */
  lemma TurnIsSendThenReport(w: World, a: Action)
    requires Sends(a) && Enabled(w, a) && !a.turn.stop && a.turn.polled == Polled.Message(Wire(w, a))
    ensures Live(w) && Live(Apply(w, a))
    ensures var sent := Apply(w, a);
      if sent.session.value.leaving then PumpTurn(ConsumerOf(w), a.turn) == (ConsumerOf(sent), Raised)
      else
        var report := Report(a.turn.clock, false, a.turn.io);
        && Enabled(sent, report) && Live(Apply(sent, report))
        && PumpTurn(ConsumerOf(w), a.turn)
           == (ConsumerOf(Apply(sent, report)), if Apply(sent, report).session.value.leaving then Raised else Again)
  {
    hide OnCopy, Feedback, Apply, Enabled;
    SendIsOnCopy(w, a);
    ReportIsFeedback(Apply(w, a), a.turn.clock, false, a.turn.io);
  }

  /** A turn that finds nothing is a report. */
  lemma IdleTurnIsReport(w: World, turn: Turn)
    requires Live(w) && !w.session.value.leaving && !turn.stop && turn.polled == Empty(true)
    ensures var report := Report(turn.clock, false, turn.io);
      && Enabled(w, report) && Live(Apply(w, report))
      && PumpTurn(ConsumerOf(w), turn)
         == (ConsumerOf(Apply(w, report)), if Apply(w, report).session.value.leaving then Raised else Again)
  {
    hide Feedback, Apply, Enabled;
    ReportIsFeedback(w, turn.clock, false, turn.io);
  }

  // ---- A whole pump ------------------------------------------------------------------------------

  /** The actions one turn stands for. */
  function ActionsOf(a: Action): seq<Action> {
    if Sends(a) then [a, Report(a.turn.clock, false, a.turn.io)] else [a]
  }

  /**
   * A turn of the pump, seen from the server: it sends something, which the turn
   * finds, or sends nothing and the turn reports.
   */
  ghost predicate Plays(w: World, a: Action, turn: Turn) {
    && Enabled(w, a) && Live(w) && !w.session.value.leaving && !turn.stop
    && (Sends(a) ==> turn == a.turn && turn.polled == Polled.Message(Wire(w, a)))
    && (!Sends(a) ==> turn.polled == Empty(true) && a == Report(turn.clock, false, turn.io))
  }

  /** Where the world is after the turn. */
  ghost function AfterTurn(w: World, a: Action, turn: Turn): World
    requires Plays(w, a, turn)
  {
    var sent := Apply(w, a);
    if !Sends(a) || !Live(sent) || sent.session.value.leaving then sent
    else
      ReportIsFeedback(sent, turn.clock, false, turn.io);
      Apply(sent, Report(turn.clock, false, turn.io))
  }

  /** The pump's turns are played one after another until one raises. */
  ghost predicate Game(w: World, plays: seq<Action>, turns: seq<Turn>)
    decreases |turns|
  {
    && |plays| == |turns|
    && (turns == [] ||
        (&& Plays(w, plays[0], turns[0])
         && (var n := AfterTurn(w, plays[0], turns[0]);
             if Live(n) && n.session.value.leaving then |turns| == 1 else Game(n, plays[1..], turns[1..]))))
  }

  lemma TurnRuns(w: World, a: Action, turn: Turn) returns (run: seq<Action>)
    requires Plays(w, a, turn)
    ensures ValidRun(w, run) && Final(w, run) == AfterTurn(w, a, turn)
    ensures Live(AfterTurn(w, a, turn))
    ensures PumpTurn(ConsumerOf(w), turn)
         == (ConsumerOf(AfterTurn(w, a, turn)), if AfterTurn(w, a, turn).session.value.leaving then Raised else Again)
  {
    hide Apply, Enabled, PumpTurn;
    var sent := Apply(w, a);
    NoSteps(sent);
    if Sends(a) {
      TurnIsSendThenReport(w, a);
      if sent.session.value.leaving {
        Prepend(w, a, []);
        run := [a] + [];
      } else {
        var report := Report(turn.clock, false, turn.io);
        NoSteps(Apply(sent, report));
        Prepend(sent, report, []);
        Prepend(w, a, [report] + []);
        run := [a] + ([report] + []);
      }
    } else {
      IdleTurnIsReport(w, turn);
      Prepend(w, a, []);
      run := [a] + [];
    }
  }

  /**
   * Whatever the server plays, the pump over those turns is a run of the protocol
   * that ends in the same state of the consumer, raised or not; so the theorems
   * about every run speak of this loop.
   */
  lemma {:induction false} PumpIsProtocol(w: World, plays: seq<Action>, turns: seq<Turn>) returns (run: seq<Action>)
    requires Live(w) && !w.session.value.leaving && Game(w, plays, turns)
    ensures ValidRun(w, run) && Live(Final(w, run))
    ensures Pump(ConsumerOf(w), turns)
         == (ConsumerOf(Final(w, run)), if Final(w, run).session.value.leaving then Raised else Returned)
    decreases |turns|
  {
    hide Apply, Enabled, PumpTurn, Plays, AfterTurn, ValidRun, Final;
    if turns == [] {
      NoSteps(w);
      run := [];
    } else {
      var first := TurnRuns(w, plays[0], turns[0]);
      var n := AfterTurn(w, plays[0], turns[0]);
      if n.session.value.leaving {
        run := first;
      } else {
        var rest := PumpIsProtocol(n, plays[1..], turns[1..]);
        RunConcat(w, first, rest);
        run := first + rest;
      }
    }
  }

  /**
   * A whole consumer run is a run of the protocol: it connects, pumps, and makes
   * its forced report on the way out, raised or not.
   */
  lemma RunIsProtocol(w: World, plays: seq<Action>, turns: seq<Turn>, startClock: real, exitClock: real, exitIo: Io)
    returns (run: seq<Action>)
    requires Enabled(w, Connect(startClock)) && Game(Apply(w, Connect(startClock)), plays, turns)
    ensures ValidRun(w, run) && Live(Final(w, run))
    ensures Run(Fresh(w.published), Script(true, startClock, turns, exitClock, exitIo)).0 == ConsumerOf(Final(w, run))
  {
    hide Pump, Game, ValidRun, Final, Feedback, Stream, Skipped;
    var connect, report := Connect(startClock), Report(exitClock, true, exitIo);
    var on := Apply(w, connect);
    Connected(w, startClock);
    hide Apply, Enabled;
    var pumped := PumpIsProtocol(on, plays, turns);
    var end := Final(on, pumped);
    ReportIsFeedback(end, exitClock, true, exitIo);
    NoSteps(Apply(end, report));
    Prepend(end, report, []);
    RunConcat(on, pumped, [report] + []);
    Prepend(w, connect, pumped + ([report] + []));
    run := [connect] + (pumped + ([report] + []));
  }

  lemma Connected(w: World, clock: real)
    requires Enabled(w, Connect(clock))
    ensures var n := Apply(w, Connect(clock));
      && Live(n) && !n.session.value.leaving
      && ConsumerOf(n) == Fresh(w.published).(lastFeedback := clock, streaming := true)
  {
    hide Stream, Skipped;
  }
}
