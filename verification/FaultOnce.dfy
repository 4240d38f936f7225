/**
 * With no one else starting, completing or repairing, interleaved fault calls
 * and status updates equal a serial run, so a vehicle is faulted exactly once;
 * and no interleaving can block or run on for ever.
 */
module FaultOnce {
  import opened Wrappers
  import opened Sequences
  import opened Telemetry
  import opened Faults
  import opened FaultRuns

  // ---- Refinement of a serial run ---------------------------------------------------------------

  function Serial(t: Tables, e: Effect): Tables {
    match e
    case CallReturned(_, v, reason, _) => AfterFault(t, v, reason)
    case StatusSet(v, status) => t.(vehicles := t.vehicles[v := status])
  }

  function SerialAll(t: Tables, h: seq<Effect>): Tables {
    if h == [] then t else Serial(SerialAll(t, h[..|h| - 1]), h[|h| - 1])
  }

  /** Every call returned what it would have returned run by itself in its turn. */
  ghost predicate OutcomesSerial(t: Tables, h: seq<Effect>) {
    forall k :: 0 <= k < |h| && h[k].CallReturned? ==> h[k].outcome == OutcomeOf(SerialAll(t, h[..k]), h[k].vehicle)
  }

  /** What a call has written is what it would write now. */
  ghost predicate CallSettled(t: Tables, c: Call) {
    && (Writing(c) ==> c.mission == ActiveMission(t.missions, c.vehicle))
    && (c.pc.RecordInserted? || c.pc.Flagged? ==> c.inserted == !HasOpen(t.records, c.vehicle))
  }

  ghost predicate Settled(s: Sys) {
    forall i :: 0 <= i < |s.calls| ==> CallSettled(s.t, s.calls[i])
  }

  ghost predicate IsSerial(s: Sys, t: Tables) {
    s.t == SerialAll(t, s.history) && OutcomesSerial(t, s.history) && Settled(s)
  }

  predicate Quiet(a: Action) {
    a.Statement? || a.Fails? || a.SetStatus?
  }

  lemma SettledBeside(t: Tables, d: Call, c: Call)
    requires CallOk(t, d) && CallOk(t, c) && Writing(d) && CallSettled(t, c) && c.vehicle != d.vehicle
    requires OneActive(t.missions) && OneActive(WithCancelled(t.missions, d.mission))
    ensures CallSettled(Merged(t, d), c)
  {
    StillNoOpen(t.records, Merged(t, d).records, c.vehicle, d.vehicle);
    var was, now := ActiveMission(t.missions, c.vehicle), ActiveMission(Merged(t, d).missions, c.vehicle);
    assert was.Some? ==> Merged(t, d).missions[was.value] == Mission(c.vehicle, Active);
    assert now.Some? ==> t.missions[now.value] == Mission(c.vehicle, Active);
    assert was == now;
  }

  lemma StepSettles(s: Sys, a: Action)
    requires Inv(s) && Settled(s) && Enabled(s, a) && Quiet(a)
    ensures Settled(Apply(s, a))
  {
    hide HistoryOk, Enabled, Inv, Merged, CallSettled, CallOk, Unlocked;
    var n := Apply(s, a);
    Touches(s, a);
    forall j | 0 <= j < |n.calls| ensures CallSettled(n.t, n.calls[j]) {
      if (a.Statement? || a.Fails?) && a.id == j {
        OwnSettles(s, a);
      } else {
        OthersSettled(s, a, j);
      }
    }
  }

  lemma OwnSettles(s: Sys, a: Action)
    requires Enabled(s, a) && (a.Statement? || a.Fails?) && CallSettled(s.t, s.calls[a.id])
    ensures CallSettled(Apply(s, a).t, Apply(s, a).calls[a.id])
  {
  }

  lemma OthersSettled(s: Sys, a: Action, j: nat)
    requires Inv(s) && Enabled(s, a) && Quiet(a) && j < |s.calls| && ((a.Statement? || a.Fails?) ==> a.id != j)
    requires CallSettled(s.t, s.calls[j])
    ensures CallSettled(Apply(s, a).t, s.calls[j])
  {
    hide HistoryOk, ActiveMission, HasOpen, CallSettled, OneActive, OneOpen, Unlocked;
    var c := s.calls[j];
    if a.Statement? && s.calls[a.id].pc.Flagged? && Writing(c) {
      var d := s.calls[a.id];
      assert CallOk(s.t, d) && CallOk(s.t, c);
      StepIndexes(s, a);
      SettledBeside(s.t, d, c);
    } else if !Writing(c) {
      NotWriting(Apply(s, a).t, c);
    } else {
      SameRows(s.t, Apply(s, a).t, c);
    }
  }

  lemma NotWriting(t: Tables, c: Call)
    requires !Writing(c)
    ensures CallSettled(t, c)
  {
  }

  lemma SameRows(t: Tables, n: Tables, c: Call)
    requires CallSettled(t, c) && n.missions == t.missions && n.records == t.records
    ensures CallSettled(n, c)
  {
  }

  /** The tables after a step are the serial run extended by what the step committed, if anything. */
  lemma StepTables(s: Sys, a: Action)
    requires Inv(s) && Settled(s) && Enabled(s, a) && Quiet(a)
    ensures var n := Apply(s, a);
      || (n.history == s.history && n.t == s.t)
      || (|n.history| == |s.history| + 1 && n.history[..|s.history|] == s.history
          && n.t == Serial(s.t, n.history[|s.history|])
          && (n.history[|s.history|].CallReturned? ==>
                n.history[|s.history|].outcome == OutcomeOf(s.t, n.history[|s.history|].vehicle)))
  {
    hide HistoryOk, LocksOk, OneActive, OneOpen, ActiveMission, HasOpen, WithCancelled, Unlocked;
    if a.Statement? {
      assert CallOk(s.t, s.calls[a.id]) && CallSettled(s.t, s.calls[a.id]);
    }
  }

  lemma StepSerial(s: Sys, t: Tables, a: Action)
    requires Inv(s) && IsSerial(s, t) && Enabled(s, a) && Quiet(a)
    ensures IsSerial(Apply(s, a), t)
  {
    hide Inv, Settled, Enabled, Quiet, Apply, Serial, OutcomeOf;
    StepSettles(s, a);
    StepTables(s, a);
    var n, k := Apply(s, a), |s.history|;
    if n.history != s.history {
      assert n.history[..|n.history| - 1] == s.history;
      forall j | 0 <= j < |n.history| && n.history[j].CallReturned?
        ensures n.history[j].outcome == OutcomeOf(SerialAll(t, n.history[..j]), n.history[j].vehicle)
      {
        if j < k {
          assert n.history[..j] == s.history[..j] && n.history[j] == s.history[j];
        } else {
          assert n.history[..j] == s.history;
        }
      }
    }
  }

  ghost predicate QuietRun(actions: seq<Action>) {
    forall k :: 0 <= k < |actions| ==> Quiet(actions[k])
  }

  lemma {:induction false} RunSerial(s: Sys, t: Tables, actions: seq<Action>)
    requires Inv(s) && IsSerial(s, t) && ValidRun(s, actions) && QuietRun(actions)
    ensures Inv(Final(s, actions)) && IsSerial(Final(s, actions), t)
    decreases |actions|
  {
    hide Inv, IsSerial, Enabled, Quiet, Apply;
    if actions != [] {
      StepSerial(s, t, actions[0]);
      StepKeeps(s, actions[0]);
      RunSerial(Apply(s, actions[0]), t, actions[1..]);
    }
  }

  lemma InitialSerial(s: Sys)
    requires Initial(s)
    ensures Inv(s) && IsSerial(s, s.t)
  {
    InitialOk(s);
  }

  /** Any interleaving of fault calls and status updates is the serial run in commit order, outcomes included. */
  lemma TablesRefineSerial(s: Sys, actions: seq<Action>)
    requires Initial(s) && ValidRun(s, actions) && QuietRun(actions)
    ensures var n := Final(s, actions);
      && n.t == SerialAll(s.t, n.history) && OutcomesSerial(s.t, n.history)
      && HistoryOk(n)
  {
    InitialSerial(s);
    RunSerial(s, s.t, actions);
  }

  // ---- Exactly once ------------------------------------------------------------------------------

  lemma OnceFaulted(t: Tables, v: string, first: Option<string>, later: Option<string>)
    requires Working(t, v)
    ensures OutcomeOf(t, v) == Faulted
    ensures var n := AfterFault(t, v, first);
      OutcomeOf(n, v) == AlreadyFault && AfterFault(n, v, later) == n
  {
  }

  lemma {:induction false} FirstWins(t: Tables, h: seq<Effect>, v: string)
    requires Working(t, v) && h != [] && OutcomesSerial(t, h)
    requires forall k :: 0 <= k < |h| ==> h[k].CallReturned? && h[k].vehicle == v
    ensures h[0].outcome == Faulted
    ensures forall k :: 0 < k < |h| ==> h[k].outcome == AlreadyFault
    ensures SerialAll(t, h) == AfterFault(t, v, h[0].reason)
    decreases |h|
  {
    hide AfterFault, OutcomeOf, Working;
    var n := |h| - 1;
    assert h[..0] == [];
    OnceFaulted(t, v, h[0].reason, h[n].reason);
    if n > 0 {
      var rest := h[..n];
      forall k | 0 <= k < |rest| && rest[k].CallReturned?
        ensures rest[k].outcome == OutcomeOf(SerialAll(t, rest[..k]), rest[k].vehicle)
      {
        assert rest[..k] == h[..k];
      }
      FirstWins(t, rest, v);
    } else {
      assert SerialAll(t, h[..0]) == t;
    }
  }

  predicate OneVehicle(s: Sys, v: string) {
    forall i :: 0 <= i < |s.calls| ==> s.calls[i].vehicle == v
  }

  predicate CallsOnly(actions: seq<Action>) {
    forall k :: 0 <= k < |actions| ==> actions[k].Statement? || actions[k].Fails?
  }

  lemma {:induction false} OnlyCallsReturn(s: Sys, actions: seq<Action>, v: string)
    requires ValidRun(s, actions) && CallsOnly(actions) && OneVehicle(s, v)
    requires forall k :: 0 <= k < |s.history| ==> s.history[k].CallReturned? && s.history[k].vehicle == v
    ensures var n := Final(s, actions);
      OneVehicle(n, v) && forall k :: 0 <= k < |n.history| ==> n.history[k].CallReturned? && n.history[k].vehicle == v
    decreases |actions|
  {
    hide Merged, OutcomeOf, ActiveMission, HasOpen;
    if actions != [] {
      Touches(s, actions[0]);
      OnlyCallsReturn(Apply(s, actions[0]), actions[1..], v);
    }
  }

  /**
   * Any number of interleaved calls on one working vehicle, any of which may
   * fail part-way: as soon as one has returned, exactly one has returned True,
   * the others that returned returned False, and the tables are those of that
   * one call by itself.
   */
  lemma ExactlyOnce(s: Sys, actions: seq<Action>, v: string) returns (winner: nat)
    requires Initial(s) && ValidRun(s, actions) && CallsOnly(actions) && OneVehicle(s, v) && Working(s.t, v)
    requires var n := Final(s, actions); exists i :: 0 <= i < |n.calls| && n.calls[i].pc.Returned?
    ensures var n := Final(s, actions);
      && winner < |n.calls| == |s.calls| && n.calls[winner].pc == Returned(Faulted)
      && (forall i :: 0 <= i < |n.calls| && i != winner && n.calls[i].pc.Returned? ==>
           n.calls[i].pc.outcome == AlreadyFault)
      && n.t == AfterFault(s.t, v, n.calls[winner].reason)
      && n.t.vehicles == s.t.vehicles[v := Fault] && |n.t.missions| == |s.t.missions|
      && (forall m :: 0 <= m < |s.t.missions| ==>
            n.t.missions[m] == if s.t.missions[m] == Mission(v, Active) then Mission(v, Cancelled) else s.t.missions[m])
      && (if exists r :: 0 <= r < |s.t.records| && s.t.records[r].vehicle == v && s.t.records[r].open
          then n.t.records == s.t.records
          else
            && |n.t.records| == |s.t.records| + 1 && n.t.records[..|s.t.records|] == s.t.records
            && var added := n.t.records[|s.t.records|];
               && added.vehicle == v && added.open && added.reason == s.calls[winner].reason
               && forall m: nat :: added.mission == Some(m) <==>
                       m < |s.t.missions| && s.t.missions[m] == Mission(v, Active))
  {
    hide Initial, SerialAll, AfterFault, OutcomeOf;
    TablesRefineSerial(s, actions);
    NoHistory(s);
    OnlyCallsReturn(s, actions, v);
    var n := Final(s, actions);
    var i :| 0 <= i < |n.calls| && n.calls[i].pc.Returned?;
    assert InHistory(n, i);
    FirstWins(s.t, n.history, v);
    winner := n.history[0].id;
    assert Recorded(n, n.history[0]);
    CallsCount(s, actions);
    ReasonsKept(s, actions, winner);
    WinnerEffect(s, v, n.calls[winner].reason);
    forall j | 0 <= j < |n.calls| && j != winner && n.calls[j].pc.Returned?
      ensures n.calls[j].pc.outcome == AlreadyFault
    {
      assert InHistory(n, j);
      var k :| 0 <= k < |n.history| && n.history[k].CallReturned? && n.history[k].id == j;
      assert Recorded(n, n.history[k]);
    }
  }

  lemma {:induction false} ReasonsKept(s: Sys, actions: seq<Action>, i: nat)
    requires ValidRun(s, actions) && i < |s.calls|
    ensures i < |Final(s, actions).calls| == |s.calls| && Final(s, actions).calls[i].reason == s.calls[i].reason
    decreases |actions|
  {
    hide Apply, Enabled;
    if actions != [] {
      Touches(s, actions[0]);
      ReasonsKept(Apply(s, actions[0]), actions[1..], i);
    }
  }

  lemma {:induction false} CallsCount(s: Sys, actions: seq<Action>)
    requires ValidRun(s, actions)
    ensures |Final(s, actions).calls| == |s.calls|
    decreases |actions|
  {
    hide Apply, Enabled;
    if actions != [] {
      Touches(s, actions[0]);
      CallsCount(Apply(s, actions[0]), actions[1..]);
    }
  }

  lemma WinnerEffect(s: Sys, v: string, reason: Option<string>)
    requires Initial(s) && Working(s.t, v)
    ensures var n := AfterFault(s.t, v, reason);
      && n.vehicles == s.t.vehicles[v := Fault] && |n.missions| == |s.t.missions|
      && (forall m :: 0 <= m < |s.t.missions| ==>
            n.missions[m] == if s.t.missions[m] == Mission(v, Active) then Mission(v, Cancelled) else s.t.missions[m])
      && (if exists r :: 0 <= r < |s.t.records| && s.t.records[r].vehicle == v && s.t.records[r].open
          then n.records == s.t.records
          else
            && |n.records| == |s.t.records| + 1 && n.records[..|s.t.records|] == s.t.records
            && var added := n.records[|s.t.records|];
               && added.vehicle == v && added.open && added.reason == reason
               && forall m: nat :: added.mission == Some(m) <==>
                       m < |s.t.missions| && s.t.missions[m] == Mission(v, Active))
  {
    hide AfterFault;
    FaultEffect(s.t, v, reason);
  }

  lemma NoHistory(s: Sys)
    requires Initial(s)
    ensures s.history == []
  {
  }

  // ---- Progress -------------------------------------------------------------------------------------

  /** A call waits only for a lock holder, and a lock holder never waits. */
  lemma NoDeadlock(s: Sys, a: nat) returns (i: nat)
    requires Inv(s) && a < |s.calls| && Unfinished(s.calls[a])
    ensures Enabled(s, Statement(i))
  {
    hide CallsOk, HistoryOk;
    i := if s.calls[a].pc.Start? && s.calls[a].vehicle in s.locks then s.locks[s.calls[a].vehicle] else a;
  }

  function Left(c: Call): nat {
    match c.pc
    case Start => 5
    case Locked => 4
    case MissionCancelled => 3
    case RecordInserted => 2
    case Flagged => 1
    case _ => 0
  }

  function AllLeft(cs: seq<Call>): nat {
    Sum(seq(|cs|, i requires 0 <= i < |cs| => Left(cs[i])))
  }

  lemma LeftUpdate(cs: seq<Call>, i: nat, c: Call)
    requires i < |cs|
    ensures AllLeft(cs[i := c]) == AllLeft(cs) - Left(cs[i]) + Left(c)
  {
    hide Left;
    var lefts := seq(|cs|, j requires 0 <= j < |cs| => Left(cs[j]));
    SumUpdate(lefts, i, Left(c));
    assert lefts[i := Left(c)] == seq(|cs|, j requires 0 <= j < |cs| => Left(cs[i := c][j]));
  }

  /** How many of the actions are steps of fault calls. */
  function CallSteps(actions: seq<Action>): nat
    decreases |actions|
  {
    if actions == [] then 0
    else (if actions[0].Statement? || actions[0].Fails? then 1 else 0) + CallSteps(actions[1..])
  }

  lemma StepShrinks(s: Sys, a: Action)
    requires Enabled(s, a)
    ensures AllLeft(Apply(s, a).calls) + CallSteps([a]) <= AllLeft(s.calls)
  {
    hide AllLeft, OutcomeOf, ActiveMission, HasOpen, Merged, Unlocked;
    var n := Apply(s, a);
    if a.Statement? || a.Fails? {
      assert n.calls == s.calls[a.id := n.calls[a.id]];
      LeftUpdate(s.calls, a.id, n.calls[a.id]);
    }
  }

  lemma {:induction false} RunShrinks(s: Sys, actions: seq<Action>)
    requires ValidRun(s, actions)
    ensures AllLeft(Final(s, actions).calls) + CallSteps(actions) <= AllLeft(s.calls)
    decreases |actions|
  {
    hide Apply, Enabled, AllLeft;
    if actions != [] {
      StepShrinks(s, actions[0]);
      RunShrinks(Apply(s, actions[0]), actions[1..]);
    }
  }

  lemma LeftAtStart(cs: seq<Call>)
    requires forall i :: 0 <= i < |cs| ==> Fresh(cs[i])
    ensures AllLeft(cs) == 5 * |cs|
  {
    SumConstant(seq(|cs|, i requires 0 <= i < |cs| => Left(cs[i])), 5);
  }

  /** Whatever the other writers do, calls take at most five steps each, and one can step until all are finished. */
  lemma EveryCallEnds(s: Sys, actions: seq<Action>)
    requires Initial(s) && ValidRun(s, actions)
    ensures CallSteps(actions) <= 5 * |s.calls|
    ensures var n := Final(s, actions);
      (forall i :: !Enabled(n, Statement(i))) ==> forall j :: 0 <= j < |n.calls| ==> !Unfinished(n.calls[j])
  {
    hide Apply, Enabled, Inv, AllLeft;
    InitialOk(s);
    RunShrinks(s, actions);
    LeftAtStart(s.calls);
    RunKeeps(s, actions);
    var n := Final(s, actions);
    if j :| 0 <= j < |n.calls| && Unfinished(n.calls[j]) {
      var i := NoDeadlock(n, j);
      assert Enabled(n, Statement(i));
    }
  }
}
