/**
 * What a call that returns True leaves behind, stated over what the others do
 * while it is on its way: exactly which repairs cost it its open record, and
 * exactly which missions are active on the faulted vehicle.
 */
module FaultOutcome {
  import opened Wrappers
  import opened Sequences
  import opened Telemetry
  import opened Faults
  import opened FaultRuns

  // ---- While a call holds its vehicle ---------------------------------------------------------

  lemma FinishedStep(s: Sys, a: Action, i: nat)
    requires Enabled(s, a) && i < |s.calls| && !Unfinished(s.calls[i])
    ensures i < |Apply(s, a).calls| && Apply(s, a).calls[i] == s.calls[i]
  {
    Touches(s, a);
  }

  lemma {:induction false} FinishedStays(s: Sys, actions: seq<Action>, i: nat)
    requires ValidRun(s, actions) && i < |s.calls| && !Unfinished(s.calls[i])
    ensures i < |Final(s, actions).calls| && Final(s, actions).calls[i] == s.calls[i]
    decreases |actions|
  {
    hide Apply, Enabled;
    if actions != [] {
      FinishedStep(s, actions[0], i);
      FinishedStays(Apply(s, actions[0]), actions[1..], i);
    }
  }

  /** What a step leaves of a call that holds its vehicle: its own writes are set once. */
  lemma HolderStep(s: Sys, a: Action, i: nat)
    requires Enabled(s, a) && i < |s.calls| && Holds(s.calls[i])
    ensures var c, n := s.calls[i], Apply(s, a);
      && i < |n.calls| && n.calls[i].vehicle == c.vehicle && n.calls[i].reason == c.reason
      && (Holds(n.calls[i]) || !Unfinished(n.calls[i]))
      && (Writing(c) ==> n.calls[i].mission == c.mission && (Holds(n.calls[i]) ==> Writing(n.calls[i])))
      && (PastInsert(c) ==> n.calls[i].inserted == c.inserted && (Holds(n.calls[i]) ==> PastInsert(n.calls[i])))
  {
    hide OutcomeOf, ActiveMission, HasOpen, Merged, Unlocked, Cancelling;
  }

  predicate PastInsert(c: Call) {
    c.pc.RecordInserted? || c.pc.Flagged?
  }

  /** A call that still holds its vehicle at the end of a run has held it throughout. */
  lemma HeldThroughout(s: Sys, a: Action, rest: seq<Action>, i: nat)
    requires Enabled(s, a) && ValidRun(Apply(s, a), rest) && i < |s.calls| && Holds(s.calls[i])
    requires i < |Final(Apply(s, a), rest).calls| && Holds(Final(Apply(s, a), rest).calls[i])
    ensures i < |Apply(s, a).calls| && Holds(Apply(s, a).calls[i])
  {
    hide Apply, Enabled;
    HolderStep(s, a, i);
    if !Holds(Apply(s, a).calls[i]) {
      FinishedStays(Apply(s, a), rest, i);
    }
  }

  ghost predicate Holding(s: Sys, actions: seq<Action>, i: nat)
    requires ValidRun(s, actions)
  {
    && i < |s.calls| && Holds(s.calls[i])
    && i < |Final(s, actions).calls| && Holds(Final(s, actions).calls[i])
  }

  lemma {:induction false} HolderKeeps(s: Sys, actions: seq<Action>, i: nat)
    requires ValidRun(s, actions) && Holding(s, actions, i)
    ensures var c, d := s.calls[i], Final(s, actions).calls[i];
      && d.vehicle == c.vehicle && d.reason == c.reason
      && (Writing(c) ==> d.mission == c.mission)
      && (PastInsert(c) ==> d.inserted == c.inserted)
    decreases |actions|
  {
    hide Apply, Enabled, Holds, Writing, PastInsert;
    if actions != [] {
      HeldThroughout(s, actions[0], actions[1..], i);
      HolderStep(s, actions[0], i);
      HolderKeeps(Apply(s, actions[0]), actions[1..], i);
    }
  }

  // ---- Records of a held vehicle -----------------------------------------------------------------

  predicate IsOpen(rs: seq<Record>, r: nat, v: string) {
    r < |rs| && rs[r].vehicle == v && rs[r].open
  }

  /** No one adds a record for the vehicle, and only its own repair closes one. */
  lemma RecordStep(s: Sys, a: Action, i: nat, r: nat)
    requires Inv(s) && Enabled(s, a) && i < |s.calls| && Holds(s.calls[i])
    requires i < |Apply(s, a).calls| && Holds(Apply(s, a).calls[i])
    ensures |s.t.records| <= |Apply(s, a).t.records|
    ensures var v := s.calls[i].vehicle;
      IsOpen(Apply(s, a).t.records, r, v) <==> IsOpen(s.t.records, r, v) && a != Resolve(r)
  {
    hide HistoryOk, CallsOk, OneActive, OneOpen, OutcomeOf, ActiveMission, HasOpen, Unlocked, Cancelling, WithCancelled;
  }

  lemma {:induction false} RecordKept(s: Sys, actions: seq<Action>, i: nat, r: nat)
    requires Inv(s) && ValidRun(s, actions) && Holding(s, actions, i)
    ensures var v := s.calls[i].vehicle;
      IsOpen(Final(s, actions).t.records, r, v) <==> IsOpen(s.t.records, r, v) && !Occurs(actions, Resolve(r))
    decreases |actions|
  {
    hide Inv, Apply, Enabled, Holds, Occurs, IsOpen;
    if actions == [] {
      NoneOccur(Resolve(r));
    } else {
      var a := actions[0];
      HeldThroughout(s, a, actions[1..], i);
      HolderStep(s, a, i);
      StepKeeps(s, a);
      RecordStep(s, a, i, r);
      RecordKept(Apply(s, a), actions[1..], i, r);
      OccursFirst(actions, Resolve(r));
    }
  }

  lemma OpenIs(rs: seq<Record>, v: string)
    ensures HasOpen(rs, v) <==> exists r :: IsOpen(rs, r, v)
  {
    if i :| 0 <= i < |rs| && rs[i].vehicle == v && rs[i].open {
      assert IsOpen(rs, i, v);
    }
    if r: nat :| IsOpen(rs, r, v) {
      assert rs[r].vehicle == v && rs[r].open;
    }
  }

  lemma OpenOnce(rs: seq<Record>, v: string, q: nat, r: nat)
    requires OneOpen(rs) && IsOpen(rs, q, v) && IsOpen(rs, r, v)
    ensures q == r
  {
  }

  // ---- The commit ------------------------------------------------------------------------------------

  lemma AtCommit(s: Sys, i: nat)
    requires Inv(s) && Enabled(s, Statement(i)) && s.calls[i].pc.Flagged?
    ensures var n, c := Apply(s, Statement(i)), s.calls[i];
      && i < |n.calls| && n.calls[i].pc == Returned(Faulted)
      && n.t.vehicles == s.t.vehicles[c.vehicle := Fault]
      && (HasOpen(n.t.records, c.vehicle) <==> (c.inserted || HasOpen(s.t.records, c.vehicle)))
      && (ActiveMission(n.t.missions, c.vehicle).Some? <==>
            (c.mission.None? && ActiveMission(s.t.missions, c.vehicle).Some?))
  {
    hide HistoryOk, LocksOk, OneOpen;
    var c, n := s.calls[i], Apply(s, Statement(i));
    assert CallOk(s.t, c);
    if c.inserted {
      assert n.t.records[|s.t.records|].open;
    } else {
      assert n.t.records == s.t.records;
    }
  }

  /** A call that holds its vehicle never waits. */
  lemma HolderRuns(s: Sys, i: nat)
    requires i < |s.calls| && Holds(s.calls[i])
    ensures Enabled(s, Statement(i))
  {
  }

  /** A run that takes call `i` from its lock to its insert, and on from there until only its commit is left. */
  ghost predicate OnItsWay(s: Sys, toInsert: seq<Action>, toCommit: seq<Action>, i: nat) {
    && i < |s.calls| && s.calls[i].pc.Locked?
    && ValidRun(s, toInsert)
    && var at := Final(s, toInsert);
       && i < |at.calls| && at.calls[i].pc.MissionCancelled? && Enabled(at, Statement(i))
       && ValidRun(Apply(at, Statement(i)), toCommit)
       && var last := Final(Apply(at, Statement(i)), toCommit);
          i < |last.calls| && last.calls[i].pc.Flagged? && Enabled(last, Statement(i))
  }

  ghost function Committed(s: Sys, toInsert: seq<Action>, toCommit: seq<Action>, i: nat): Sys
    requires OnItsWay(s, toInsert, toCommit, i)
  {
    Apply(Final(Apply(Final(s, toInsert), Statement(i)), toCommit), Statement(i))
  }

  lemma Inserts(s: Sys, i: nat)
    requires Inv(s) && Enabled(s, Statement(i)) && s.calls[i].pc.MissionCancelled?
    ensures var n := Apply(s, Statement(i));
      && i < |n.calls| && n.calls[i].pc.RecordInserted? && n.calls[i].vehicle == s.calls[i].vehicle
      && n.calls[i].inserted == !HasOpen(s.t.records, s.calls[i].vehicle) && n.t.records == s.t.records
  {
  }

  /**
   * From the lock on: a True leaves an open record unless one was open, was left
   * alone until the call's insert met it, and was resolved after that, before the
   * commit. So it always leaves one if none was open when the call had the lock.
   */
  lemma RecordIff(s: Sys, toInsert: seq<Action>, toCommit: seq<Action>, i: nat)
    requires Inv(s) && OnItsWay(s, toInsert, toCommit, i)
    ensures var n, v := Committed(s, toInsert, toCommit, i), s.calls[i].vehicle;
      && i < |n.calls| && n.calls[i].pc == Returned(Faulted)
      && (HasOpen(n.t.records, v) <==>
            forall r :: IsOpen(s.t.records, r, v) && Occurs(toCommit, Resolve(r)) ==> Occurs(toInsert, Resolve(r)))
      && (!HasOpen(s.t.records, v) ==> HasOpen(n.t.records, v))
  {
    hide Inv, Apply, Enabled, ValidRun, Final, HasOpen, IsOpen, Occurs, OneOpen;
    var v := s.calls[i].vehicle;
    var at := Final(s, toInsert);
    RunKeeps(s, toInsert);
    HolderKeeps(s, toInsert, i);
    Inserts(at, i);
    var met := Apply(at, Statement(i));
    StepKeeps(at, Statement(i));
    var last := Final(met, toCommit);
    RunKeeps(met, toCommit);
    HolderKeeps(met, toCommit, i);
    AtCommit(last, i);
    Indexes(s);
    OpenIs(s.t.records, v);
    OpenIs(at.t.records, v);
    OpenIs(last.t.records, v);
    forall r
      ensures IsOpen(at.t.records, r, v) <==> IsOpen(s.t.records, r, v) && !Occurs(toInsert, Resolve(r))
      ensures IsOpen(last.t.records, r, v) <==> IsOpen(at.t.records, r, v) && !Occurs(toCommit, Resolve(r))
      ensures forall q :: IsOpen(s.t.records, q, v) && IsOpen(s.t.records, r, v) ==> q == r
    {
      RecordKept(s, toInsert, i, r);
      RecordKept(met, toCommit, i, r);
      forall q | IsOpen(s.t.records, q, v) && IsOpen(s.t.records, r, v) ensures q == r {
        OpenOnce(s.t.records, v, q, r);
      }
    }
  }

  lemma Indexes(s: Sys)
    requires Inv(s)
    ensures OneOpen(s.t.records) && OneActive(s.t.missions)
  {
  }

  /** The same in every reachable state in which the call has its lock. */
  lemma TrueLeavesRecordIff(start: Sys, run: seq<Action>, toInsert: seq<Action>, toCommit: seq<Action>, i: nat)
    requires Initial(start) && ValidRun(start, run) && OnItsWay(Final(start, run), toInsert, toCommit, i)
    ensures var s := Final(start, run);
      var n, v := Committed(s, toInsert, toCommit, i), s.calls[i].vehicle;
      && i < |n.calls| && n.calls[i].pc == Returned(Faulted)
      && (HasOpen(n.t.records, v) <==>
            forall r :: IsOpen(s.t.records, r, v) && Occurs(toCommit, Resolve(r)) ==> Occurs(toInsert, Resolve(r)))
      && (!HasOpen(s.t.records, v) ==> HasOpen(n.t.records, v))
  {
    hide Inv, Initial, ValidRun, Final, OnItsWay, Committed, HasOpen, IsOpen, Occurs;
    InitialOk(start);
    RunKeeps(start, run);
    RecordIff(Final(start, run), toInsert, toCommit, i);
  }

  // ---- Missions of a held vehicle ------------------------------------------------------------------------

  predicate IsMission(ms: seq<Mission>, m: nat, v: string) {
    m < |ms| && ms[m].vehicle == v
  }

  predicate IsActive(ms: seq<Mission>, m: nat, v: string) {
    IsMission(ms, m, v) && ms[m].status.Active?
  }

  /** A mission of the vehicle stops being active only by its own completion, and starts active. */
  lemma MissionStep(s: Sys, a: Action, i: nat, m: nat)
    requires Inv(s) && Enabled(s, a) && i < |s.calls| && Holds(s.calls[i])
    requires i < |Apply(s, a).calls| && Holds(Apply(s, a).calls[i])
    ensures |s.t.missions| <= |Apply(s, a).t.missions|
    ensures var v, n := s.calls[i].vehicle, Apply(s, a);
      && (m < |s.t.missions| ==> IsMission(n.t.missions, m, v) == IsMission(s.t.missions, m, v))
      && (m >= |s.t.missions| && IsMission(n.t.missions, m, v) ==> a == StartMission(v))
      && (IsMission(n.t.missions, m, v) ==>
            (IsActive(n.t.missions, m, v) <==>
              (m < |s.t.missions| ==> IsActive(s.t.missions, m, v)) && a != CompleteMission(m)))
  {
    hide HistoryOk, OneActive, OneOpen, OutcomeOf, ActiveMission, HasOpen, Unlocked;
    if a.Statement? && s.calls[a.id].pc.Flagged? {
      assert CallOk(s.t, s.calls[a.id]);
    }
  }

  lemma {:induction false} MissionKept(s: Sys, actions: seq<Action>, i: nat, m: nat)
    requires Inv(s) && ValidRun(s, actions) && Holding(s, actions, i)
    ensures |s.t.missions| <= |Final(s, actions).t.missions|
    ensures var v, n := s.calls[i].vehicle, Final(s, actions);
      && (m < |s.t.missions| ==> IsMission(n.t.missions, m, v) == IsMission(s.t.missions, m, v))
      && (m >= |s.t.missions| && IsMission(n.t.missions, m, v) ==> Occurs(actions, StartMission(v)))
      && (IsMission(n.t.missions, m, v) ==>
            (IsActive(n.t.missions, m, v) <==>
              (m < |s.t.missions| ==> IsActive(s.t.missions, m, v)) && !Occurs(actions, CompleteMission(m))))
    decreases |actions|
  {
    hide Inv, Apply, Enabled, Holds, Occurs, IsMission, IsActive;
    if actions == [] {
      NoneOccur(CompleteMission(m));
      Activity(s.t.missions, m, s.calls[i].vehicle);
    } else {
      var a := actions[0];
      HeldThroughout(s, a, actions[1..], i);
      HolderStep(s, a, i);
      StepKeeps(s, a);
      MissionStep(s, a, i, m);
      CompletesKnown(s, a, m);
      MissionKept(Apply(s, a), actions[1..], i, m);
      OccursFirst(actions, CompleteMission(m));
      OccursFirst(actions, StartMission(s.calls[i].vehicle));
    }
  }

  lemma Activity(ms: seq<Mission>, m: nat, v: string)
    ensures IsMission(ms, m, v) ==> m < |ms|
  {
  }

  lemma CompletesKnown(s: Sys, a: Action, m: nat)
    requires Enabled(s, a)
    ensures a == CompleteMission(m) ==> m < |s.t.missions|
  {
  }

  /** A run that takes call `i`, past the guard, from its cancel until only its commit is left. */
  ghost predicate OnFromCancel(s: Sys, toCommit: seq<Action>, i: nat) {
    && i < |s.calls| && s.calls[i].pc.Locked? && OutcomeOf(s.t, s.calls[i].vehicle) == Faulted
    && Enabled(s, Statement(i)) && ValidRun(Apply(s, Statement(i)), toCommit)
    && var last := Final(Apply(s, Statement(i)), toCommit);
       i < |last.calls| && last.calls[i].pc.Flagged? && Enabled(last, Statement(i))
  }

  lemma Cancels(s: Sys, i: nat)
    requires Inv(s) && i < |s.calls| && s.calls[i].pc.Locked? && OutcomeOf(s.t, s.calls[i].vehicle) == Faulted
    requires Enabled(s, Statement(i))
    ensures var n := Apply(s, Statement(i));
      && i < |n.calls| && n.calls[i].pc.MissionCancelled? && n.calls[i].vehicle == s.calls[i].vehicle
      && n.calls[i].mission == ActiveMission(s.t.missions, s.calls[i].vehicle) && n.t.missions == s.t.missions
  {
  }

  lemma ActiveIs(ms: seq<Mission>, v: string)
    ensures ActiveMission(ms, v).Some? <==> exists m :: IsActive(ms, m, v)
  {
    var found := ActiveMission(ms, v);
    if found.Some? {
      assert IsActive(ms, found.value, v);
    }
    if m: nat :| IsActive(ms, m, v) {
      assert ms[m] == Mission(v, Active);
    }
  }

  /** Mission `m` of the vehicle was started after state `s`, and by state `n`. */
  predicate StartedBetween(s: Sys, n: Sys, m: nat, v: string) {
    |s.t.missions| <= m && IsMission(n.t.missions, m, v)
  }

  /**
   * A mission is active on the vehicle that a True leaves in fault exactly when
   * the call's cancel found none, and one was started after it, before the
   * commit, that no one completed by then.
   */
  lemma MissionIff(s: Sys, toCommit: seq<Action>, i: nat)
    requires Inv(s) && OnFromCancel(s, toCommit, i)
    ensures var last, v := Final(Apply(s, Statement(i)), toCommit), s.calls[i].vehicle;
      var n := Apply(last, Statement(i));
      && i < |n.calls| && n.calls[i].pc == Returned(Faulted)
      && (ActiveMission(n.t.missions, v).Some? <==>
            && ActiveMission(s.t.missions, v).None?
            && exists m :: StartedBetween(s, last, m, v) && !Occurs(toCommit, CompleteMission(m)))
      && (forall m :: StartedBetween(s, last, m, v) ==> Occurs(toCommit, StartMission(v)))
  {
    hide Inv, Apply, Enabled, ValidRun, Final, ActiveMission, IsMission, IsActive, Occurs, OutcomeOf;
    var v := s.calls[i].vehicle;
    Cancels(s, i);
    var after := Apply(s, Statement(i));
    StepKeeps(s, Statement(i));
    RunKeeps(after, toCommit);
    HolderKeeps(after, toCommit, i);
    var last := Final(after, toCommit);
    AtCommit(last, i);
    ActiveIs(s.t.missions, v);
    ActiveIs(last.t.missions, v);
    forall m: nat
      ensures IsMission(last.t.missions, m, v) ==>
        (IsActive(last.t.missions, m, v) <==>
          (m < |s.t.missions| ==> IsActive(s.t.missions, m, v)) && !Occurs(toCommit, CompleteMission(m)))
      ensures IsActive(last.t.missions, m, v) ==> IsMission(last.t.missions, m, v)
      ensures StartedBetween(s, last, m, v) ==> Occurs(toCommit, StartMission(v))
    {
      MissionKept(after, toCommit, i, m);
      ActiveMissionIs(last.t.missions, m, v);
    }
    if ActiveMission(s.t.missions, v).None? {
      if m: nat :| IsActive(last.t.missions, m, v) {
        assert StartedBetween(s, last, m, v);
      }
      if m: nat :| StartedBetween(s, last, m, v) && !Occurs(toCommit, CompleteMission(m)) {
        assert IsActive(last.t.missions, m, v);
      }
    }
  }

  lemma ActiveMissionIs(ms: seq<Mission>, m: nat, v: string)
    ensures IsActive(ms, m, v) ==> IsMission(ms, m, v)
  {
  }

  /** The same in every reachable state in which the call is about to cancel. */
  lemma MissionAfterTrueIff(start: Sys, run: seq<Action>, toCommit: seq<Action>, i: nat)
    requires Initial(start) && ValidRun(start, run) && OnFromCancel(Final(start, run), toCommit, i)
    ensures var s := Final(start, run);
      var last, v := Final(Apply(s, Statement(i)), toCommit), s.calls[i].vehicle;
      var n := Apply(last, Statement(i));
      && i < |n.calls| && n.calls[i].pc == Returned(Faulted)
      && (ActiveMission(n.t.missions, v).Some? <==>
            && ActiveMission(s.t.missions, v).None?
            && exists m :: StartedBetween(s, last, m, v) && !Occurs(toCommit, CompleteMission(m)))
      && (forall m :: StartedBetween(s, last, m, v) ==> Occurs(toCommit, StartMission(v)))
  {
    hide Inv, Initial, Apply, Enabled, ValidRun, Final, ActiveMission, Occurs, StartedBetween;
    InitialOk(start);
    RunKeeps(start, run);
    MissionIff(Final(start, run), toCommit, i);
  }

  // ---- What a True writes ----------------------------------------------------------------------------------

  /** The rows that the commit of a call changes, from what its statements found. */
  lemma CommitRows(s: Sys, i: nat)
    requires Inv(s) && Enabled(s, Statement(i)) && s.calls[i].pc.Flagged?
    ensures var n, c := Apply(s, Statement(i)).t, s.calls[i];
      && n.vehicles == s.t.vehicles[c.vehicle := Fault] && |n.missions| == |s.t.missions|
      && (forall m :: 0 <= m < |s.t.missions| ==>
            n.missions[m] == if c.mission == Some(m) then Mission(c.vehicle, Cancelled) else s.t.missions[m])
      && n.records == if c.inserted then s.t.records + [Record(c.vehicle, c.mission, c.reason, true)] else s.t.records
  {
    assert CallOk(s.t, s.calls[i]);
  }

  /**
   * Until its commit a call writes nothing that others see. It raises for an
   * unknown vehicle, returns False for one in fault once it has the lock, and goes
   * on otherwise.
   */
  lemma BeforeCommit(s: Sys, i: nat)
    requires Enabled(s, Statement(i)) && !s.calls[i].pc.Flagged?
    ensures var n, c := Apply(s, Statement(i)), s.calls[i];
      && n.t == s.t && i < |n.calls|
      && (c.pc == Start ==> (n.calls[i].pc == Returned(Unknown) <==> c.vehicle !in s.t.vehicles))
      && (c.pc == Start ==> (n.calls[i].pc == Locked <==> c.vehicle in s.t.vehicles))
      && (c.pc == Locked && c.vehicle in s.t.vehicles ==>
            (n.calls[i].pc == Returned(AlreadyFault) <==> s.t.vehicles[c.vehicle] == Fault))
      && n.calls[i].pc != Returned(Faulted)
  {
  }

  /** A call past the guard, from its cancel through its insert until only its commit is left. */
  ghost predicate OnThrough(s: Sys, toInsert: seq<Action>, toCommit: seq<Action>, i: nat) {
    && i < |s.calls| && s.calls[i].pc.Locked? && OutcomeOf(s.t, s.calls[i].vehicle) == Faulted
    && Enabled(s, Statement(i)) && ValidRun(Apply(s, Statement(i)), toInsert)
    && var at := Final(Apply(s, Statement(i)), toInsert);
       && i < |at.calls| && at.calls[i].pc.MissionCancelled? && Enabled(at, Statement(i))
       && ValidRun(Apply(at, Statement(i)), toCommit)
       && var last := Final(Apply(at, Statement(i)), toCommit);
          i < |last.calls| && last.calls[i].pc.Flagged? && Enabled(last, Statement(i))
  }

  /**
   * In every reachable state in which a call is about to cancel, whatever the
   * others do until it commits its True: it sets its vehicle to fault, cancels the
   * mission that was active at its cancel, and adds a record iff none of its vehicle's
   * was open at its insert: open, for the vehicle, with the call's reason and the
   * cancelled mission's id.
   */
  lemma RowsOfTrue(start: Sys, run: seq<Action>, toInsert: seq<Action>, toCommit: seq<Action>, i: nat)
    requires Initial(start) && ValidRun(start, run) && OnThrough(Final(start, run), toInsert, toCommit, i)
    ensures var s := Final(start, run);
      var at := Final(Apply(s, Statement(i)), toInsert);
      var last := Final(Apply(at, Statement(i)), toCommit);
      var n, v := Apply(last, Statement(i)).t, s.calls[i].vehicle;
      && n.vehicles == last.t.vehicles[v := Fault]
      && |n.missions| == |last.t.missions| >= |s.t.missions|
      && (forall m :: 0 <= m < |n.missions| ==>
            n.missions[m] == if m < |s.t.missions| && s.t.missions[m] == Mission(v, Active)
                             then Mission(v, Cancelled) else last.t.missions[m])
      && (if exists r :: 0 <= r < |at.t.records| && at.t.records[r].vehicle == v && at.t.records[r].open
          then n.records == last.t.records
          else
            && |n.records| == |last.t.records| + 1 && n.records[..|last.t.records|] == last.t.records
            && var added := n.records[|last.t.records|];
               && added.vehicle == v && added.open && added.reason == s.calls[i].reason
               && forall m: nat :: added.mission == Some(m) <==>
                       m < |s.t.missions| && s.t.missions[m] == Mission(v, Active))
  {
    hide Inv, Initial, Apply, Enabled, ValidRun, Final, ActiveMission, OutcomeOf, IsMission, IsActive, Occurs;
    InitialOk(start);
    RunKeeps(start, run);
    var s := Final(start, run);
    Cancels(s, i);
    var cancelled := Apply(s, Statement(i));
    StepKeeps(s, Statement(i));
    KeepsReason(s, i);
    RunKeeps(cancelled, toInsert);
    HolderKeeps(cancelled, toInsert, i);
    MissionKept(cancelled, toInsert, i, 0);
    var at := Final(cancelled, toInsert);
    Inserts(at, i);
    KeepsReason(at, i);
    var met := Apply(at, Statement(i));
    StepKeeps(at, Statement(i));
    RunKeeps(met, toCommit);
    HolderKeeps(met, toCommit, i);
    MissionKept(met, toCommit, i, 0);
    CommitRows(Final(met, toCommit), i);
    TheMission(s, s.calls[i].vehicle);
  }

  lemma KeepsReason(s: Sys, i: nat)
    requires Enabled(s, Statement(i)) && (s.calls[i].pc.Locked? || s.calls[i].pc.MissionCancelled?)
    ensures var n := Apply(s, Statement(i));
      && i < |n.calls| && n.calls[i].reason == s.calls[i].reason
      && n.calls[i].vehicle == s.calls[i].vehicle
      && |n.t.missions| == |s.t.missions|
      && (s.calls[i].pc.MissionCancelled? ==> n.calls[i].mission == s.calls[i].mission)
  {
  }

  lemma TheMission(s: Sys, v: string)
    requires Inv(s)
    ensures forall m: nat :: ActiveMission(s.t.missions, v) == Some(m) <==>
      m < |s.t.missions| && s.t.missions[m] == Mission(v, Active)
  {
  }

  // ---- Whole runs ----------------------------------------------------------------------------------------------

  /** The action closes the record that call `i`'s insert met. */
  predicate Races(s: Sys, a: Action, i: nat) {
    && a.Resolve? && i < |s.calls| && PastInsert(s.calls[i]) && !s.calls[i].inserted
    && IsOpen(s.t.records, a.record, s.calls[i].vehicle)
  }

  function RacedBy(s: Sys, a: Action): set<nat> {
    set i: nat | 0 <= i < |s.calls| && Races(s, a, i)
  }

  /** Every call that the run makes return True leaves an open record at its commit. */
  ghost predicate RecordAfterTrue(s: Sys, actions: seq<Action>)
    requires ValidRun(s, actions)
    decreases |actions|
  {
    actions == [] ||
    (var a, n := actions[0], Apply(s, actions[0]);
     && (a.Statement? && s.calls[a.id].pc.Flagged? ==> HasOpen(n.t.records, s.calls[a.id].vehicle))
     && RecordAfterTrue(n, actions[1..]))
  }

  /** No call commits a True after its record has been closed; `raced` are those it has happened to. */
  ghost predicate NoTrueRaced(s: Sys, actions: seq<Action>, raced: set<nat>)
    requires ValidRun(s, actions)
    decreases |actions|
  {
    actions == [] ||
    (var a := actions[0];
     && (a.Statement? && s.calls[a.id].pc.Flagged? ==> a.id !in raced)
     && NoTrueRaced(Apply(s, a), actions[1..], raced + RacedBy(s, a)))
  }

  /** A call past its insert has no record to show exactly when it has been raced. */
  ghost predicate Shown(s: Sys, raced: set<nat>) {
    && (forall i :: i in raced ==> i < |s.calls| && (PastInsert(s.calls[i]) || !Unfinished(s.calls[i])))
    && (forall i :: 0 <= i < |s.calls| && PastInsert(s.calls[i]) ==>
          (i !in raced <==> s.calls[i].inserted || HasOpen(s.t.records, s.calls[i].vehicle)))
  }

  /** A call that was past its insert before the step. */
  lemma ShownKept(s: Sys, a: Action, raced: set<nat>, i: nat)
    requires Inv(s) && Shown(s, raced) && Enabled(s, a) && i < |s.calls| && PastInsert(s.calls[i])
    requires i < |Apply(s, a).calls| && PastInsert(Apply(s, a).calls[i])
    ensures var n := Apply(s, a);
      i !in raced + RacedBy(s, a) <==> n.calls[i].inserted || HasOpen(n.t.records, n.calls[i].vehicle)
  {
    hide Inv, Enabled, Apply, HasOpen, IsOpen, OneOpen;
    var n, v := Apply(s, a), s.calls[i].vehicle;
    HolderStep(s, a, i);
    Indexes(s);
    OpenIs(s.t.records, v);
    OpenIs(n.t.records, v);
    forall r ensures IsOpen(n.t.records, r, v) <==> IsOpen(s.t.records, r, v) && a != Resolve(r) {
      RecordStep(s, a, i, r);
    }
    if a.Resolve? && IsOpen(s.t.records, a.record, v) {
      forall q | IsOpen(s.t.records, q, v) ensures q == a.record {
        OpenOnce(s.t.records, v, q, a.record);
      }
    }
  }

  /** Who can be past the insert after a step, and who is never again. */
  lemma PastStep(s: Sys, a: Action, i: nat)
    requires Enabled(s, a) && i < |s.calls|
    ensures var n := Apply(s, a);
      && |n.calls| == |s.calls|
      && (PastInsert(s.calls[i]) || !Unfinished(s.calls[i]) ==> PastInsert(n.calls[i]) || !Unfinished(n.calls[i]))
      && (PastInsert(n.calls[i]) && !PastInsert(s.calls[i]) ==> a == Statement(i) && s.calls[i].pc.MissionCancelled?)
  {
    hide OutcomeOf, ActiveMission, HasOpen, Merged, Unlocked, Cancelling;
  }

  lemma StepShown(s: Sys, a: Action, raced: set<nat>)
    requires Inv(s) && Shown(s, raced) && Enabled(s, a)
    ensures Shown(Apply(s, a), raced + RacedBy(s, a))
  {
    hide Inv, Enabled, Apply, HasOpen, Races, PastInsert, Unfinished;
    var n, now := Apply(s, a), raced + RacedBy(s, a);
    forall i | 0 <= i < |s.calls|
      ensures i in now ==> i < |n.calls| && (PastInsert(n.calls[i]) || !Unfinished(n.calls[i]))
      ensures i < |n.calls| && PastInsert(n.calls[i]) ==>
        (i !in now <==> n.calls[i].inserted || HasOpen(n.t.records, n.calls[i].vehicle))
    {
      PastStep(s, a, i);
      NotRaced(s, a, i);
      if PastInsert(n.calls[i]) {
        if PastInsert(s.calls[i]) {
          ShownKept(s, a, raced, i);
        } else {
          Inserts(s, i);
        }
      }
    }
    Same(s, a);
  }

  lemma NotRaced(s: Sys, a: Action, i: nat)
    requires i < |s.calls|
    ensures Races(s, a, i) ==> PastInsert(s.calls[i])
    ensures s.calls[i].pc.MissionCancelled? ==> Unfinished(s.calls[i]) && !PastInsert(s.calls[i]) && !Races(s, a, i)
  {
  }

  lemma Same(s: Sys, a: Action)
    requires Enabled(s, a)
    ensures |Apply(s, a).calls| == |s.calls|
  {
  }

  lemma {:induction false} RecordsIff(s: Sys, actions: seq<Action>, raced: set<nat>)
    requires Inv(s) && Shown(s, raced) && ValidRun(s, actions)
    ensures RecordAfterTrue(s, actions) <==> NoTrueRaced(s, actions, raced)
    decreases |actions|
  {
    hide Inv, Apply, Enabled, HasOpen, RacedBy;
    if actions != [] {
      var a := actions[0];
      if a.Statement? {
        InRange(s, a.id);
        if s.calls[a.id].pc.Flagged? {
          AtCommit(s, a.id);
        }
      }
      StepKeeps(s, a);
      StepShown(s, a, raced);
      RecordsIff(Apply(s, a), actions[1..], raced + RacedBy(s, a));
    }
  }

  lemma InRange(s: Sys, i: nat)
    requires Enabled(s, Statement(i))
    ensures i < |s.calls|
  {
  }

  /**
   * Over any run: every True leaves an open record exactly when none is committed
   * after someone has resolved the record that its insert met.
   */
  lemma TruesLeaveRecordsIff(s: Sys, actions: seq<Action>)
    requires Initial(s) && ValidRun(s, actions)
    ensures RecordAfterTrue(s, actions) <==> NoTrueRaced(s, actions, {})
  {
    InitialOk(s);
    RecordsIff(s, actions, {});
  }

  // ---- The record that a True may lack ------------------------------------------------------------------

  /** One vehicle at work whose earlier record is still open, and one call to fault it. */
  const UNREPAIRED: Sys := Sys(
    Tables(map["v" := Idle], [], [Record("v", None, None, true)]),
    [Call("v", None, Start, None, false)], map[], [])

  const RACE: seq<Action> := [Statement(0), Statement(0), Statement(0), Resolve(0), Statement(0), Statement(0)]

  lemma RunStep(s: Sys, a: Action, rest: seq<Action>)
    requires Enabled(s, a) && ValidRun(Apply(s, a), rest)
    ensures ValidRun(s, [a] + rest) && Final(s, [a] + rest) == Final(Apply(s, a), rest)
  {
    assert ([a] + rest)[1..] == rest;
  }

  /** The call on its way, with the record it met still open or not. */
  function OnRace(pc: Pc, open: bool): Sys {
    Sys(Tables(map["v" := Idle], [], [Record("v", None, None, open)]), [Call("v", None, pc, None, false)],
      map["v" := 0], [])
  }

  lemma RaceToInsert()
    ensures var call := Statement(0);
      && Enabled(UNREPAIRED, call) && Apply(UNREPAIRED, call) == OnRace(Locked, true)
      && Enabled(OnRace(Locked, true), call) && Apply(OnRace(Locked, true), call) == OnRace(MissionCancelled, true)
      && Enabled(OnRace(MissionCancelled, true), call)
      && Apply(OnRace(MissionCancelled, true), call) == OnRace(RecordInserted, true)
  {
    assert OnRace(MissionCancelled, true).t.records[0].open;
  }

  lemma RaceToCommit()
    ensures var call := Statement(0);
      && Enabled(OnRace(RecordInserted, true), Resolve(0))
      && Apply(OnRace(RecordInserted, true), Resolve(0)) == OnRace(RecordInserted, false)
      && Enabled(OnRace(RecordInserted, false), call)
      && Apply(OnRace(RecordInserted, false), call) == OnRace(Flagged, false)
      && Enabled(OnRace(Flagged, false), call)
  {
  }

  lemma RaceLost()
    requires Enabled(OnRace(Flagged, false), Statement(0))
    ensures var n := Apply(OnRace(Flagged, false), Statement(0));
      && |n.calls| == 1 && n.calls[0].pc == Returned(Faulted)
      && n.t.vehicles == map["v" := Fault] && !HasOpen(n.t.records, "v")
  {
  }

  /** The insert meets the open record, which is resolved before the call commits: True, and no open record. */
  lemma TrueWithoutRecord()
    ensures Initial(UNREPAIRED) && ValidRun(UNREPAIRED, RACE)
    ensures var n := Final(UNREPAIRED, RACE);
      && |n.calls| == 1 && n.calls[0].pc == Returned(Faulted)
      && n.t.vehicles == map["v" := Fault] && !HasOpen(n.t.records, "v")
  {
    hide ValidRun, Final, Apply, Enabled, OnRace, HasOpen;
    var call := Statement(0);
    RaceToInsert();
    RaceToCommit();
    RaceLost();
    NoSteps(Apply(OnRace(Flagged, false), call));
    RunStep(OnRace(Flagged, false), call, []);
    RunStep(OnRace(RecordInserted, false), call, [call] + []);
    RunStep(OnRace(RecordInserted, true), Resolve(0), [call] + ([call] + []));
    RunStep(OnRace(MissionCancelled, true), call, [Resolve(0)] + ([call] + ([call] + [])));
    RunStep(OnRace(Locked, true), call, [call] + ([Resolve(0)] + ([call] + ([call] + []))));
    RunStep(UNREPAIRED, call, [call] + ([call] + ([Resolve(0)] + ([call] + ([call] + [])))));
    assert RACE == [call] + ([call] + ([call] + ([Resolve(0)] + ([call] + ([call] + [])))));
  }

  lemma NoSteps(s: Sys)
    ensures ValidRun(s, []) && Final(s, []) == s
  {
  }
}
