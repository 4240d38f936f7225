/**
 * What every interleaving of fault calls with status updates, mission changes
 * and repairs keeps, and how often a vehicle can be faulted.
 */
module FaultRuns {
  import opened Wrappers
  import opened Telemetry
  import opened Faults

  /** A call's uncommitted writes are still valid against the committed tables. */
  ghost predicate CallOk(t: Tables, c: Call) {
    && (Holds(c) ==> c.vehicle in t.vehicles)
    && (Writing(c) ==> !t.vehicles[c.vehicle].Fault?)
    && (c.mission.Some? && Writing(c) ==>
         c.mission.value < |t.missions| && t.missions[c.mission.value] == Mission(c.vehicle, Active))
    && (c.inserted && Writing(c) ==> !HasOpen(t.records, c.vehicle))
    && (c.pc.Start? || c.pc.Locked? ==> c.mission.None? && !c.inserted)
    && (c.pc.MissionCancelled? ==> !c.inserted)
  }

  ghost predicate LocksOk(s: Sys) {
    && (forall v :: v in s.locks ==>
          s.locks[v] < |s.calls| && Holds(s.calls[s.locks[v]]) && s.calls[s.locks[v]].vehicle == v)
    && (forall i :: 0 <= i < |s.calls| && Holds(s.calls[i]) ==>
          s.calls[i].vehicle in s.locks && s.locks[s.calls[i].vehicle] == i)
  }

  ghost predicate CallsOk(s: Sys) {
    forall i :: 0 <= i < |s.calls| ==> CallOk(s.t, s.calls[i])
  }

  /** The history names exactly the calls that returned, with what they returned, each once. */
  ghost predicate HistoryOk(s: Sys) {
    && (forall k :: 0 <= k < |s.history| && s.history[k].CallReturned? ==> Recorded(s, s.history[k]))
    && (forall j, k :: 0 <= j < k < |s.history| && s.history[j].CallReturned? && s.history[k].CallReturned? ==>
          s.history[j].id != s.history[k].id)
    && (forall i :: 0 <= i < |s.calls| && s.calls[i].pc.Returned? ==> InHistory(s, i))
  }

  predicate Recorded(s: Sys, e: Effect)
    requires e.CallReturned?
  {
    && e.id < |s.calls| && s.calls[e.id].pc == Returned(e.outcome)
    && s.calls[e.id].vehicle == e.vehicle && s.calls[e.id].reason == e.reason
  }

  predicate InHistory(s: Sys, i: nat) {
    exists k :: 0 <= k < |s.history| && s.history[k].CallReturned? && s.history[k].id == i
  }

  ghost predicate Inv(s: Sys) {
    OneActive(s.t.missions) && OneOpen(s.t.records) && LocksOk(s) && CallsOk(s) && HistoryOk(s)
  }

  lemma InitialOk(s: Sys)
    requires Initial(s)
    ensures Inv(s)
  {
  }

  // ---- One step -----------------------------------------------------------------------------

  /** A step changes one call at most. */
  lemma Touches(s: Sys, a: Action)
    requires Enabled(s, a)
    ensures var n := Apply(s, a);
      && |n.calls| == |s.calls|
      && (forall j :: 0 <= j < |s.calls| && !((a.Statement? || a.Fails?) && a.id == j) ==> n.calls[j] == s.calls[j])
      && ((a.Statement? || a.Fails?) ==>
           n.calls[a.id].vehicle == s.calls[a.id].vehicle && n.calls[a.id].reason == s.calls[a.id].reason)
  {
  }

  lemma StepLocks(s: Sys, a: Action)
    requires Inv(s) && Enabled(s, a)
    ensures LocksOk(Apply(s, a))
  {
    hide CallsOk, HistoryOk, OneActive, OneOpen, Merged, ActiveMission, HasOpen, OutcomeOf, Cancelling;
    var n := Apply(s, a);
    if a.Statement? || a.Fails? {
      LocksFollow(s, n, a.id);
    }
  }

  /** The lock table follows the call that moved: it took its lock, kept it, or gave it up. */
  lemma LocksFollow(s: Sys, n: Sys, i: nat)
    requires LocksOk(s) && i < |s.calls| && |n.calls| == |s.calls|
    requires n.calls == s.calls[i := n.calls[i]] && n.calls[i].vehicle == s.calls[i].vehicle
    requires
      || (n.locks == s.locks && Holds(n.calls[i]) == Holds(s.calls[i]))
      || (n.locks == s.locks[s.calls[i].vehicle := i] && Holds(n.calls[i]) && s.calls[i].vehicle !in s.locks)
      || (n.locks == Unlocked(s, i) && !Holds(n.calls[i]))
    ensures LocksOk(n)
  {
    hide Holds;
  }

  /** What a call has written survives a step of anyone else. */
  lemma OthersKeep(s: Sys, a: Action, j: nat)
    requires Inv(s) && Enabled(s, a) && j < |s.calls|
    requires (a.Statement? || a.Fails?) ==> a.id != j
    ensures CallOk(Apply(s, a).t, s.calls[j])
  {
    hide HistoryOk, OneActive, OneOpen;
    var c, n := s.calls[j], Apply(s, a);
    assert CallOk(s.t, c);
    if a.Statement? && s.calls[a.id].pc.Flagged? {
      var d := s.calls[a.id];
      assert CallOk(s.t, d);
      assert Holds(c) ==> c.vehicle != d.vehicle;
      StillNoOpen(s.t.records, n.t.records, c.vehicle, d.vehicle);
    } else if a.Resolve? && HasOpen(n.t.records, c.vehicle) {
      var i :| 0 <= i < |n.t.records| && n.t.records[i].vehicle == c.vehicle && n.t.records[i].open;
      assert s.t.records[i].open;
    }
  }

  lemma StillNoOpen(rs: seq<Record>, ns: seq<Record>, v: string, w: string)
    requires rs <= ns && |ns| <= |rs| + 1 && (|ns| > |rs| ==> ns[|rs|].vehicle == w)
    ensures v != w ==> HasOpen(ns, v) == HasOpen(rs, v)
  {
    if i :| 0 <= i < |rs| && rs[i].vehicle == v && rs[i].open {
      assert ns[i].open;
    }
  }

  lemma OwnStep(s: Sys, i: nat)
    requires Inv(s) && Enabled(s, Statement(i))
    ensures CallOk(Apply(s, Statement(i)).t, Apply(s, Statement(i)).calls[i])
  {
    hide HistoryOk, OneActive, OneOpen, LocksOk;
    assert CallOk(s.t, s.calls[i]);
  }

  lemma StepCalls(s: Sys, a: Action)
    requires Inv(s) && Enabled(s, a)
    ensures CallsOk(Apply(s, a))
  {
    hide Inv, CallOk, Apply, Enabled;
    var n := Apply(s, a);
    Touches(s, a);
    forall j | 0 <= j < |n.calls| ensures CallOk(n.t, n.calls[j]) {
      if (a.Statement? || a.Fails?) && a.id == j {
        if a.Statement? {
          OwnStep(s, j);
        } else {
          FailedOk(s, j);
        }
      } else {
        OthersKeep(s, a, j);
      }
    }
  }

  lemma FailedOk(s: Sys, i: nat)
    requires Enabled(s, Fails(i))
    ensures CallOk(Apply(s, Fails(i)).t, Apply(s, Fails(i)).calls[i])
  {
  }

  lemma StepIndexes(s: Sys, a: Action)
    requires Inv(s) && Enabled(s, a)
    ensures OneActive(Apply(s, a).t.missions) && OneOpen(Apply(s, a).t.records)
  {
    hide HistoryOk, LocksOk;
    if a.Statement? {
      assert CallOk(s.t, s.calls[a.id]);
    }
  }

  /** Only the call that moves can return, and then it says so in the history. */
  lemma Returns(s: Sys, a: Action)
    requires Enabled(s, a)
    ensures var n := Apply(s, a);
      || (n.history == s.history
          && forall i :: 0 <= i < |n.calls| && n.calls[i].pc.Returned? ==> n.calls[i] == s.calls[i])
      || (a.SetStatus? && n.calls == s.calls && n.history == s.history + [StatusSet(a.vehicle, a.status)])
      || (a.Statement? && n.calls[a.id].pc.Returned?
          && var c := s.calls[a.id];
             n.history == s.history + [CallReturned(a.id, c.vehicle, c.reason, n.calls[a.id].pc.outcome)])
  {
    hide Merged, Unlocked, Cancelling, ActiveMission, HasOpen, OutcomeOf, WithCancelled;
  }

  lemma StepHistory(s: Sys, a: Action)
    requires HistoryOk(s) && Enabled(s, a)
    ensures HistoryOk(Apply(s, a))
  {
    hide Apply;
    var n := Apply(s, a);
    Touches(s, a);
    Returns(s, a);
    StaysReturned(s, a);
    forall i | 0 <= i < |n.calls| && n.calls[i].pc.Returned? ensures InHistory(n, i) {
      if s.calls[i].pc.Returned? {
        assert InHistory(s, i);
        var k :| 0 <= k < |s.history| && s.history[k].CallReturned? && s.history[k].id == i;
        assert n.history[k] == s.history[k];
      } else {
        assert n.history[|s.history|].CallReturned?;
      }
    }
  }

  lemma StaysReturned(s: Sys, a: Action)
    requires Enabled(s, a)
    ensures forall i :: 0 <= i < |s.calls| && s.calls[i].pc.Returned? ==> !((a.Statement? || a.Fails?) && a.id == i)
  {
  }

  lemma StepKeeps(s: Sys, a: Action)
    requires Inv(s) && Enabled(s, a)
    ensures Inv(Apply(s, a))
  {
    hide LocksOk, CallsOk, HistoryOk, OneActive, OneOpen, Apply, Enabled;
    StepLocks(s, a);
    StepCalls(s, a);
    StepIndexes(s, a);
    StepHistory(s, a);
  }

  /** At most one active mission and one open record per vehicle in every reachable state. */
  lemma {:induction false} RunKeeps(s: Sys, actions: seq<Action>)
    requires Inv(s) && ValidRun(s, actions)
    ensures Inv(Final(s, actions))
    decreases |actions|
  {
    hide Inv, Apply, Enabled;
    if actions != [] {
      StepKeeps(s, actions[0]);
      RunKeeps(Apply(s, actions[0]), actions[1..]);
    }
  }

  // ---- Alternation ------------------------------------------------------------------------------

  /** How many calls returned True for the vehicle. */
  function Trues(h: seq<Effect>, v: string): nat {
    if h == [] then 0 else
    var e := h[|h| - 1];
    Trues(h[..|h| - 1], v) + if e.CallReturned? && e.vehicle == v && e.outcome == Faulted then 1 else 0
  }

  /** How many times the vehicle was set to another status than fault. */
  function Repairs(h: seq<Effect>, v: string): nat {
    if h == [] then 0 else
    var e := h[|h| - 1];
    Repairs(h[..|h| - 1], v) + if e.StatusSet? && e.vehicle == v && !e.status.Fault? then 1 else 0
  }

  predicate Working(t: Tables, v: string) {
    v in t.vehicles && !t.vehicles[v].Fault?
  }

  function Credit(t: Tables, v: string): nat {
    if Working(t, v) then 1 else 0
  }

  /** How a committed effect, if any, changes the vehicles: a True only ever takes a working one. */
  ghost predicate Explains(s: Sys, n: Sys) {
    || (n.history == s.history && n.t.vehicles == s.t.vehicles)
    || exists e :: n.history == s.history + [e] && ExplainedBy(s.t, n.t, e)
  }

  predicate ExplainedBy(t: Tables, n: Tables, e: Effect) {
    if e.StatusSet? then e.vehicle in t.vehicles && n.vehicles == t.vehicles[e.vehicle := e.status]
    else if e.outcome.Faulted? then Working(t, e.vehicle) && n.vehicles == t.vehicles[e.vehicle := Fault]
    else n.vehicles == t.vehicles
  }

  lemma StepExplained(s: Sys, a: Action)
    requires Inv(s) && Enabled(s, a)
    ensures Explains(s, Apply(s, a))
  {
    hide LocksOk, HistoryOk, OneActive, OneOpen, Unlocked, Cancelling, ActiveMission, HasOpen, WithCancelled;
    var n := Apply(s, a);
    if n.history != s.history {
      var e := n.history[|s.history|];
      assert n.history == s.history + [e];
      if a.Statement? {
        assert CallOk(s.t, s.calls[a.id]);
      }
      assert ExplainedBy(s.t, n.t, e);
    }
  }

  lemma CountNext(h: seq<Effect>, e: Effect, v: string)
    ensures Trues(h + [e], v) == Trues(h, v)
                                 + if e.CallReturned? && e.vehicle == v && e.outcome == Faulted then 1 else 0
    ensures Repairs(h + [e], v) == Repairs(h, v) + if e.StatusSet? && e.vehicle == v && !e.status.Fault? then 1 else 0
  {
    assert (h + [e])[..|h|] == h;
  }

  lemma StepCredit(s: Sys, a: Action, v: string)
    requires Inv(s) && Enabled(s, a)
    ensures var n := Apply(s, a);
      Trues(n.history, v) + Credit(n.t, v) + Repairs(s.history, v)
      <= Trues(s.history, v) + Credit(s.t, v) + Repairs(n.history, v)
  {
    hide Inv, Enabled, Apply, Trues, Repairs;
    StepExplained(s, a);
    var n := Apply(s, a);
    if n.history != s.history {
      var e :| n.history == s.history + [e] && ExplainedBy(s.t, n.t, e);
      CountNext(s.history, e, v);
    }
  }

  /**
   * Each True takes a vehicle that was not in fault: there is at most one more
   * of them than status updates away from fault, one fewer if it began in fault.
   */
  lemma {:induction false} Alternation(s: Sys, actions: seq<Action>, v: string)
    requires Inv(s) && ValidRun(s, actions)
    ensures var n := Final(s, actions);
      Trues(n.history, v) + Credit(n.t, v) + Repairs(s.history, v)
      <= Trues(s.history, v) + Credit(s.t, v) + Repairs(n.history, v)
    decreases |actions|
  {
    hide Inv, Apply, Enabled, Trues, Repairs, Credit;
    if actions != [] {
      StepCredit(s, actions[0], v);
      StepKeeps(s, actions[0]);
      Alternation(Apply(s, actions[0]), actions[1..], v);
    }
  }

  /** Over a whole run from the start: one True more than status updates away from fault, at most. */
  lemma FaultsAlternate(s: Sys, actions: seq<Action>, v: string)
    requires Initial(s) && ValidRun(s, actions)
    ensures var n := Final(s, actions);
      && OneActive(n.t.missions) && OneOpen(n.t.records)
      && Trues(n.history, v) <= Repairs(n.history, v) + 1
      && (!Working(s.t, v) ==> Trues(n.history, v) <= Repairs(n.history, v))
  {
    InitialOk(s);
    RunKeeps(s, actions);
    Alternation(s, actions, v);
  }
}
