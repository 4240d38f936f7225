/**
 * Vehicles, missions and maintenance records: what a fault transition does to
 * them by itself, and the machine in which any number of fault calls, status
 * updates, mission changes and repairs interleave statement by statement.
 */
module Faults {
  import opened Wrappers
  import opened Telemetry

  datatype MissionStatus = Active | Cancelled | Completed
  datatype Mission = Mission(vehicle: string, status: MissionStatus)
  datatype Record = Record(vehicle: string, mission: Option<nat>, reason: Option<string>, open: bool)

  /** Missions and records are identified by their position. */
  datatype Tables = Tables(vehicles: map<string, Status>, missions: seq<Mission>, records: seq<Record>)

  /** The partial unique index uq_active_mission_per_vehicle. */
  predicate OneActive(ms: seq<Mission>) {
    forall i, j :: 0 <= i < j < |ms| ==> !(ms[i].status.Active? && ms[j] == ms[i])
  }

  /** The partial unique index uq_open_maintenance_per_vehicle. */
  predicate OneOpen(rs: seq<Record>) {
    forall i, j :: 0 <= i < j < |rs| ==> !(rs[i].open && rs[j].open && rs[i].vehicle == rs[j].vehicle)
  }

  function ActiveMission(ms: seq<Mission>, v: string): (m: Option<nat>)
    ensures m.Some? ==> m.value < |ms| && ms[m.value] == Mission(v, Active)
    ensures m.None? ==> forall i :: 0 <= i < |ms| ==> ms[i] != Mission(v, Active)
  {
    if ms == [] then None
    else if ms[|ms| - 1] == Mission(v, Active) then Some(|ms| - 1)
    else ActiveMission(ms[..|ms| - 1], v)
  }

  predicate HasOpen(rs: seq<Record>, v: string) {
    exists i :: 0 <= i < |rs| && rs[i].vehicle == v && rs[i].open
  }

  function WithCancelled(ms: seq<Mission>, m: Option<nat>): seq<Mission> {
    if m.Some? && m.value < |ms| then ms[m.value := ms[m.value].(status := Cancelled)] else ms
  }

  datatype Outcome = Faulted | AlreadyFault | Unknown

  // ---- One call by itself ---------------------------------------------------------------------

  function OutcomeOf(t: Tables, v: string): Outcome {
    if v !in t.vehicles then Unknown else if t.vehicles[v].Fault? then AlreadyFault else Faulted
  }

  function AfterFault(t: Tables, v: string, reason: Option<string>): Tables {
    if OutcomeOf(t, v) != Faulted then t else
    var mission := ActiveMission(t.missions, v);
    Tables(t.vehicles[v := Fault],
           WithCancelled(t.missions, mission),
           if HasOpen(t.records, v) then t.records else t.records + [Record(v, mission, reason, true)])
  }

  /** The three tables on a connection of their own. */
  class Fleet {
    var vehicles: map<string, Status>
    var missions: seq<Mission>
    var records: seq<Record>

    function Now(): Tables
      reads this
    {
      Tables(vehicles, missions, records)
    }

    predicate Valid()
      reads this
    {
      OneActive(missions) && OneOpen(records)
    }

    /** UPDATE ... RETURNING: cancels every active mission of the vehicle. */
    method CancelActiveMission(v: string) returns (id: Option<nat>)
      requires OneActive(missions)
      modifies this`missions
      ensures id == ActiveMission(old(missions), v)
      ensures missions == WithCancelled(old(missions), id)
      ensures |missions| == |old(missions)|
      ensures forall i :: 0 <= i < |missions| ==>
        missions[i] == if old(missions)[i] == Mission(v, Active) then Mission(v, Cancelled) else old(missions)[i]
      ensures forall m: nat :: id == Some(m) <==> m < |old(missions)| && old(missions)[m] == Mission(v, Active)
    {
      id := None;
      ghost var was := missions;
      for i := 0 to |missions|
        invariant |missions| == |was|
        invariant id.Some? ==> id.value < i && was[id.value] == Mission(v, Active)
        invariant id.None? ==> forall k :: 0 <= k < i ==> was[k] != Mission(v, Active)
        invariant missions == WithCancelled(was, id)
      {
        if missions[i] == Mission(v, Active) {
          missions := missions[i := Mission(v, Cancelled)];
          id := Some(i);
        }
      }
    }

    /** `Failure` is the LookupError of an unknown vehicle. */
    method TransitionToFault(v: string, reason: Option<string>) returns (r: Result<bool, Outcome>)
      requires Valid()
      modifies this
      ensures Valid()
      ensures Now() == AfterFault(old(Now()), v, reason)
      ensures r == if v in old(vehicles) then Success(!old(vehicles)[v].Fault?) else Failure(Unknown)
      ensures r == Success(true) ==> vehicles == old(vehicles)[v := Fault]
      ensures r == Success(true) ==> |missions| == |old(missions)|
      ensures r == Success(true) ==>
        forall i :: 0 <= i < |missions| ==>
          missions[i] == if old(missions)[i] == Mission(v, Active) then Mission(v, Cancelled) else old(missions)[i]
      ensures r == Success(true) ==>
        if exists i :: 0 <= i < |old(records)| && old(records)[i].vehicle == v && old(records)[i].open
        then records == old(records)
        else
          && |records| == |old(records)| + 1 && records[..|old(records)|] == old(records)
          && var added := records[|old(records)|];
             && added.vehicle == v && added.open && added.reason == reason
             && forall m: nat :: added.mission == Some(m) <==>
                     m < |old(missions)| && old(missions)[m] == Mission(v, Active)
      ensures r != Success(true) ==> Now() == old(Now())
    {
      if v !in vehicles {
        return Failure(Unknown);
      }
      if vehicles[v] == Fault {
        return Success(false);
      }
      var mission := CancelActiveMission(v);
      if !HasOpen(records, v) {
        records := records + [Record(v, mission, reason, true)];
      }
      vehicles := vehicles[v := Fault];
      r := Success(true);
    }

    method SetVehicleStatus(v: string, status: Status) returns (matched: bool)
      modifies this`vehicles
      ensures matched <==> v in old(vehicles)
      ensures vehicles == if matched then old(vehicles)[v := status] else old(vehicles)
    {
      matched := v in vehicles;
      if matched {
        vehicles := vehicles[v := status];
      }
    }

    /** The status route: `Failure` is its 404, the flag its `applied`. */
    method PostVehicleStatus(v: string, status: Status, reason: Option<string>) returns (r: Result<bool, Outcome>)
      requires Valid()
      modifies this
      ensures Valid()
      ensures r.Failure? <==> v !in old(vehicles)
      ensures r.Success? ==> (r.value <==> !(status.Fault? && old(vehicles)[v].Fault?))
      ensures vehicles == if v in old(vehicles) then old(vehicles)[v := status] else old(vehicles)
      ensures status.Fault? ==> Now() == AfterFault(old(Now()), v, reason)
      ensures !status.Fault? ==> missions == old(missions) && records == old(records)
    {
      if status == Fault {
        r := TransitionToFault(v, reason);
      } else {
        var applied := SetVehicleStatus(v, status);
        r := if applied then Success(true) else Failure(Unknown);
      }
    }
  }

  /**
   * A real transition leaves the vehicle in fault with no active mission and
   * an open record, cancels that one mission only, and touches no other vehicle.
   */
  lemma FaultEffect(t: Tables, v: string, reason: Option<string>)
    requires OneActive(t.missions) && OneOpen(t.records) && v in t.vehicles && !t.vehicles[v].Fault?
    ensures var n := AfterFault(t, v, reason);
      && OneActive(n.missions) && OneOpen(n.records)
      && OutcomeOf(n, v) == AlreadyFault && HasOpen(n.records, v) && ActiveMission(n.missions, v).None?
      && |n.missions| == |t.missions|
      && (forall i :: 0 <= i < |t.missions| ==>
            n.missions[i] == if t.missions[i] == Mission(v, Active) then Mission(v, Cancelled) else t.missions[i])
      && n.vehicles.Keys == t.vehicles.Keys
      && (forall w :: w in t.vehicles && w != v ==> n.vehicles[w] == t.vehicles[w])
      && n.vehicles[v] == Fault
      && (if exists i :: 0 <= i < |t.records| && t.records[i].vehicle == v && t.records[i].open
          then n.records == t.records
          else
            && |n.records| == |t.records| + 1 && n.records[..|t.records|] == t.records
            && var added := n.records[|t.records|];
               && added.vehicle == v && added.open && added.reason == reason
               && forall m: nat :: added.mission == Some(m) <==>
                       m < |t.missions| && t.missions[m] == Mission(v, Active))
  {
    var n := AfterFault(t, v, reason);
    if !HasOpen(t.records, v) {
      assert n.records[|t.records|].open;
    }
  }

  // ---- Any number of calls side by side -----------------------------------------------------------

  /** The statement a call has completed last. */
  datatype Pc = Start | Locked | MissionCancelled | RecordInserted | Flagged | Returned(outcome: Outcome) | Aborted

  /** `mission` and `inserted` are what its uncommitted statements did. */
  datatype Call = Call(vehicle: string, reason: Option<string>, pc: Pc, mission: Option<nat>, inserted: bool)

  /** What committed, in order: a call that returned, or a status update that matched a row. */
  datatype Effect =
    | CallReturned(id: nat, vehicle: string, reason: Option<string>, outcome: Outcome)
    | StatusSet(vehicle: string, status: Status)

  /** Committed tables, calls, `vehicles` row locks, and the commit history. */
  datatype Sys = Sys(t: Tables, calls: seq<Call>, locks: map<string, nat>, history: seq<Effect>)

  datatype Action =
    | Statement(id: nat)
    | Fails(id: nat)
    | SetStatus(vehicle: string, status: Status)
    | StartMission(vehicle: string)
    | CompleteMission(mission: nat)
    | Resolve(record: nat)

  predicate Fresh(c: Call) {
    c.pc == Start && c.mission.None? && !c.inserted
  }

  predicate Unfinished(c: Call) {
    !c.pc.Returned? && !c.pc.Aborted?
  }

  /** Past the guard, before commit. */
  predicate Writing(c: Call) {
    c.pc.MissionCancelled? || c.pc.RecordInserted? || c.pc.Flagged?
  }

  predicate Holds(c: Call) {
    c.pc.Locked? || Writing(c)
  }

  /** The mission of the vehicle that an uncommitted cancel keeps locked. */
  function Cancelling(s: Sys, v: string): Option<nat> {
    if v in s.locks && s.locks[v] < |s.calls| then s.calls[s.locks[v]].mission else None
  }

  /**
   * Only the first statement of a call ever waits, for the vehicle's row; the
   * other writers wait for the rows and index entries a call has written.
   */
  predicate Enabled(s: Sys, a: Action) {
    match a
    case Statement(i) =>
      i < |s.calls| && Unfinished(s.calls[i]) && (s.calls[i].pc.Start? ==> s.calls[i].vehicle !in s.locks)
    case Fails(i) => i < |s.calls| && Unfinished(s.calls[i])
    case SetStatus(v, _) => v !in s.locks
    case StartMission(v) => Cancelling(s, v).None?
    case CompleteMission(m) => m < |s.t.missions| && Cancelling(s, s.t.missions[m].vehicle) != Some(m)
    case Resolve(r) => r < |s.t.records|
  }

  function Unlocked(s: Sys, i: nat): map<string, nat> {
    s.locks - (set v | v in s.locks && s.locks[v] == i)
  }

  function Return(s: Sys, i: nat, outcome: Outcome): Sys
    requires i < |s.calls|
  {
    var c := s.calls[i];
    s.(calls := s.calls[i := c.(pc := Returned(outcome))], locks := Unlocked(s, i),
       history := s.history + [CallReturned(i, c.vehicle, c.reason, outcome)])
  }

  /** What the call's statements amount to once committed. */
  function Merged(t: Tables, c: Call): Tables {
    Tables(t.vehicles[c.vehicle := Fault],
           WithCancelled(t.missions, c.mission),
           if c.inserted then t.records + [Record(c.vehicle, c.mission, c.reason, true)] else t.records)
  }

  function Advance(s: Sys, i: nat): Sys
    requires Enabled(s, Statement(i))
  {
    var c := s.calls[i];
    match c.pc
    case Start =>
      if c.vehicle !in s.t.vehicles then Return(s, i, Unknown)
      else s.(calls := s.calls[i := c.(pc := Locked)], locks := s.locks[c.vehicle := i])
    case Locked =>
      if OutcomeOf(s.t, c.vehicle).AlreadyFault? then Return(s, i, AlreadyFault)
      else s.(calls := s.calls[i := c.(pc := MissionCancelled, mission := ActiveMission(s.t.missions, c.vehicle))])
    case MissionCancelled =>
      s.(calls := s.calls[i := c.(pc := RecordInserted, inserted := !HasOpen(s.t.records, c.vehicle))])
    case RecordInserted => s.(calls := s.calls[i := c.(pc := Flagged)])
    case Flagged => Return(s, i, Faulted).(t := Merged(s.t, c))
  }

  function Apply(s: Sys, a: Action): Sys
    requires Enabled(s, a)
  {
    match a
    case Statement(i) => Advance(s, i)
    case Fails(i) => s.(calls := s.calls[i := s.calls[i].(pc := Aborted)], locks := Unlocked(s, i))
    case SetStatus(v, status) =>
      if v !in s.t.vehicles then s
      else s.(t := s.t.(vehicles := s.t.vehicles[v := status]), history := s.history + [StatusSet(v, status)])
    case StartMission(v) =>
      if ActiveMission(s.t.missions, v).Some? then s
      else s.(t := s.t.(missions := s.t.missions + [Mission(v, Active)]))
    case CompleteMission(m) =>
      if !s.t.missions[m].status.Active? then s
      else s.(t := s.t.(missions := s.t.missions[m := s.t.missions[m].(status := Completed)]))
    case Resolve(r) => s.(t := s.t.(records := s.t.records[r := s.t.records[r].(open := false)]))
  }

  ghost predicate ValidRun(s: Sys, actions: seq<Action>)
    decreases |actions|
  {
    actions == [] || (Enabled(s, actions[0]) && ValidRun(Apply(s, actions[0]), actions[1..]))
  }

  ghost function Final(s: Sys, actions: seq<Action>): Sys
    requires ValidRun(s, actions)
    decreases |actions|
  {
    if actions == [] then s else Final(Apply(s, actions[0]), actions[1..])
  }

  /** No call has begun, and the unique indexes hold. */
  ghost predicate Initial(s: Sys) {
    && OneActive(s.t.missions) && OneOpen(s.t.records) && s.locks == map[] && s.history == []
    && forall i :: 0 <= i < |s.calls| ==> Fresh(s.calls[i])
  }
}
