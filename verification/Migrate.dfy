/**
 * The migration runner and the zone seeds: what any sequence of runs over a
 * growing directory executes, and what re-seeding leaves of live counts.
 */
module Migrate {
  import opened Wrappers
  import opened Sequences
  import opened Telemetry

  /** A script's file name; a directory is its names in lexicographic order, each once. */
  type Version = string

  /** The files not yet recorded, in order. */
  function Pending(files: seq<Version>, done: set<Version>): (pending: seq<Version>)
    ensures |pending| <= |files|
  {
    if files == [] then [] else
    var before, last := Pending(files[..|files| - 1], done), files[|files| - 1];
    if last in done then before else before + [last]
  }

  lemma {:induction false} PendingExact(files: seq<Version>, done: set<Version>, v: Version)
    ensures Occurs(Pending(files, done), v) <==> Occurs(files, v) && v !in done
    decreases |files|
  {
    hide Occurs;
    if files == [] {
      NoneOccur(v);
    } else {
      var n := |files| - 1;
      PendingExact(files[..n], done, v);
      OccursNext(files[..n], files[n], v);
      OccursNext(Pending(files[..n], done), files[n], v);
      assert files[..n] + [files[n]] == files;
    }
  }

  lemma {:induction false} PendingDistinct(files: seq<Version>, done: set<Version>)
    requires Distinct(files)
    ensures Distinct(Pending(files, done))
    decreases |files|
  {
    if files != [] {
      var n := |files| - 1;
      var before := Pending(files[..n], done);
      PendingDistinct(files[..n], done);
      PendingExact(files[..n], done, files[n]);
      assert !Occurs(files[..n], files[n]);
      forall i | 0 <= i < |before| ensures before[i] != files[n] {
        assert Occurs(before, before[i]);
      }
    }
  }

  /** Wherever two of them are in the directory, the earlier of them is earlier there. */
  ghost predicate InFileOrder(pending: seq<Version>, files: seq<Version>) {
    forall i, j, a, b ::
      (&& 0 <= i < j < |pending| && 0 <= a < |files| && 0 <= b < |files|
       && files[a] == pending[i] && files[b] == pending[j]) ==>
        a < b
  }

  lemma {:induction false} PendingInOrder(files: seq<Version>, done: set<Version>)
    requires Distinct(files)
    ensures InFileOrder(Pending(files, done), files)
    decreases |files|
  {
    if files != [] {
      var n := |files| - 1;
      var before, pending := Pending(files[..n], done), Pending(files, done);
      PendingInOrder(files[..n], done);
      forall i, j, a, b | 0 <= i < j < |pending| && 0 <= a < |files| && 0 <= b < |files| &&
        files[a] == pending[i] && files[b] == pending[j]
        ensures a < b
      {
        PendingPosition(files, done, i, a);
        if j < |before| {
          PendingPosition(files, done, j, b);
        }
      }
    }
  }

  /** What was pending before the last file is in the directory before it. */
  lemma PendingPosition(files: seq<Version>, done: set<Version>, i: nat, a: nat)
    requires Distinct(files) && files != [] && a < |files|
    requires var before := Pending(files[..|files| - 1], done); i < |before| && before[i] == files[a]
    ensures a < |files| - 1 && files[..|files| - 1][a] == files[a]
  {
    var n := |files| - 1;
    var before := Pending(files[..n], done);
    PendingExact(files[..n], done, before[i]);
    assert Occurs(before, before[i]);
    assert Occurs(files[..n], before[i]);
  }

  /** No script that is still to be run raises. */
  predicate Sound(files: seq<Version>, done: set<Version>, broken: set<Version>) {
    forall i :: 0 <= i < |files| && files[i] in broken ==> files[i] in done
  }

  lemma RunsIffSound(files: seq<Version>, done: set<Version>, broken: set<Version>)
    ensures Runs(Pending(files, done), broken) <==> Sound(files, done, broken)
  {
    hide Pending;
    var pending := Pending(files, done);
    if Runs(pending, broken) {
      forall i | 0 <= i < |files| && files[i] in broken ensures files[i] in done {
        assert Occurs(files, files[i]);
        PendingExact(files, done, files[i]);
      }
    } else {
      var k :| 0 <= k < |pending| && pending[k] in broken;
      assert Occurs(pending, pending[k]);
      PendingExact(files, done, pending[k]);
      var i :| 0 <= i < |files| && files[i] == pending[k];
    }
  }

  /** How a seeded table looks: a row at zero for each zone that has none. */
  function Seeded(zones: map<string, int>, ids: seq<string>): map<string, int> {
    if ids == [] then zones else
    var before, z := Seeded(zones, ids[..|ids| - 1]), ids[|ids| - 1];
    if z in before then before else before[z := 0]
  }

  lemma {:induction false} SeededAt(zones: map<string, int>, ids: seq<string>, z: string)
    ensures z in Seeded(zones, ids) <==> z in zones || Occurs(ids, z)
    ensures z in Seeded(zones, ids) ==> Seeded(zones, ids)[z] == if z in zones then zones[z] else 0
    decreases |ids|
  {
    if ids != [] {
      var n := |ids| - 1;
      SeededAt(zones, ids[..n], z);
      OccursNext(ids[..n], ids[n], z);
      assert ids[..n] + [ids[n]] == ids;
    }
  }

  /** A run over the directory as it then is, or committed entries into a zone. */
  datatype Action = Migrate(files: seq<Version>, broken: set<Version>) | Enter(zone: string)

  datatype State = State(recorded: set<Version>, executed: seq<Version>, zones: map<string, int>)

  predicate Runs(pending: seq<Version>, broken: set<Version>) {
    forall i :: 0 <= i < |pending| ==> pending[i] !in broken
  }

  function Apply(s: State, a: Action, ids: seq<string>): State {
    match a
    case Migrate(files, broken) =>
      var pending := Pending(files, s.recorded);
      if Runs(pending, broken)
      then State(s.recorded + (set v | v in pending), s.executed + pending, Seeded(s.zones, ids))
      else s
    case Enter(zone) => s.(zones := Entered(s.zones, Some(zone)))
  }

  /**
   * `executed` is every migration script the database has ever been left with,
   * in the order they ran; a failing run is rolled back and leaves no trace.
   */
  class Database {
    var recorded: set<Version>
    var executed: seq<Version>
    var zones: map<string, int>

    function Now(): State
      reads this
    {
      State(recorded, executed, zones)
    }

    constructor ()
      ensures recorded == {} && executed == [] && zones == map[]
    {
      recorded, executed, zones := {}, [], map[];
    }

    method SeedZones(ids: seq<string>)
      modifies this`zones
      ensures zones == Seeded(old(zones), ids)
      ensures forall z :: z in zones <==> z in old(zones) || Occurs(ids, z)
      ensures forall z :: z in zones ==> zones[z] == if z in old(zones) then old(zones)[z] else 0
    {
      for i := 0 to |ids|
        invariant zones == Seeded(old(zones), ids[..i])
      {
        assert ids[..i + 1][..i] == ids[..i];
        if ids[i] !in zones {
          zones := zones[ids[i] := 0];
        }
      }
      assert ids[..|ids|] == ids;
      forall z
        ensures z in zones <==> z in old(zones) || Occurs(ids, z)
        ensures z in zones ==> zones[z] == if z in old(zones) then old(zones)[z] else 0
      {
        SeededAt(old(zones), ids, z);
      }
    }

    /**
     * Applies the files not in `done`; `broken` are the scripts that raise.
     * `Failure` is the script whose exception ended the run.
     */
    method RunMigrations(files: seq<Version>, broken: set<Version>, ids: seq<string>)
      returns (r: Result<seq<Version>, Version>)
      requires Distinct(files)
      modifies this
      ensures Now() == Apply(old(Now()), Migrate(files, broken), ids)
      ensures r.Success? <==> Sound(files, old(recorded), broken)
      ensures r.Success? ==>
                && executed == old(executed) + r.value && recorded == old(recorded) + (set v | v in r.value)
                && Distinct(r.value) && InFileOrder(r.value, files)
                && (forall v :: Occurs(r.value, v) <==> Occurs(files, v) && v !in old(recorded))
                && (forall z :: z in zones <==> z in old(zones) || Occurs(ids, z))
                && (forall z :: z in zones ==> zones[z] == if z in old(zones) then old(zones)[z] else 0)
      ensures r.Failure? ==>
                && executed == old(executed) && recorded == old(recorded) && zones == old(zones)
                && IsFirstToRaise(files, old(recorded), broken, r.error)
    {
      var done, ran := recorded, executed;
      var applied: seq<Version> := [];
      var i := 0;
      while i < |files|
        invariant 0 <= i <= |files|
        invariant applied == Pending(files[..i], done) && executed == ran + applied
        invariant Runs(applied, broken) && recorded == done + (set v | v in applied)
        invariant zones == old(zones)
        invariant forall k :: 0 <= k < i && files[k] in broken ==> files[k] in done
      {
        var version := files[i];
        assert files[..i + 1][..i] == files[..i];
        if version !in done {
          if version in broken {
            RunsIffSound(files, done, broken);
            assert RaisesAt(files, done, broken, version, i);
            recorded, executed := done, ran;
            return Failure(version);
          }
          executed := executed + [version];
          recorded := recorded + {version};
          applied := applied + [version];
        }
        i := i + 1;
      }
      assert files[..|files|] == files;
      RunsIffSound(files, done, broken);
      PendingDistinct(files, done);
      PendingInOrder(files, done);
      forall v ensures Occurs(applied, v) <==> Occurs(files, v) && v !in done {
        PendingExact(files, done, v);
      }
      SeedZones(ids);
      r := Success(applied);
    }
  }

  /** The first of the scripts to be run that raises. */
  ghost predicate IsFirstToRaise(files: seq<Version>, done: set<Version>, broken: set<Version>, v: Version) {
    exists i :: 0 <= i < |files| && RaisesAt(files, done, broken, v, i)
  }

  ghost predicate RaisesAt(files: seq<Version>, done: set<Version>, broken: set<Version>, v: Version, i: nat)
    requires i < |files|
  {
    && files[i] == v && v in broken && v !in done
    && forall k :: 0 <= k < i && files[k] in broken ==> files[k] in done
  }

  // ---- Any sequence of runs ---------------------------------------------------------------------

  function RunAll(s: State, actions: seq<Action>, ids: seq<string>): State {
    if actions == [] then s else Apply(RunAll(s, actions[..|actions| - 1], ids), actions[|actions| - 1], ids)
  }

  /** `recorded` is exactly what was executed, and nothing was executed twice. */
  ghost predicate Inv(s: State) {
    Distinct(s.executed) && forall v :: v in s.recorded <==> Occurs(s.executed, v)
  }

  lemma StepKeeps(s: State, a: Action, ids: seq<string>)
    requires Inv(s) && (a.Migrate? ==> Distinct(a.files))
    ensures Inv(Apply(s, a, ids))
  {
    hide Seeded, Entered, Pending;
    if a.Migrate? {
      var pending := Pending(a.files, s.recorded);
      PendingDistinct(a.files, s.recorded);
      forall v ensures Occurs(pending, v) <==> Occurs(a.files, v) && v !in s.recorded {
        PendingExact(a.files, s.recorded, v);
      }
      forall v ensures Occurs(s.executed + pending, v) <==> Occurs(s.executed, v) || Occurs(pending, v) {
        OccursConcat(s.executed, pending, v);
      }
      forall i, j | 0 <= i < |s.executed| && 0 <= j < |pending| ensures s.executed[i] != pending[j] {
        assert Occurs(s.executed, s.executed[i]) && Occurs(pending, pending[j]);
      }
    }
  }

  /** Directories in order: each run sees its own, of distinct names. */
  ghost predicate Directories(actions: seq<Action>) {
    forall k :: 0 <= k < |actions| && actions[k].Migrate? ==> Distinct(actions[k].files)
  }

  /** Some run over a directory with the file in it has succeeded. */
  predicate Applied(s: State, actions: seq<Action>, ids: seq<string>, v: Version) {
    exists k :: 0 <= k < |actions| && AppliedAt(s, actions, ids, v, k)
  }

  predicate AppliedAt(s: State, actions: seq<Action>, ids: seq<string>, v: Version, k: nat)
    requires k < |actions|
  {
    var a := actions[k];
    a.Migrate? && Occurs(a.files, v) && Sound(a.files, RunAll(s, actions[..k], ids).recorded, a.broken)
  }

  const FRESH: State := State({}, [], map[])

  /**
   * Over any sequence of runs, whatever fails and however the directory grows,
   * a script has been executed once if some run with it in the directory has
   * succeeded, and otherwise not at all.
   */
  lemma {:induction false} EachOnce(actions: seq<Action>, ids: seq<string>, v: Version)
    requires Directories(actions)
    ensures Inv(RunAll(FRESH, actions, ids))
    ensures Occurs(RunAll(FRESH, actions, ids).executed, v) <==> Applied(FRESH, actions, ids, v)
    decreases |actions|
  {
    hide Seeded, Entered, Pending, Runs, Sound;
    if actions != [] {
      var n := |actions| - 1;
      var rest, a := actions[..n], actions[n];
      EachOnce(rest, ids, v);
      var s := RunAll(FRESH, rest, ids);
      StepKeeps(s, a, ids);
      AppliedNext(FRESH, actions, ids, v);
      if a.Migrate? {
        PendingExact(a.files, s.recorded, v);
        RunsIffSound(a.files, s.recorded, a.broken);
        OccursConcat(s.executed, Pending(a.files, s.recorded), v);
      }
    }
  }

  lemma AppliedNext(s: State, actions: seq<Action>, ids: seq<string>, v: Version)
    requires actions != []
    ensures var n := |actions| - 1;
      Applied(s, actions, ids, v) <==> Applied(s, actions[..n], ids, v) || AppliedAt(s, actions, ids, v, n)
  {
    hide RunAll, Sound;
    var n := |actions| - 1;
    forall k | 0 <= k < n ensures AppliedAt(s, actions[..n], ids, v, k) == AppliedAt(s, actions, ids, v, k) {
      assert actions[..n][..k] == actions[..k];
    }
    if k :| 0 <= k < n && AppliedAt(s, actions[..n], ids, v, k) {
      assert AppliedAt(s, actions, ids, v, k);
    }
  }

  /** How many entries into the zone there are. */
  function EntriesTo(actions: seq<Action>, zone: string): nat {
    if actions == [] then 0 else
    EntriesTo(actions[..|actions| - 1], zone) + if actions[|actions| - 1] == Enter(zone) then 1 else 0
  }

  /** However often it is re-seeded in between, a zone with a row counts exactly its entries. */
  lemma {:induction false} SeedsKeepCounts(s: State, actions: seq<Action>, ids: seq<string>, zone: string)
    requires zone in s.zones
    ensures var n := RunAll(s, actions, ids);
      zone in n.zones && n.zones[zone] == s.zones[zone] + EntriesTo(actions, zone)
    decreases |actions|
  {
    hide Seeded, Pending, Runs;
    if actions != [] {
      var n := |actions| - 1;
      SeedsKeepCounts(s, actions[..n], ids, zone);
      SeededAt(RunAll(s, actions[..n], ids).zones, ids, zone);
    }
  }
}
