/**
 * The by-absence sweep: which vehicles it flags, and how its flags are spaced
 * over any run of sweeps and readings.
 */
module CommsLoss {
  import opened Wrappers
  import opened Sequences
  import opened Telemetry
  import opened Windows

  const COMMS_LOSS_TIMEOUT_SECONDS: real := 5.0

  /** A row of raw_events or of anomalies. */
  datatype Entry = Arrived(event: Event) | Stored(row: AnomalyRow)

  /** `current` is vehicle_current_state; `log` holds both append-only tables in commit order. */
  datatype State = State(current: map<string, Reading>, log: seq<Entry>)

  const EMPTY: State := State(map[], [])

  predicate IsFlag(e: Entry, v: string) {
    e.Stored? && e.row.vehicle == v && e.row.finding.kind.CommsLoss?
  }

  predicate IsReading(e: Entry, v: string) {
    e.Arrived? && e.event.vehicle == v
  }

  /** The subquery of NOT EXISTS. */
  predicate FlaggedSince(log: seq<Entry>, v: string, since: real) {
    exists k :: 0 <= k < |log| && IsFlag(log[k], v) && log[k].row.detectedAt >= since
  }

  predicate Silent(s: State, v: string, now: real) {
    && v in s.current
    && s.current[v].recordedAt < now - COMMS_LOSS_TIMEOUT_SECONDS
    && !FlaggedSince(s.log, v, s.current[v].recordedAt)
  }

  function SilentVehicles(s: State, now: real): set<string> {
    set v | v in s.current && Silent(s, v, now)
  }

  function Flag(v: string, now: real): Entry {
    Stored(AnomalyRow(v, Finding(CommsLoss, Silence), now))
  }

  /** An order in which the rows of vehicle_current_state may be visited. */
  ghost predicate Scans(scan: seq<string>, s: State) {
    && Distinct(scan)
    && (forall i :: 0 <= i < |scan| ==> scan[i] in s.current)
    && (forall v :: v in s.current ==> Occurs(scan, v))
  }

  function Flags(s: State, now: real, scan: seq<string>): seq<Entry> {
    if scan == [] then [] else
    var v := scan[|scan| - 1];
    Flags(s, now, scan[..|scan| - 1]) + if Silent(s, v, now) then [Flag(v, now)] else []
  }

  function StoredAll(rows: seq<AnomalyRow>): (es: seq<Entry>)
    ensures |es| == |rows|
  {
    seq(|rows|, i requires 0 <= i < |rows| => Stored(rows[i]))
  }

  datatype Action = Ingest(event: Event) | Sweep(now: real, scan: seq<string>)

  ghost predicate Enabled(s: State, a: Action) {
    a.Sweep? ==> Scans(a.scan, s)
  }

  function Apply(s: State, a: Action): State {
    match a
    case Ingest(e) =>
      State(s.current[e.vehicle := ReadingOf(e)],
            s.log + [Arrived(e)] + StoredAll(RowsOf(e, Detect(e, Lookup(s.current, e.vehicle)))))
    case Sweep(now, scan) => s.(log := s.log + Flags(s, now, scan))
  }

  ghost predicate ValidRun(s: State, actions: seq<Action>)
    decreases |actions|
  {
    actions == [] || (Enabled(s, actions[0]) && ValidRun(Apply(s, actions[0]), actions[1..]))
  }

  ghost function Final(s: State, actions: seq<Action>): State
    requires ValidRun(s, actions)
    decreases |actions|
  {
    if actions == [] then s else Final(Apply(s, actions[0]), actions[1..])
  }

  // ---- One sweep -----------------------------------------------------------------------------

  lemma ListedInPrefix(scan: seq<string>, w: string)
    requires scan != []
    ensures var n := |scan| - 1; Occurs(scan, w) <==> Occurs(scan[..n], w) || w == scan[n]
  {
    var n := |scan| - 1;
    OccursNext(scan[..n], scan[n], w);
    assert scan[..n] + [scan[n]] == scan;
  }

  /** A flag of a listed silent vehicle. */
  predicate IsDue(e: Entry, s: State, now: real, scan: seq<string>) {
    e.Stored? && e == Flag(e.row.vehicle, now) && Silent(s, e.row.vehicle, now) && Occurs(scan, e.row.vehicle)
  }

  lemma {:induction false} FlagsAre(s: State, now: real, scan: seq<string>)
    ensures forall k :: 0 <= k < |Flags(s, now, scan)| ==> IsDue(Flags(s, now, scan)[k], s, now, scan)
    decreases |scan|
  {
    hide Silent, Occurs;
    if scan != [] {
      var rest := scan[..|scan| - 1];
      FlagsAre(s, now, rest);
      forall w ensures Occurs(rest, w) || w == scan[|scan| - 1] ==> Occurs(scan, w) {
        ListedInPrefix(scan, w);
      }
      assert forall e :: IsDue(e, s, now, rest) ==> IsDue(e, s, now, scan);
    }
  }

  lemma {:induction false} FlagsHold(s: State, now: real, scan: seq<string>, v: string)
    requires Silent(s, v, now) && Occurs(scan, v)
    ensures Flag(v, now) in Flags(s, now, scan)
    decreases |scan|
  {
    hide Silent, Occurs;
    if scan == [] {
      NoneOccur(v);
    } else {
      ListedInPrefix(scan, v);
      if v != scan[|scan| - 1] {
        FlagsHold(s, now, scan[..|scan| - 1], v);
      }
    }
  }

  lemma {:induction false} FlagsOnce(s: State, now: real, scan: seq<string>)
    requires Distinct(scan)
    ensures var added := Flags(s, now, scan); forall j, k :: 0 <= j < k < |added| ==> added[j] != added[k]
    ensures |Flags(s, now, scan)| == |set v | v in SilentVehicles(s, now) && Occurs(scan, v)|
    decreases |scan|
  {
    hide Silent, Occurs, Distinct;
    var all := SilentVehicles(s, now);
    if scan == [] {
      forall v ensures !Occurs(scan, v) {
        NoneOccur(v);
      }
      assert (set v | v in all && Occurs(scan, v)) == {};
    } else {
      var n := |scan| - 1;
      var last := scan[n];
      forall w ensures Occurs(scan, w) <==> Occurs(scan[..n], w) || w == last {
        ListedInPrefix(scan, w);
      }
      DistinctPrefix(scan);
      FlagsOnce(s, now, scan[..n]);
      FlagsAre(s, now, scan[..n]);
      SilentIsCurrent(s, last, now);
      var before := set v | v in all && Occurs(scan[..n], v);
      assert (set v | v in all && Occurs(scan, v)) == if Silent(s, last, now) then before + {last} else before;
    }
  }

  /**
   * A sweep flags exactly the vehicles silent for longer than the timeout that
   * carry no flag at or after their reading, each once.
   */
  lemma SweepExact(s: State, now: real, scan: seq<string>)
    requires Scans(scan, s)
    ensures var added := Flags(s, now, scan);
      && Apply(s, Sweep(now, scan)) == s.(log := s.log + added)
      && (forall v :: Flag(v, now) in added <==> Silent(s, v, now))
      && (forall e :: e in added ==> e.Stored? && e == Flag(e.row.vehicle, now))
      && (forall j, k :: 0 <= j < k < |added| ==> added[j] != added[k])
      && |added| == |SilentVehicles(s, now)|
  {
    hide Silent, Flags;
    FlagsAre(s, now, scan);
    FlagsOnce(s, now, scan);
    forall v | Silent(s, v, now) ensures Flag(v, now) in Flags(s, now, scan) {
      SilentIsCurrent(s, v, now);
      FlagsHold(s, now, scan, v);
    }
    assert (set v | v in SilentVehicles(s, now) && Occurs(scan, v)) == SilentVehicles(s, now);
  }

  lemma SilentIsCurrent(s: State, v: string, now: real)
    ensures Silent(s, v, now) ==> v in s.current
  {
  }

  class Database {
    var current: map<string, Reading>
    var log: seq<Entry>

    function Now(): State
      reads this
    {
      State(current, log)
    }

    /** One INSERT ... SELECT: its subquery sees the table as it was when the statement began. */
    method DetectCommsLoss(now: real, scan: seq<string>) returns (flagged: nat)
      requires Scans(scan, Now())
      modifies this`log
      ensures Now() == Apply(old(Now()), Sweep(now, scan))
      ensures flagged == |SilentVehicles(old(Now()), now)| == |log| - |old(log)|
    {
      var snapshot := Now();
      flagged := 0;
      for i := 0 to |scan|
        invariant log == snapshot.log + Flags(snapshot, now, scan[..i])
        invariant flagged == |Flags(snapshot, now, scan[..i])|
      {
        assert scan[..i + 1][..i] == scan[..i];
        if Silent(snapshot, scan[i], now) {
          log := log + [Flag(scan[i], now)];
          flagged := flagged + 1;
        }
      }
      assert scan[..|scan|] == scan;
      SweepExact(snapshot, now, scan);
    }
  }

  // ---- Every run ---------------------------------------------------------------------------------

  function LastReading(log: seq<Entry>, v: string): (k: Option<nat>)
    ensures k.Some? ==> k.value < |log| && IsReading(log[k.value], v)
    ensures k.Some? ==> forall m :: k.value < m < |log| ==> !IsReading(log[m], v)
    ensures k.None? ==> forall m :: 0 <= m < |log| ==> !IsReading(log[m], v)
  {
    if log == [] then None
    else if IsReading(log[|log| - 1], v) then Some(|log| - 1)
    else LastReading(log[..|log| - 1], v)
  }

  lemma LastReadingIs(log: seq<Entry>, v: string, k: nat)
    requires k < |log| && IsReading(log[k], v) && forall m :: k < m < |log| ==> !IsReading(log[m], v)
    ensures LastReading(log, v) == Some(k)
  {
  }

  /** The flag at `j` found the vehicle's latest reading too old and newer than every earlier flag. */
  ghost predicate FlagJustified(log: seq<Entry>, j: nat, v: string)
    requires j < |log| && IsFlag(log[j], v)
  {
    var k := LastReading(log[..j], v);
    && k.Some?
    && log[k.value].event.recordedAt < log[j].row.detectedAt - COMMS_LOSS_TIMEOUT_SECONDS
    && forall i :: 0 <= i < j && IsFlag(log[i], v) ==> log[i].row.detectedAt < log[k.value].event.recordedAt
  }

  ghost predicate AllJustified(log: seq<Entry>) {
    forall j, v :: 0 <= j < |log| && IsFlag(log[j], v) ==> FlagJustified(log, j, v)
  }

  /** A vehicle's current row is its latest reading. */
  ghost predicate CurrentOk(s: State) {
    forall v :: Lookup(s.current, v) ==
                (var k := LastReading(s.log, v); if k.Some? then Some(ReadingOf(s.log[k.value].event)) else None)
  }

  ghost predicate Inv(s: State) {
    CurrentOk(s) && AllJustified(s.log)
  }

  lemma SkipTail(log: seq<Entry>, tail: seq<Entry>, v: string)
    requires forall m :: 0 <= m < |tail| ==> !IsReading(tail[m], v)
    ensures LastReading(log + tail, v) == LastReading(log, v)
  {
    var k := LastReading(log, v);
    if k.Some? {
      LastReadingIs(log + tail, v, k.value);
    }
  }

  lemma JustifiedPrefix(log: seq<Entry>, tail: seq<Entry>)
    requires AllJustified(log)
    requires forall j, v :: |log| <= j < |log + tail| && IsFlag((log + tail)[j], v) ==> FlagJustified(log + tail, j, v)
    ensures AllJustified(log + tail)
  {
    hide LastReading, IsFlag;
    var all := log + tail;
    forall j, v | 0 <= j < |all| && IsFlag(all[j], v) ensures FlagJustified(all, j, v) {
      if j < |log| {
        assert all[..j] == log[..j] && FlagJustified(log, j, v);
      }
    }
  }

  lemma StoredNotFlags(e: Event, prior: Option<Reading>)
    ensures var rows := StoredAll(RowsOf(e, Detect(e, prior)));
      forall m, v :: 0 <= m < |rows| ==> !IsFlag(rows[m], v) && !IsReading(rows[m], v)
  {
    hide Detect, Fires, DetailOf;
    var found := Detect(e, prior);
    forall m | 0 <= m < |found| ensures !found[m].kind.CommsLoss? {
      DetectedIffFires(e, prior, found[m]);
    }
  }

  lemma IngestKeeps(s: State, e: Event)
    requires Inv(s)
    ensures Inv(Apply(s, Ingest(e)))
  {
    hide Detect, RowsOf, LastReading;
    var rows := StoredAll(RowsOf(e, Detect(e, Lookup(s.current, e.vehicle))));
    var n := Apply(s, Ingest(e));
    StoredNotFlags(e, Lookup(s.current, e.vehicle));
    assert n.log == s.log + ([Arrived(e)] + rows);
    JustifiedPrefix(s.log, [Arrived(e)] + rows);
    forall v ensures Lookup(n.current, v) ==
                     (var k := LastReading(n.log, v); if k.Some? then Some(ReadingOf(n.log[k.value].event)) else None)
    {
      if v == e.vehicle {
        LastReadingIs(n.log, v, |s.log|);
      } else {
        SkipTail(s.log, [Arrived(e)] + rows, v);
      }
    }
  }

  lemma SweepKeeps(s: State, now: real, scan: seq<string>)
    requires Inv(s) && Scans(scan, s)
    ensures Inv(Apply(s, Sweep(now, scan)))
  {
    hide LastReading, Silent, Flags;
    var added := Flags(s, now, scan);
    var n := Apply(s, Sweep(now, scan));
    SweepExact(s, now, scan);
    forall j, v | |s.log| <= j < |n.log| && IsFlag(n.log[j], v) ensures FlagJustified(n.log, j, v) {
      NewFlagJustified(s, now, added, j - |s.log|, v);
    }
    JustifiedPrefix(s.log, added);
    forall v ensures LastReading(n.log, v) == LastReading(s.log, v) {
      SkipTail(s.log, added, v);
    }
  }

  lemma NewFlagJustified(s: State, now: real, added: seq<Entry>, m: nat, v: string)
    requires Inv(s) && m < |added| && IsFlag(added[m], v) && Silent(s, v, now)
    requires forall k :: 0 <= k < |added| ==> added[k].Stored? && added[k] == Flag(added[k].row.vehicle, now)
    requires forall j, k :: 0 <= j < k < |added| ==> added[j] != added[k]
    ensures FlagJustified(s.log + added, |s.log| + m, v)
  {
    hide LastReading;
    var all, j := s.log + added, |s.log| + m;
    assert all[..j] == s.log + added[..m];
    SkipTail(s.log, added[..m], v);
    var k := LastReading(s.log, v);
    assert Lookup(s.current, v).Some?;
    forall i | 0 <= i < j && IsFlag(all[i], v) ensures all[i].row.detectedAt < all[k.value].event.recordedAt {
      if i < |s.log| {
        assert IsFlag(s.log[i], v);
      }
    }
  }

  lemma {:induction false} RunKeeps(s: State, actions: seq<Action>)
    requires Inv(s) && ValidRun(s, actions)
    ensures Inv(Final(s, actions))
    decreases |actions|
  {
    hide Inv, Apply;
    if actions != [] {
      match actions[0] {
        case Ingest(e) => IngestKeeps(s, e);
        case Sweep(now, scan) => SweepKeeps(s, now, scan);
      }
      RunKeeps(Apply(s, actions[0]), actions[1..]);
    }
  }

  // ---- Spacing -------------------------------------------------------------------------------------

  /**
   * Between two flags of a vehicle a reading of it arrived, recorded strictly
   * after the first and strictly more than the timeout before the second.
   */
  lemma FlagsApart(log: seq<Entry>, v: string, i: nat, j: nat) returns (k: nat)
    requires AllJustified(log) && i < j < |log| && IsFlag(log[i], v) && IsFlag(log[j], v)
    ensures i < k < j && IsReading(log[k], v)
    ensures log[i].row.detectedAt < log[k].event.recordedAt < log[j].row.detectedAt - 5.0
  {
    assert FlagJustified(log, i, v) && FlagJustified(log, j, v);
    k := LastReading(log[..j], v).value;
    if k < i {
      LastReadingIs(log[..i], v, k);
      assert false;
    }
  }

  /** The times of a vehicle's flags within `length` seconds of `from`, in the order they were stored. */
  function FlagTimes(log: seq<Entry>, v: string, from: real, length: real): seq<real> {
    if log == [] then [] else
    var e := log[|log| - 1];
    FlagTimes(log[..|log| - 1], v, from, length)
    + if IsFlag(e, v) && from <= e.row.detectedAt <= from + length then [e.row.detectedAt] else []
  }

  lemma {:induction false} FlagTimesOf(log: seq<Entry>, v: string, from: real, length: real, m: nat) returns (i: nat)
    requires m < |FlagTimes(log, v, from, length)|
    ensures i < |log| && IsFlag(log[i], v) && log[i].row.detectedAt == FlagTimes(log, v, from, length)[m]
    ensures from <= log[i].row.detectedAt <= from + length
    decreases |log|
  {
    var n := |log| - 1;
    if m < |FlagTimes(log[..n], v, from, length)| {
      i := FlagTimesOf(log[..n], v, from, length, m);
    } else {
      i := n;
    }
  }

  lemma {:induction false} FlagTimesSpaced(log: seq<Entry>, v: string, from: real, length: real)
    requires AllJustified(log)
    ensures Spaced(FlagTimes(log, v, from, length), COMMS_LOSS_TIMEOUT_SECONDS)
    ensures Within(FlagTimes(log, v, from, length), from, length)
    decreases |log|
  {
    hide LastReading;
    if log != [] {
      var n := |log| - 1;
      var rest, ts := log[..n], FlagTimes(log[..n], v, from, length);
      PrefixJustified(log, n);
      FlagTimesSpaced(rest, v, from, length);
      if IsFlag(log[n], v) {
        forall m | 0 <= m < |ts| ensures log[n].row.detectedAt - ts[m] >= COMMS_LOSS_TIMEOUT_SECONDS {
          var i := FlagTimesOf(rest, v, from, length, m);
          var _ := FlagsApart(log, v, i, n);
        }
      }
    }
  }

  lemma PrefixJustified(log: seq<Entry>, n: nat)
    requires AllJustified(log) && n <= |log|
    ensures AllJustified(log[..n])
  {
    hide LastReading, IsFlag;
    forall j, v | 0 <= j < n && IsFlag(log[..n][j], v) ensures FlagJustified(log[..n], j, v) {
      assert FlagJustified(log, j, v) && log[..n][..j] == log[..j];
    }
  }

  /**
   * Whatever the clock values of the sweeps and the order of recorded times, no
   * window of `length` seconds holds more than floor(length / 5) + 1 flags of a vehicle.
   */
  lemma FlagRate(actions: seq<Action>, v: string, from: real, length: real)
    requires ValidRun(EMPTY, actions) && length >= 0.0
    ensures |FlagTimes(Final(EMPTY, actions).log, v, from, length)| <= (length / 5.0).Floor + 1
  {
    RunKeeps(EMPTY, actions);
    var log := Final(EMPTY, actions).log;
    FlagTimesSpaced(log, v, from, length);
    WindowBound(FlagTimes(log, v, from, length), COMMS_LOSS_TIMEOUT_SECONDS, from, length);
  }

  // ---- Episodes ------------------------------------------------------------------------------------

  /** Once flagged, a vehicle is not flagged again, at any clock value, until a newer reading than the flag arrives. */
  lemma FlaggedOncePerEpisode(actions: seq<Action>, v: string, i: nat, now: real)
    requires ValidRun(EMPTY, actions)
    requires var log := Final(EMPTY, actions).log;
      && i < |log| && IsFlag(log[i], v)
      && forall k :: i < k < |log| && IsReading(log[k], v) ==> log[k].event.recordedAt <= log[i].row.detectedAt
    ensures !Silent(Final(EMPTY, actions), v, now)
  {
    RunKeeps(EMPTY, actions);
    var s := Final(EMPTY, actions);
    assert FlagJustified(s.log, i, v);
    if Silent(s, v, now) {
      var k := LastReading(s.log, v);
      assert Lookup(s.current, v).Some?;
      if k.value < i {
        LastReadingIs(s.log[..i], v, k.value);
      }
    }
  }

  /**
   * In every reachable state, row by row: a sweep stores for a vehicle one flag,
   * stamped with its clock, exactly when the vehicle's latest reading was recorded
   * more than 5 s before and every flag it carries is older than that reading.
   */
  lemma SweepOutright(actions: seq<Action>, now: real, scan: seq<string>, v: string)
    requires ValidRun(EMPTY, actions) && Scans(scan, Final(EMPTY, actions))
    ensures var s := Final(EMPTY, actions);
      var n := Apply(s, Sweep(now, scan));
      && n.current == s.current && s.log <= n.log
      && (forall j :: |s.log| <= j < |n.log| ==>
            && n.log[j].Stored? && n.log[j].row.detectedAt == now
            && n.log[j].row.finding == Finding(CommsLoss, Silence))
      && (forall i, j :: |s.log| <= i < j < |n.log| ==> n.log[i].row.vehicle != n.log[j].row.vehicle)
      && ((exists j :: |s.log| <= j < |n.log| && n.log[j].row.vehicle == v)
          <==> exists k :: && 0 <= k < |s.log| && s.log[k].Arrived? && s.log[k].event.vehicle == v
                           && (forall m :: k < m < |s.log| && s.log[m].Arrived? ==> s.log[m].event.vehicle != v)
                           && s.log[k].event.recordedAt < now - 5.0
                           && forall i :: 0 <= i < |s.log| && s.log[i].Stored? && s.log[i].row.vehicle == v
                                && s.log[i].row.finding.kind == CommsLoss
                                ==> s.log[i].row.detectedAt < s.log[k].event.recordedAt)
  {
    hide Silent, Flags, Apply, Scans, LastReading;
    RunKeeps(EMPTY, actions);
    SweepAppends(Final(EMPTY, actions), now, scan, v);
    SilentOutright(Final(EMPTY, actions), v, now);
  }

  /** What a sweep appends to the log. */
  lemma SweepAppends(s: State, now: real, scan: seq<string>, v: string)
    requires Scans(scan, s)
    ensures var n := Apply(s, Sweep(now, scan));
      && n.current == s.current && s.log <= n.log
      && (forall j :: |s.log| <= j < |n.log| ==>
            && n.log[j].Stored? && n.log[j].row.detectedAt == now
            && n.log[j].row.finding == Finding(CommsLoss, Silence))
      && (forall i, j :: |s.log| <= i < j < |n.log| ==> n.log[i].row.vehicle != n.log[j].row.vehicle)
      && ((exists j :: |s.log| <= j < |n.log| && n.log[j].row.vehicle == v) <==> Silent(s, v, now))
  {
    hide Silent, Flags;
    SweepExact(s, now, scan);
    var added, n := Flags(s, now, scan), Apply(s, Sweep(now, scan));
    forall j | |s.log| <= j < |n.log| ensures n.log[j] == added[j - |s.log|] == Flag(n.log[j].row.vehicle, now) {
      assert added[j - |s.log|] in added;
    }
    forall i, j | |s.log| <= i < j < |n.log| ensures n.log[i].row.vehicle != n.log[j].row.vehicle {
      assert added[i - |s.log|] != added[j - |s.log|];
    }
    if Silent(s, v, now) {
      var m :| 0 <= m < |added| && added[m] == Flag(v, now);
      assert n.log[|s.log| + m].row.vehicle == v;
    }
  }

  /** Silence, on the entries of the log. */
  lemma SilentOutright(s: State, v: string, now: real)
    requires CurrentOk(s)
    ensures Silent(s, v, now)
       <==> exists k :: && 0 <= k < |s.log| && s.log[k].Arrived? && s.log[k].event.vehicle == v
                        && (forall m :: k < m < |s.log| && s.log[m].Arrived? ==> s.log[m].event.vehicle != v)
                        && s.log[k].event.recordedAt < now - 5.0
                        && forall i :: 0 <= i < |s.log| && s.log[i].Stored? && s.log[i].row.vehicle == v
                             && s.log[i].row.finding.kind == CommsLoss
                             ==> s.log[i].row.detectedAt < s.log[k].event.recordedAt
  {
    hide LastReading;
    var last := LastReading(s.log, v);
    assert Lookup(s.current, v) == if last.Some? then Some(ReadingOf(s.log[last.value].event)) else None;
    if Silent(s, v, now) {
      var k := last.value;
      assert s.log[k].Arrived? && s.log[k].event.vehicle == v;
      forall i |
        && 0 <= i < |s.log| && s.log[i].Stored?
        && s.log[i].row.vehicle == v && s.log[i].row.finding.kind == CommsLoss
        ensures s.log[i].row.detectedAt < s.log[k].event.recordedAt
      {
        assert IsFlag(s.log[i], v);
      }
    }
    if k :| && 0 <= k < |s.log| && s.log[k].Arrived? && s.log[k].event.vehicle == v
            && (forall m :: k < m < |s.log| && s.log[m].Arrived? ==> s.log[m].event.vehicle != v)
            && s.log[k].event.recordedAt < now - 5.0
            && forall i :: 0 <= i < |s.log| && s.log[i].Stored? && s.log[i].row.vehicle == v
                 && s.log[i].row.finding.kind == CommsLoss
                 ==> s.log[i].row.detectedAt < s.log[k].event.recordedAt
    {
      assert IsReading(s.log[k], v);
      LastReadingIs(s.log, v, k);
    }
  }

  /**
   * A reading re-arms its vehicle exactly when it is newer than all its flags, and
   * no other vehicle; no other rule's anomaly matters.
   */
  lemma ReadingRearms(s: State, e: Event, now: real, scan: seq<string>, before: seq<string>)
    requires Scans(before, s) && Scans(scan, Apply(s, Ingest(e)))
    ensures Flag(e.vehicle, now) in Flags(Apply(s, Ingest(e)), now, scan)
       <==> && e.recordedAt < now - 5.0
            && forall i :: 0 <= i < |s.log| && s.log[i].Stored? && s.log[i].row.vehicle == e.vehicle
                 && s.log[i].row.finding.kind == CommsLoss
                 ==> s.log[i].row.detectedAt < e.recordedAt
    ensures forall v :: v != e.vehicle ==>
      (Flag(v, now) in Flags(Apply(s, Ingest(e)), now, scan) <==> Flag(v, now) in Flags(s, now, before))
  {
    hide Detect, RowsOf, Flags;
    StoredNotFlags(e, Lookup(s.current, e.vehicle));
    var n := Apply(s, Ingest(e));
    SweepExact(s, now, before);
    SweepExact(n, now, scan);
    forall v, since ensures FlaggedSince(n.log, v, since) == FlaggedSince(s.log, v, since) {
      if k :| 0 <= k < |s.log| && IsFlag(s.log[k], v) && s.log[k].row.detectedAt >= since {
        assert n.log[k] == s.log[k];
      }
    }
    forall i | 0 <= i < |s.log| && s.log[i].Stored? && s.log[i].row.vehicle == e.vehicle
               && s.log[i].row.finding.kind == CommsLoss
      ensures IsFlag(s.log[i], e.vehicle)
    {
    }
  }
}
