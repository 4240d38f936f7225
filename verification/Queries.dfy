/** The fleet aggregate, against a tally kept reading by reading. */
module Queries {
  import opened Wrappers
  import opened Telemetry
  import opened LastWrite

  // ---- The fleet aggregate -------------------------------------------------------------------

  function WithStatus(current: map<string, Telemetry.Reading>, st: Status): set<string> {
    set v | v in current && current[v].status == st
  }

  function Count(current: map<string, Telemetry.Reading>, st: Status): nat {
    |WithStatus(current, st)|
  }

  datatype Group = Group(status: Status, n: nat)

  predicate Grouped(rows: seq<Group>, st: Status) {
    exists i :: 0 <= i < |rows| && rows[i].status == st
  }

  /** A result of GROUP BY status: one row per status that some vehicle has, in any order. */
  ghost predicate GroupsOf(rows: seq<Group>, current: map<string, Telemetry.Reading>) {
    && (forall i, j :: 0 <= i < j < |rows| ==> rows[i].status != rows[j].status)
    && (forall i :: 0 <= i < |rows| ==> rows[i].n == Count(current, rows[i].status))
    && (forall st :: Count(current, st) > 0 ==> Grouped(rows, st))
  }

  /** The four status keys, with zero for those the query does not report. */
  method AggregateFleetState(rows: seq<Group>, ghost current: map<string, Telemetry.Reading>)
    returns (counts: map<Status, nat>)
    requires GroupsOf(rows, current)
    ensures counts.Keys == {Idle, Moving, Charging, Fault}
    ensures forall st :: st in counts && counts[st] == |set v | v in current && current[v].status == st|
    ensures counts[Idle] + counts[Moving] + counts[Charging] + counts[Fault] == |current|
  {
    hide Count;
    counts := map[Idle := 0, Moving := 0, Charging := 0, Fault := 0];
    forall st ensures st in counts && counts[st] == 0 && !Grouped(rows[..0], st) {
      assert st.Idle? || st.Moving? || st.Charging? || st.Fault?;
    }
    for i := 0 to |rows|
      invariant counts.Keys == {Idle, Moving, Charging, Fault}
      invariant forall st :: st in counts && counts[st] == if Grouped(rows[..i], st) then Count(current, st) else 0
    {
      GroupedNext(rows, i);
      counts := counts[rows[i].status := rows[i].n];
    }
    assert rows[..|rows|] == rows;
    CountsSum(current);
    forall st ensures st in counts && counts[st] == |set v | v in current && current[v].status == st| {
      CountIs(current, st);
    }
  }

  lemma CountIs(current: map<string, Telemetry.Reading>, st: Status)
    ensures Count(current, st) == |set v | v in current && current[v].status == st|
  {
  }

  lemma GroupedNext(rows: seq<Group>, i: nat)
    requires i < |rows|
    ensures forall st :: Grouped(rows[..i + 1], st) <==> Grouped(rows[..i], st) || st == rows[i].status
  {
    forall st ensures Grouped(rows[..i + 1], st) <==> Grouped(rows[..i], st) || st == rows[i].status {
      if k :| 0 <= k < i && rows[..i][k].status == st {
        assert rows[..i + 1][k].status == st;
      }
      assert rows[..i + 1][i] == rows[i];
    }
  }

  lemma CountsSum(current: map<string, Telemetry.Reading>)
    ensures Count(current, Idle) + Count(current, Moving) + Count(current, Charging)
      + Count(current, Fault) == |current|
  {
    var a, b := WithStatus(current, Idle), WithStatus(current, Moving);
    var c, d := WithStatus(current, Charging), WithStatus(current, Fault);
    assert a + b + (c + d) == current.Keys by {
      forall v | v in current ensures v in a + b + (c + d) {
        var st := current[v].status;
        assert st.Idle? || st.Moving? || st.Charging? || st.Fault?;
      }
    }
    hide WithStatus;
    DisjointSum(a, b);
    DisjointSum(c, d);
    DisjointSum(a + b, c + d);
  }

  lemma DisjointSum(a: set<string>, b: set<string>)
    ensures a !! b ==> |a + b| == |a| + |b|
  {
  }

  /** The status a reading carries, by vehicle. */
  function StatusOf(e: Event): Option<(string, Status)> {
    Some((e.vehicle, e.status))
  }

  /** A tally kept reading by reading: the vehicle leaves its last status, if any, and joins the new one. */
  function Tally(es: seq<Event>, st: Status): int {
    if es == [] then 0 else
    var rest, e := es[..|es| - 1], es[|es| - 1];
    Tally(rest, st)
    - (if Last(StatusOf, rest, e.vehicle) == Some(st) then 1 else 0)
    + (if e.status == st then 1 else 0)
  }

  lemma CountAfter(current: map<string, Telemetry.Reading>, v: string, r: Telemetry.Reading, st: Status)
    ensures Count(current[v := r], st) ==
      Count(current, st) - (if v in current && current[v].status == st then 1 else 0)
        + (if r.status == st then 1 else 0)
  {
    var was, now := WithStatus(current, st), WithStatus(current[v := r], st);
    if r.status == st {
      assert now == was + {v};
    } else {
      assert now == was - {v};
    }
  }

  /** After any ingest history from empty tables the aggregate equals the tally kept step by step. */
  lemma {:induction false} AggregateIsTally(db: Db, es: seq<Event>, st: Status)
    requires db.current == map[]
    ensures Count(SerialAll(db, es).current, st) == Tally(es, st)
    ensures forall v :: Last(StatusOf, es, v) ==
                        (var row := Lookup(SerialAll(db, es).current, v);
                         if row.Some? then Some(row.value.status) else None)
    decreases |es|
  {
    hide Detect, RowsOf, Count;
    if es == [] {
      NoVehicles(st);
    } else {
      var rest, e := es[..|es| - 1], es[|es| - 1];
      AggregateIsTally(db, rest, st);
      CountAfter(SerialAll(db, rest).current, e.vehicle, ReadingOf(e), st);
    }
  }

  lemma NoVehicles(st: Status)
    ensures Count(map[], st) == 0
  {
    assert WithStatus(map[], st) == {};
  }
}
