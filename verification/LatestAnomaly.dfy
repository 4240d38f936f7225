/**
 * The latest anomaly of each vehicle, for rows of any form: what DISTINCT ON
 * returns, against the range query and against a store that shows arrivals.
 */
module LatestAnomaly {
  import opened Wrappers
  import opened Sequences
  import opened LastWrite
  import opened Telemetry

  /** How a row is read: its vehicle, and its time. */
  datatype Columns<!R, !K> = Columns(vehicle: R -> K, at: R -> real)

  /** ORDER BY vehicle_id, detected_at DESC: vehicles together, newest first in each. */
  ghost predicate LatestFirst<R, K>(c: Columns<R, K>, rows: seq<R>) {
    && (forall i, j, k :: 0 <= i < j < k < |rows| && c.vehicle(rows[i]) == c.vehicle(rows[k]) ==>
         c.vehicle(rows[j]) == c.vehicle(rows[i]))
    && (forall i, j :: 0 <= i < j < |rows| && c.vehicle(rows[i]) == c.vehicle(rows[j]) ==>
         c.at(rows[i]) >= c.at(rows[j]))
  }

  /** The same rows, in whatever order the table keeps them. */
  ghost predicate SameRows<R>(a: seq<R>, b: seq<R>) {
    multiset(a) == multiset(b)
  }

  ghost predicate IsHead<R, K>(c: Columns<R, K>, rows: seq<R>, k: nat) {
    k < |rows| && (k == 0 || c.vehicle(rows[k - 1]) != c.vehicle(rows[k]))
  }

  /** Where, among the first `n` rows, a run of one vehicle begins. */
  ghost function Heads<R, K>(c: Columns<R, K>, rows: seq<R>, n: nat): (hs: seq<nat>)
    requires n <= |rows|
    ensures forall i :: 0 <= i < |hs| ==> hs[i] < n && IsHead(c, rows, hs[i])
    ensures forall i, j :: 0 <= i < j < |hs| ==> hs[i] < hs[j]
  {
    if n == 0 then [] else Heads(c, rows, n - 1) + if IsHead(c, rows, n - 1) then [n - 1] else []
  }

  lemma {:induction false} HeadsAll<R, K>(c: Columns<R, K>, rows: seq<R>, n: nat, k: nat)
    requires k < n <= |rows| && IsHead(c, rows, k)
    ensures Occurs(Heads(c, rows, n), k)
    decreases n
  {
    hide IsHead;
    var before, hs := Heads(c, rows, n - 1), Heads(c, rows, n);
    if k < n - 1 {
      HeadsAll(c, rows, n - 1, k);
      var i :| 0 <= i < |before| && before[i] == k;
      assert hs[i] == k;
    } else {
      assert hs[|before|] == k;
    }
  }

  /** DISTINCT ON (vehicle_id): the first row of each run of one vehicle. */
  ghost function DistinctOn<R, K>(c: Columns<R, K>, rows: seq<R>): seq<R> {
    var hs := Heads(c, rows, |rows|);
    seq(|hs|, i requires 0 <= i < |hs| => rows[hs[i]])
  }

  ghost predicate HasRow<R, K>(c: Columns<R, K>, rows: seq<R>, v: K) {
    exists i :: 0 <= i < |rows| && c.vehicle(rows[i]) == v
  }

  /** No anomaly of the vehicle in the table is newer. */
  ghost predicate Newest<R, K>(c: Columns<R, K>, r: R, table: seq<R>) {
    forall i :: 0 <= i < |table| && c.vehicle(table[i]) == c.vehicle(r) ==> c.at(table[i]) <= c.at(r)
  }

  /** One row for each vehicle in the table: one of its own, and none newer. */
  ghost predicate LatestOf<R, K>(c: Columns<R, K>, out: seq<R>, table: seq<R>) {
    && (forall i, j :: 0 <= i < j < |out| ==> c.vehicle(out[i]) != c.vehicle(out[j]))
    && (forall i :: 0 <= i < |out| ==> out[i] in table && Newest(c, out[i], table))
    && (forall i :: 0 <= i < |table| ==> HasRow(c, out, c.vehicle(table[i])))
  }

  lemma DistinctRows<R, K>(c: Columns<R, K>, rows: seq<R>)
    requires LatestFirst(c, rows)
    ensures LatestOf(c, DistinctOn(c, rows), rows)
  {
    hide LatestFirst, IsHead, Newest, HasRow;
    var out, hs := DistinctOn(c, rows), Heads(c, rows, |rows|);
    forall i, j | 0 <= i < j < |out| ensures c.vehicle(out[i]) != c.vehicle(out[j]) {
      if c.vehicle(out[i]) == c.vehicle(out[j]) {
        HeadIsFirst(c, rows, hs[j], hs[i]);
      }
    }
    forall i | 0 <= i < |out| ensures Newest(c, out[i], rows) {
      HeadNewest(c, rows, hs[i]);
    }
    forall m | 0 <= m < |rows| ensures HasRow(c, out, c.vehicle(rows[m])) {
      RowAt(c, rows, m);
      var k := FirstOf(c, rows, c.vehicle(rows[m]));
      HeadsAll(c, rows, |rows|, k);
      var i :| 0 <= i < |hs| && hs[i] == k;
      RowAt(c, out, i);
    }
  }

  lemma HeadNewest<R, K>(c: Columns<R, K>, rows: seq<R>, k: nat)
    requires LatestFirst(c, rows) && k < |rows| && IsHead(c, rows, k)
    ensures Newest(c, rows[k], rows)
  {
    hide IsHead;
    forall m | 0 <= m < |rows| && c.vehicle(rows[m]) == c.vehicle(rows[k]) ensures c.at(rows[m]) <= c.at(rows[k]) {
      HeadIsFirst(c, rows, k, m);
    }
  }

  lemma HeadIsFirst<R, K>(c: Columns<R, K>, rows: seq<R>, k: nat, m: nat)
    requires LatestFirst(c, rows) && k < |rows| && IsHead(c, rows, k) && m < |rows| &&
      c.vehicle(rows[m]) == c.vehicle(rows[k])
    ensures k <= m
  {
  }

  lemma {:induction false} FirstOf<R, K>(c: Columns<R, K>, rows: seq<R>, v: K) returns (k: nat)
    requires HasRow(c, rows, v)
    ensures IsHead(c, rows, k) && c.vehicle(rows[k]) == v
    decreases |rows|
  {
    var n := |rows| - 1;
    if HasRow(c, rows[..n], v) {
      k := FirstOf(c, rows[..n], v);
    } else {
      RowInPrefix(c, rows, v);
      k := n;
      if n > 0 {
        assert rows[..n][n - 1] == rows[n - 1];
      }
    }
  }

  lemma RowAt<R, K>(c: Columns<R, K>, rows: seq<R>, i: nat)
    requires i < |rows|
    ensures HasRow(c, rows, c.vehicle(rows[i]))
  {
  }

  lemma RowInPrefix<R, K>(c: Columns<R, K>, rows: seq<R>, v: K)
    ensures rows != [] && HasRow(c, rows, v) ==> v == c.vehicle(rows[|rows| - 1]) || HasRow(c, rows[..|rows| - 1], v)
  {
    if i :| 0 <= i < |rows| - 1 && c.vehicle(rows[i]) == v {
      assert c.vehicle(rows[..|rows| - 1][i]) == v;
    }
  }

  lemma RowsAgree<R, K>(c: Columns<R, K>, a: seq<R>, b: seq<R>)
    requires SameRows(a, b)
    ensures forall r :: r in a <==> r in b
    ensures forall v :: HasRow(c, a, v) ==> HasRow(c, b, v)
    ensures forall r :: Newest(c, r, a) ==> Newest(c, r, b)
  {
    forall r ensures r in a <==> r in b {
      assert r in a <==> r in multiset(a);
      assert r in b <==> r in multiset(b);
    }
    forall v | HasRow(c, a, v) ensures HasRow(c, b, v) {
      var i :| 0 <= i < |a| && c.vehicle(a[i]) == v;
      assert a[i] in b;
    }
    forall r | Newest(c, r, a) ensures Newest(c, r, b) {
      forall i | 0 <= i < |b| && c.vehicle(b[i]) == c.vehicle(r) ensures c.at(b[i]) <= c.at(r) {
        assert b[i] in a;
      }
    }
  }

  /** Exactly one row for each vehicle with an anomaly: one of its own, and none newer. */
  lemma LatestPerVehicle<R, K>(c: Columns<R, K>, table: seq<R>, sorted: seq<R>)
    requires SameRows(sorted, table) && LatestFirst(c, sorted)
    ensures LatestOf(c, DistinctOn(c, sorted), table)
  {
    hide Newest, HasRow, SameRows, DistinctOn;
    DistinctRows(c, sorted);
    RowsAgree(c, sorted, table);
    forall i | 0 <= i < |table| ensures HasRow(c, DistinctOn(c, sorted), c.vehicle(table[i])) {
      assert table[i] in table;
      var j :| 0 <= j < |sorted| && sorted[j] == table[i];
    }
  }

  // ---- Against the range query ---------------------------------------------------------------------

  ghost function Matching<R, K>(c: Columns<R, K>, table: seq<R>, v: K, since: real, until: real): seq<R> {
    if table == [] then [] else
    var last := table[|table| - 1];
    Matching(c, table[..|table| - 1], v, since, until)
    + if c.vehicle(last) == v && since <= c.at(last) <= until then [last] else []
  }

  lemma {:induction false} MatchingExact<R, K>(c: Columns<R, K>, table: seq<R>, v: K, since: real, until: real, r: R)
    ensures multiset(Matching(c, table, v, since, until))[r]
         == if c.vehicle(r) == v && since <= c.at(r) <= until then multiset(table)[r] else 0
    decreases |table|
  {
    if table != [] {
      var rest, last := table[..|table| - 1], table[|table| - 1];
      MatchingExact(c, rest, v, since, until, r);
      assert table == rest + [last];
    }
  }

  /** A result of the range query: the matching rows, oldest first. */
  ghost predicate RecentAnomalies<R, K>(c: Columns<R, K>, rows: seq<R>, table: seq<R>, v: K, since: real, until: real) {
    && SameRows(rows, Matching(c, table, v, since, until))
    && forall i, j :: 0 <= i < j < |rows| ==> c.at(rows[i]) <= c.at(rows[j])
  }

  /**
   * What the range query answers: rows of the vehicle with both bounds included,
   * each as often as the table has it, no other row, and oldest first.
   */
  lemma RangeExact<R, K>(c: Columns<R, K>, rows: seq<R>, table: seq<R>, v: K, since: real, until: real)
    ensures RecentAnomalies(c, rows, table, v, since, until) <==>
            && (forall r :: multiset(rows)[r]
                  == if c.vehicle(r) == v && since <= c.at(r) <= until then multiset(table)[r] else 0)
            && forall i, j :: 0 <= i < j < |rows| ==> c.at(rows[i]) <= c.at(rows[j])
  {
    hide Matching;
    var matching := Matching(c, table, v, since, until);
    forall r
      ensures multiset(matching)[r] == if c.vehicle(r) == v && since <= c.at(r) <= until then multiset(table)[r] else 0
    {
      MatchingExact(c, table, v, since, until, r);
    }
    if forall r :: multiset(rows)[r] == multiset(matching)[r] {
      EquallyOften(multiset(rows), multiset(matching));
    }
  }

  lemma EquallyOften<R>(a: multiset<R>, b: multiset<R>)
    requires forall r :: a[r] == b[r]
    ensures a == b
  {
  }

  /** The latest anomaly of a vehicle is as new as the end of its unbounded range query. */
  lemma LatestEndsRecent<R, K>(c: Columns<R, K>, table: seq<R>, sorted: seq<R>, i: nat, rows: seq<R>, since: real,
      until: real)
    requires SameRows(sorted, table) && LatestFirst(c, sorted) && i < |DistinctOn(c, sorted)|
    requires var v := c.vehicle(DistinctOn(c, sorted)[i]);
      && (forall k :: 0 <= k < |table| && c.vehicle(table[k]) == v ==> since <= c.at(table[k]) <= until)
      && RecentAnomalies(c, rows, table, v, since, until)
    ensures rows != [] && c.at(rows[|rows| - 1]) == c.at(DistinctOn(c, sorted)[i])
    ensures DistinctOn(c, sorted)[i] in rows
  {
    hide SameRows, DistinctOn, RecentAnomalies, Matching;
    var latest := DistinctOn(c, sorted)[i];
    var v := c.vehicle(latest);
    LatestPerVehicle(c, table, sorted);
    RangeExact(c, rows, table, v, since, until);
    var k :| 0 <= k < |table| && table[k] == latest;
    assert multiset(table)[latest] > 0 && multiset(rows)[latest] > 0;
    var m :| 0 <= m < |rows| && rows[m] == latest;
    var end := rows[|rows| - 1];
    assert multiset(rows)[end] > 0 && multiset(table)[end] > 0;
    var e :| 0 <= e < |table| && table[e] == end;
  }

  // ---- Against the live store ----------------------------------------------------------------------

  /** How a store that shows arrivals reads a row. */
  ghost function ByVehicle<R, K>(c: Columns<R, K>): LastWrite.Reading<R, K, R> {
    (r: R) => Some((c.vehicle(r), r))
  }

  /** `arrivals[k]` is the vehicle's last; `arrivals` is the table in the order its rows reach the store. */
  ghost predicate IsLast<R, K>(c: Columns<R, K>, arrivals: seq<R>, k: nat, v: K) {
    && k < |arrivals| && c.vehicle(arrivals[k]) == v
    && forall m :: k < m < |arrivals| ==> c.vehicle(arrivals[m]) != v
  }

  lemma {:induction false} LastArrival<R, K>(c: Columns<R, K>, arrivals: seq<R>, v: K) returns (k: nat)
    requires HasRow(c, arrivals, v)
    ensures IsLast(c, arrivals, k, v) && Last(ByVehicle(c), arrivals, v) == Some(arrivals[k])
    decreases |arrivals|
  {
    var n := |arrivals| - 1;
    if c.vehicle(arrivals[n]) == v {
      k := n;
    } else {
      RowInPrefix(c, arrivals, v);
      k := LastArrival(c, arrivals[..n], v);
    }
  }

  /** The last to arrive is as new as any that arrived before it. */
  ghost predicate LastIsNewest<R, K>(c: Columns<R, K>, arrivals: seq<R>, v: K) {
    forall i, k :: 0 <= i < k < |arrivals| && IsLast(c, arrivals, k, v) && c.vehicle(arrivals[i]) == v ==>
      c.at(arrivals[i]) <= c.at(arrivals[k])
  }

  ghost predicate InTimeOrder<R, K>(c: Columns<R, K>, arrivals: seq<R>, v: K) {
    forall i, j :: 0 <= i < j < |arrivals| && c.vehicle(arrivals[i]) == v && c.vehicle(arrivals[j]) == v ==>
      c.at(arrivals[i]) <= c.at(arrivals[j])
  }

  /**
   * A store showing arrivals has an anomaly as new as the query's exactly when
   * the vehicle's last to arrive is its newest, as when they arrive in time order.
   */
  lemma LiveAgreesIff<R, K>(c: Columns<R, K>, arrivals: seq<R>, sorted: seq<R>, i: nat)
    requires SameRows(sorted, arrivals) && LatestFirst(c, sorted) && i < |DistinctOn(c, sorted)|
    ensures var latest, store := DistinctOn(c, sorted)[i], FoldAny(ByVehicle(c), map[], arrivals);
      var v := c.vehicle(latest);
      && v in store
      && (c.at(store[v]) == c.at(latest) <==> LastIsNewest(c, arrivals, v))
      && (InTimeOrder(c, arrivals, v) ==> LastIsNewest(c, arrivals, v))
  {
    hide SameRows, DistinctOn, LatestFirst;
    var latest := DistinctOn(c, sorted)[i];
    LatestPerVehicle(c, arrivals, sorted);
    var m :| 0 <= m < |arrivals| && arrivals[m] == latest;
    RowAt(c, arrivals, m);
    var k := LastArrival(c, arrivals, c.vehicle(latest));
    AnyAt(ByVehicle(c), map[], arrivals, c.vehicle(latest));
  }

  // ---- Ties ------------------------------------------------------------------------------------------

  const COLUMNS: Columns<AnomalyRow, string> := Columns((r: AnomalyRow) => r.vehicle, (r: AnomalyRow) => r.detectedAt)

  const EARLY: AnomalyRow := AnomalyRow("v", Finding(FaultStatus, NoDetail), 1.0)
  const LATE: AnomalyRow := AnomalyRow("v", Finding(Overspeed, Speed(6.0)), 1.0)

  lemma TiePicksEarly()
    ensures DistinctOn(COLUMNS, [EARLY, LATE]) == [EARLY]
  {
    assert Heads(COLUMNS, [EARLY, LATE], 1) == [0];
    assert Heads(COLUMNS, [EARLY, LATE], 2) == [0];
  }

  /** At equal times, as when one reading raises two, the query may pick either row: the two can differ in kind. */
  lemma TiesMayDiffer()
    ensures var rows := [EARLY, LATE];
      && SameRows(rows, rows) && LatestFirst(COLUMNS, rows) && InTimeOrder(COLUMNS, rows, "v")
      && DistinctOn(COLUMNS, rows) == [EARLY]
      && FoldAny(ByVehicle(COLUMNS), map[], rows) == map["v" := LATE]
  {
    hide DistinctOn;
    var rows := [EARLY, LATE];
    TiePicksEarly();
    assert rows[..1] == [EARLY] && [EARLY][..0] == [];
    assert FoldAny(ByVehicle(COLUMNS), map[], [EARLY]) == map["v" := EARLY];
  }
}
