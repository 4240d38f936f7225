/** Membership, distinctness and sums of sequences. */
module Sequences {

  predicate Distinct<T(==)>(s: seq<T>) {
    forall i, j :: 0 <= i < j < |s| ==> s[i] != s[j]
  }

  predicate Occurs<T(==)>(s: seq<T>, x: T) {
    exists i :: 0 <= i < |s| && s[i] == x
  }

  lemma NoneOccur<T>(x: T)
    ensures !Occurs([], x)
  {
  }

  lemma OccursNext<T>(s: seq<T>, last: T, x: T)
    ensures Occurs(s + [last], x) <==> Occurs(s, x) || x == last
  {
    var longer := s + [last];
    if i :| 0 <= i < |s| && s[i] == x {
      assert longer[i] == x;
    }
    assert longer[|s|] == last;
  }

  lemma OccursPrefix<T>(s: seq<T>, n: nat, x: T)
    requires n < |s|
    ensures Occurs(s[..n + 1], x) <==> Occurs(s[..n], x) || x == s[n]
  {
    OccursNext(s[..n], s[n], x);
    assert s[..n + 1] == s[..n] + [s[n]];
  }

  lemma OccursFirst<T>(s: seq<T>, x: T)
    requires s != []
    ensures Occurs(s, x) <==> s[0] == x || Occurs(s[1..], x)
  {
    if i :| 0 <= i < |s[1..]| && s[1..][i] == x {
      assert s[i + 1] == x;
    }
    if i :| 0 <= i < |s| && s[i] == x {
      assert i > 0 ==> s[1..][i - 1] == x;
    }
  }

  lemma OccursConcat<T>(a: seq<T>, b: seq<T>, x: T)
    ensures Occurs(a + b, x) <==> Occurs(a, x) || Occurs(b, x)
  {
    if i :| 0 <= i < |a| && a[i] == x {
      assert (a + b)[i] == x;
    }
    if i :| 0 <= i < |b| && b[i] == x {
      assert (a + b)[|a| + i] == x;
    }
  }

  /** The last element of distinct ones does not occur before it. */
  lemma DistinctPrefix<T>(s: seq<T>)
    requires s != [] && Distinct(s)
    ensures Distinct(s[..|s| - 1]) && !Occurs(s[..|s| - 1], s[|s| - 1])
  {
  }

  function Sum(ns: seq<nat>): nat {
    if ns == [] then 0 else Sum(ns[..|ns| - 1]) + ns[|ns| - 1]
  }

  lemma {:induction false} SumUpdate(ns: seq<nat>, i: nat, n: nat)
    requires i < |ns|
    ensures Sum(ns[i := n]) == Sum(ns) - ns[i] + n
    decreases |ns|
  {
    var m := |ns| - 1;
    if i < m {
      SumUpdate(ns[..m], i, n);
      assert ns[i := n][..m] == ns[..m][i := n];
    } else {
      assert ns[i := n][..m] == ns[..m];
    }
  }

  lemma {:induction false} SumConstant(ns: seq<nat>, n: nat)
    requires forall i :: 0 <= i < |ns| ==> ns[i] == n
    ensures Sum(ns) == n * |ns|
    decreases |ns|
  {
    if ns != [] {
      SumConstant(ns[..|ns| - 1], n);
    }
  }
}
