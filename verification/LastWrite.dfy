/**
 * Last-write-wins replicas of a stream: what a key holds after folding patches,
 * and why a stream that rewinds and replays leaves the same values.
 */
module LastWrite {
  import opened Wrappers

  /** How a patch stream is read: the key and value an event writes, if any. */
  type Reading<!E, K, V> = E -> Option<(K, V)>

  /** The last value written to `k`. */
  function Last<E, K(==), V>(f: Reading<E, K, V>, es: seq<E>, k: K): Option<V> {
    if es == [] then None else
    match f(es[|es| - 1])
    case Some((key, v)) => if key == k then Some(v) else Last(f, es[..|es| - 1], k)
    case None => Last(f, es[..|es| - 1], k)
  }

  function Or<V>(o: Option<V>, otherwise: V): V {
    if o.Some? then o.value else otherwise
  }

  /** One patch to a closed key set: unknown keys are dropped. */
  function PatchKnown<E, K, V>(f: Reading<E, K, V>, m: map<K, V>, e: E): map<K, V> {
    match f(e)
    case Some((k, v)) => if k in m then m[k := v] else m
    case None => m
  }

  /** One patch to an open key set: unknown keys are added. */
  function PatchAny<E, K, V>(f: Reading<E, K, V>, m: map<K, V>, e: E): map<K, V> {
    match f(e)
    case Some((k, v)) => m[k := v]
    case None => m
  }

  function FoldKnown<E, K, V>(f: Reading<E, K, V>, m: map<K, V>, es: seq<E>): map<K, V> {
    if es == [] then m else PatchKnown(f, FoldKnown(f, m, es[..|es| - 1]), es[|es| - 1])
  }

  function FoldAny<E, K, V>(f: Reading<E, K, V>, m: map<K, V>, es: seq<E>): map<K, V> {
    if es == [] then m else PatchAny(f, FoldAny(f, m, es[..|es| - 1]), es[|es| - 1])
  }

  lemma FoldKnownSnoc<E, K, V>(f: Reading<E, K, V>, m: map<K, V>, es: seq<E>, e: E)
    ensures FoldKnown(f, m, es + [e]) == PatchKnown(f, FoldKnown(f, m, es), e)
  {
    assert (es + [e])[..|es|] == es;
  }

  lemma FoldAnySnoc<E, K, V>(f: Reading<E, K, V>, m: map<K, V>, es: seq<E>, e: E)
    ensures FoldAny(f, m, es + [e]) == PatchAny(f, FoldAny(f, m, es), e)
  {
    assert (es + [e])[..|es|] == es;
  }

  // ---- What a fold leaves ------------------------------------------------------------

  lemma {:induction false} KnownAt<E, K, V>(f: Reading<E, K, V>, m: map<K, V>, es: seq<E>)
    ensures FoldKnown(f, m, es).Keys == m.Keys
    ensures forall k :: k in m ==> FoldKnown(f, m, es)[k] == Or(Last(f, es, k), m[k])
    decreases |es|
  {
    if es != [] {
      KnownAt(f, m, es[..|es| - 1]);
    }
  }

  lemma {:induction false} AnyAt<E, K, V>(f: Reading<E, K, V>, m: map<K, V>, es: seq<E>, k: K)
    ensures k in FoldAny(f, m, es) <==> k in m || Last(f, es, k).Some?
    ensures Last(f, es, k).Some? ==> FoldAny(f, m, es)[k] == Last(f, es, k).value
    ensures Last(f, es, k).None? && k in m ==> FoldAny(f, m, es)[k] == m[k]
    decreases |es|
  {
    if es != [] {
      AnyAt(f, m, es[..|es| - 1], k);
    }
  }

  lemma {:induction false} LastConcat<E, K, V>(f: Reading<E, K, V>, a: seq<E>, b: seq<E>, k: K)
    ensures Last(f, a + b, k) == if Last(f, b, k).Some? then Last(f, b, k) else Last(f, a, k)
    decreases |b|
  {
    if b == [] {
      assert a + b == a;
    } else {
      assert (a + b)[..|a + b| - 1] == a + b[..|b| - 1];
      LastConcat(f, a, b[..|b| - 1], k);
    }
  }

  /** Splits the history of `k` at position `i`. */
  lemma LastSplit<E, K, V>(f: Reading<E, K, V>, es: seq<E>, i: nat, j: nat, k: K)
    requires i <= j <= |es|
    ensures Last(f, es[..j], k) == if Last(f, es[i..j], k).Some? then Last(f, es[i..j], k) else Last(f, es[..i], k)
  {
    assert es[..j] == es[..i] + es[i..j];
    LastConcat(f, es[..i], es[i..j], k);
  }

  /** A stretch without writes to `k` has none in any part of it. */
  lemma NoneWithin<E, K, V>(f: Reading<E, K, V>, es: seq<E>, i: nat, j: nat, n: nat, k: K)
    requires i <= j <= n <= |es| && Last(f, es[i..n], k).None?
    ensures Last(f, es[j..n], k).None?
  {
    assert es[i..n] == es[i..j] + es[j..n];
    LastConcat(f, es[i..j], es[j..n], k);
  }

  /** A fold is decided by the last write to each key. */
  lemma FoldsAgree<E, K(!new), V>(f: Reading<E, K, V>, m: map<K, V>, a: seq<E>, b: seq<E>)
    requires forall k :: Last(f, a, k) == Last(f, b, k)
    ensures FoldKnown(f, m, a) == FoldKnown(f, m, b)
    ensures FoldAny(f, m, a) == FoldAny(f, m, b)
  {
    hide Last, FoldKnown, FoldAny;
    KnownAt(f, m, a);
    KnownAt(f, m, b);
    forall k
      ensures k in FoldAny(f, m, a) <==> k in FoldAny(f, m, b)
      ensures k in FoldAny(f, m, a) ==> FoldAny(f, m, a)[k] == FoldAny(f, m, b)[k]
    {
      AnyAt(f, m, a, k);
      AnyAt(f, m, b, k);
    }
  }

  // ---- Streams that rewind -------------------------------------------------------------

  /** A stretch of a stream, replayed in order. */
  datatype Segment = Segment(from: nat, to: nat)

  /** Each stretch starts no later than the one before it ended. */
  ghost predicate Chain(segments: seq<Segment>, length: nat) {
    && (forall i :: 0 <= i < |segments| ==> segments[i].from <= segments[i].to <= length)
    && (segments != [] ==> segments[0].from == 0)
    && (forall i, j :: 0 <= i < j < |segments| && j == i + 1 ==> segments[j].from <= segments[i].to)
  }

  ghost function Replay<E>(es: seq<E>, segments: seq<Segment>): seq<E>
    requires Chain(segments, |es|)
  {
    if segments == [] then [] else
    var n := |segments| - 1;
    Replay(es, segments[..n]) + es[segments[n].from..segments[n].to]
  }

  function Furthest(segments: seq<Segment>): nat {
    if segments == [] then 0 else
    Max(Furthest(segments[..|segments| - 1]), segments[|segments| - 1].to)
  }

  lemma {:induction false} FurthestBound(segments: seq<Segment>, length: nat)
    requires Chain(segments, length)
    ensures Furthest(segments) <= length
    decreases |segments|
  {
    if segments != [] {
      FurthestBound(segments[..|segments| - 1], length);
    }
  }

  /** After any replay, each key is as of some position between the last end and the furthest. */
  lemma {:induction false} ReplayPosition<E, K, V>(f: Reading<E, K, V>, es: seq<E>, segments: seq<Segment>, k: K)
    returns (j: nat)
    requires Chain(segments, |es|) && segments != []
    ensures segments[|segments| - 1].to <= j <= Furthest(segments) <= |es|
    ensures Last(f, Replay(es, segments), k) == Last(f, es[..j], k)
    decreases |segments|
  {
    var n := |segments| - 1;
    var s, e := segments[n].from, segments[n].to;
    var rest := segments[..n];
    LastConcat(f, Replay(es, rest), es[s..e], k);
    LastSplit(f, es, s, e, k);
    j := e;
    if n > 0 {
      var i := ReplayPosition(f, es, rest, k);
      assert s <= rest[n - 1].to <= i;
      if Last(f, es[s..e], k).None? {
        if i <= e {
          NoneWithin(f, es, s, i, e, k);
          LastSplit(f, es, i, e, k);
        } else {
          j := i;
        }
      }
    } else {
      assert Replay(es, rest) == [];
      assert es[..s] == [];
    }
  }

  /**
   * Replay convergence: if the last stretch reaches the furthest position, every
   * key last holds what the straight stream up to there would have left.
   */
  lemma {:induction false} ReplayConverges<E, K, V>(f: Reading<E, K, V>, es: seq<E>, segments: seq<Segment>, k: K)
    requires Chain(segments, |es|) && segments != []
    requires segments[|segments| - 1].to == Furthest(segments)
    ensures Furthest(segments) <= |es|
    ensures Last(f, Replay(es, segments), k) == Last(f, es[..Furthest(segments)], k)
  {
    var j := ReplayPosition(f, es, segments, k);
  }

  /** So folding the replayed stream gives the map that the straight stream gives. */
  lemma ReplayFolds<E, K(!new), V>(f: Reading<E, K, V>, m: map<K, V>, es: seq<E>, segments: seq<Segment>)
    requires Chain(segments, |es|) && segments != []
    requires segments[|segments| - 1].to == Furthest(segments)
    ensures Furthest(segments) <= |es|
    ensures FoldKnown(f, m, Replay(es, segments)) == FoldKnown(f, m, es[..Furthest(segments)])
    ensures FoldAny(f, m, Replay(es, segments)) == FoldAny(f, m, es[..Furthest(segments)])
  {
    hide Last, FoldKnown, FoldAny, Chain, Replay, Furthest;
    FurthestBound(segments, |es|);
    forall k ensures Last(f, Replay(es, segments), k) == Last(f, es[..Furthest(segments)], k) {
      ReplayConverges(f, es, segments, k);
    }
    FoldsAgree(f, m, Replay(es, segments), es[..Furthest(segments)]);
  }
}
