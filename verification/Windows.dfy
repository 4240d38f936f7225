/** How many points at least `gap` apart fit in a time window. */
module Windows {

  ghost predicate Spaced(ts: seq<real>, gap: real) {
    forall i, j :: 0 <= i < j < |ts| ==> ts[j] - ts[i] >= gap
  }

  ghost predicate Within(ts: seq<real>, from: real, length: real) {
    forall i :: 0 <= i < |ts| ==> from <= ts[i] <= from + length
  }

  lemma {:induction false} SpanGrows(ts: seq<real>, gap: real)
    requires gap > 0.0 && Spaced(ts, gap) && ts != []
    ensures ts[|ts| - 1] - ts[0] >= (|ts| - 1) as real * gap
    decreases |ts|
  {
    var n := |ts|;
    if n > 1 {
      SpanGrows(ts[..n - 1], gap);
      assert (n - 1) as real * gap == (n - 2) as real * gap + gap;
    }
  }

  lemma DivideBound(k: real, gap: real, length: real)
    requires gap > 0.0 && k * gap <= length
    ensures k <= length / gap
  {
    var q := length / gap;
    assert q * gap == length;
    assert (q - k) * gap >= 0.0;
  }

  /** At most floor(length / gap) + 1 of them. */
  lemma WindowBound(ts: seq<real>, gap: real, from: real, length: real)
    requires gap > 0.0 && length >= 0.0
    requires Spaced(ts, gap) && Within(ts, from, length)
    ensures |ts| <= (length / gap).Floor + 1
  {
    if ts != [] {
      SpanGrows(ts, gap);
      DivideBound((|ts| - 1) as real, gap, length);
    } else {
      DivideBound(0.0, gap, length);
    }
  }
}
