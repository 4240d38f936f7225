/**
 * The supervised loop around the consumer: what it does in each iteration and
 * how long it waits, against the outcomes of its probes and streams.
 */
module Supervisor {
  import opened Wrappers
  import opened Sequences

  const BACKOFF_INITIAL: real := 0.5
  const BACKOFF_MAX: real := 10.0

  datatype Probe = Present | Absent | Raises

  /**
   * What one iteration meets: the stop flag at its head, the publication probe,
   * whether creating the slot raises, whether the consumer got to streaming (how
   * it then ended makes no difference), the stop flag after it, and whether the
   * final wait was cut short by a stop.
   */
  datatype Iteration = Iteration(
    stopAtHead: bool, probe: Probe, slotRaises: bool, streaming: bool, stopAfterRun: bool, stopInWait: bool)

  /** What the loop does, in order. */
  datatype Entry = Probed(present: bool) | SlotEnsured | Ran | Waited(seconds: real)

  predicate Ready(it: Iteration) {
    it.probe.Present?
  }

  /** The consumer of this iteration got to streaming. */
  predicate Streamed(it: Iteration) {
    Ready(it) && !it.slotRaises && it.streaming
  }

  /** The iteration in which a stop is noticed is the last. */
  predicate Stops(it: Iteration) {
    it.stopAtHead || (Ready(it) && it.stopAfterRun) || it.stopInWait
  }

  // ---- Waits ---------------------------------------------------------------------------------

  function Pow2(k: nat): (p: nat)
    ensures p >= 1
  {
    if k == 0 then 1 else 2 * Pow2(k - 1)
  }

  function Least(a: real, b: real): real {
    if b < a then b else a
  }

  function Backoff(k: nat): real {
    Least(BACKOFF_INITIAL * Pow2(k) as real, BACKOFF_MAX)
  }

  /** Doubling under the cap is the closed form. */
  lemma BackoffDoubles(k: nat)
    ensures Least(Backoff(k) * 2.0, BACKOFF_MAX) == Backoff(k + 1)
    ensures BACKOFF_INITIAL <= Backoff(k) <= Backoff(k + 1) <= BACKOFF_MAX
  {
    assert Pow2(k + 1) as real == 2.0 * Pow2(k) as real;
  }

  /** How many probes in a row had found no publication before iteration `i`. */
  function Misses(its: seq<Iteration>, i: nat): nat
    requires i <= |its|
  {
    if i == 0 || Ready(its[i - 1]) then 0 else Misses(its, i - 1) + 1
  }

  /** How many stream attempts were made before iteration `i`, from the last that streamed on. */
  function Attempts(its: seq<Iteration>, i: nat): nat
    requires i <= |its|
  {
    if i == 0 then 0
    else if !Ready(its[i - 1]) then Attempts(its, i - 1)
    else if Streamed(its[i - 1]) then 1
    else Attempts(its, i - 1) + 1
  }

  function StreamRank(its: seq<Iteration>, i: nat): nat
    requires i < |its|
  {
    if Streamed(its[i]) then 0 else Attempts(its, i)
  }

  /** What iteration `i` does. */
  function Entries(its: seq<Iteration>, i: nat): seq<Entry>
    requires i < |its|
  {
    var it := its[i];
    if it.stopAtHead then []
    else if !Ready(it) then [Probed(false), Waited(Backoff(Misses(its, i)))]
    else
      [Probed(true), SlotEnsured]
      + (if it.slotRaises then [] else [Ran])
      + (if it.stopAfterRun then [] else [Waited(Backoff(StreamRank(its, i)))])
  }

  function Trace(its: seq<Iteration>, n: nat): seq<Entry>
    requires n <= |its|
  {
    if n == 0 then [] else Trace(its, n - 1) + Entries(its, n - 1)
  }

  predicate StopsWithin(its: seq<Iteration>, n: nat)
    requires n <= |its|
  {
    exists i :: 0 <= i < n && Stops(its[i])
  }

  /**
   * The loop over the iterations given: it leaves only at the first that
   * notices a stop, and otherwise is still going when they are used up.
   */
  method RunForever(its: seq<Iteration>) returns (log: seq<Entry>, done: nat, stopped: bool)
    ensures done <= |its| && log == Trace(its, done)
    ensures stopped <==> StopsWithin(its, |its|)
    ensures stopped ==>
              && done > 0
              && (var last := its[done - 1];
                  last.stopAtHead || (last.probe == Present && last.stopAfterRun) || last.stopInWait)
    ensures forall i :: 0 <= i < done - (if stopped then 1 else 0) ==>
              && !its[i].stopAtHead && !its[i].stopInWait
              && (its[i].probe == Present ==> !its[i].stopAfterRun)
    ensures !stopped ==> done == |its|
  {
    hide Backoff, Least, Streamed, StreamRank, Misses, Attempts, StopsWithin, Trace;
    var readyBackoff, streamBackoff := BACKOFF_INITIAL, BACKOFF_INITIAL;
    Start(its);
    log, done, stopped := [], 0, false;
    while done < |its|
      invariant done <= |its| && !stopped && log == Trace(its, done) && !StopsWithin(its, done)
      invariant readyBackoff == Backoff(Misses(its, done))
      invariant streamBackoff == Backoff(Attempts(its, done))
    {
      var it := its[done];
      ghost var i := done;
      BackoffDoubles(Misses(its, i));
      BackoffDoubles(StreamRank(its, i));
      Next(its, i);
      NoneStops(its, i);
      done := done + 1;
      if it.stopAtHead {
        stopped := true;
        return;
      }
      var ready := it.probe == Present;
      log := log + [Probed(ready)];
      if !ready {
        log := log + [Waited(readyBackoff)];
        if it.stopInWait {
          stopped := true;
          return;
        }
        readyBackoff := Least(readyBackoff * 2.0, BACKOFF_MAX);
        continue;
      }
      readyBackoff := BACKOFF_INITIAL;
      var streaming := false;
      log := log + [SlotEnsured];
      if !it.slotRaises {
        log := log + [Ran];
        streaming := it.streaming;
      }
      if it.stopAfterRun {
        stopped := true;
        return;
      }
      if streaming {
        streamBackoff := BACKOFF_INITIAL;
      }
      log := log + [Waited(streamBackoff)];
      if it.stopInWait {
        stopped := true;
        return;
      }
      streamBackoff := Least(streamBackoff * 2.0, BACKOFF_MAX);
    }
    NoneStops(its, done);
  }

  lemma NoneStops(its: seq<Iteration>, n: nat)
    requires n <= |its| && !StopsWithin(its, n)
    ensures forall i :: 0 <= i < n ==>
              && !its[i].stopAtHead && !its[i].stopInWait
              && (its[i].probe == Present ==> !its[i].stopAfterRun)
  {
    assert forall i :: 0 <= i < n ==> !Stops(its[i]);
  }

  lemma Start(its: seq<Iteration>)
    ensures Backoff(0) == BACKOFF_INITIAL && Misses(its, 0) == 0 && Attempts(its, 0) == 0 && !StopsWithin(its, 0)
    ensures Trace(its, 0) == []
  {
  }

  lemma Next(its: seq<Iteration>, i: nat)
    requires i < |its|
    ensures Misses(its, i + 1) == (if Ready(its[i]) then 0 else Misses(its, i) + 1)
    ensures Attempts(its, i + 1) == if Ready(its[i]) then StreamRank(its, i) + 1 else Attempts(its, i)
    ensures Backoff(0) == BACKOFF_INITIAL
    ensures StreamRank(its, i)
         == if Ready(its[i]) && !its[i].slotRaises && its[i].streaming then 0 else Attempts(its, i)
    ensures StopsWithin(its, i + 1) <==> StopsWithin(its, i) || Stops(its[i])
    ensures Stops(its[i]) ==> StopsWithin(its, |its|)
    ensures Trace(its, i + 1) == Trace(its, i) + Entries(its, i)
  {
  }

  // ---- Properties of what it does ------------------------------------------------------------------

  /** The slot is never ensured but right after a probe that found the publication, and each wait ends an iteration. */
  lemma {:induction false} SlotAfterProbe(its: seq<Iteration>, n: nat, k: nat)
    requires n <= |its| && k < |Trace(its, n)|
    ensures Trace(its, n)[k] == SlotEnsured ==> k > 0 && Trace(its, n)[k - 1] == Probed(true)
    ensures Trace(its, n)[k] == Ran ==> k > 0 && Trace(its, n)[k - 1] == SlotEnsured
    decreases n
  {
    hide Backoff;
    var before := |Trace(its, n - 1)|;
    if k < before {
      SlotAfterProbe(its, n - 1, k);
    } else {
      assert Trace(its, n)[k] == Entries(its, n - 1)[k - before];
      assert k > before ==> Trace(its, n)[k - 1] == Entries(its, n - 1)[k - 1 - before];
    }
  }

  /**
   * What one iteration may do, said of its entries: nothing if a stop is noticed
   * at its head, and otherwise first of all one probe. The slot is ensured if the
   * probe found the publication, the consumer runs if that did not raise, and
   * a wait ends the iteration unless a stop was noticed after the run.
   */
  ghost predicate Did(it: Iteration, es: seq<Entry>) {
    && Distinct(es)
    && (it.stopAtHead <==> es == [])
    && (!it.stopAtHead ==> es[0] == Probed(it.probe == Present) && !Occurs(es, Probed(it.probe != Present)))
    && (Occurs(es, SlotEnsured) <==> !it.stopAtHead && it.probe == Present)
    && (Occurs(es, Ran) <==> !it.stopAtHead && it.probe == Present && !it.slotRaises)
    && (!it.stopAtHead ==> (es[|es| - 1].Waited? <==> !(it.probe == Present && it.stopAfterRun)))
    && (forall k :: 0 <= k < |es| - 1 ==> !es[k].Waited?)
  }

  function Flat(parts: seq<seq<Entry>>): seq<Entry> {
    if parts == [] then [] else Flat(parts[..|parts| - 1]) + parts[|parts| - 1]
  }

  lemma EntriesDid(its: seq<Iteration>, i: nat)
    requires i < |its|
    ensures Did(its[i], Entries(its, i))
  {
    hide Backoff, StreamRank, Misses;
    var it, es := its[i], Entries(its, i);
    if !it.stopAtHead && Ready(it) {
      assert es[1] == SlotEnsured;
      assert !it.slotRaises ==> es[2] == Ran;
    }
  }

  /** The trace is what the iterations did, one after another, and each did what its outcomes say. */
  lemma {:induction false} EachInTurn(its: seq<Iteration>, n: nat) returns (parts: seq<seq<Entry>>)
    requires n <= |its|
    ensures |parts| == n && Trace(its, n) == Flat(parts)
    ensures forall i :: 0 <= i < n ==> parts[i] == Entries(its, i) && Did(its[i], parts[i])
    decreases n
  {
    hide Did, Entries;
    if n == 0 {
      parts := [];
    } else {
      var before := EachInTurn(its, n - 1);
      EntriesDid(its, n - 1);
      parts := before + [Entries(its, n - 1)];
      assert parts[..n - 1] == before;
    }
  }

  /** The wait that ends an iteration, if it gets that far. */
  function WaitOf(its: seq<Iteration>, i: nat): Option<real>
    requires i < |its|
  {
    var es := Entries(its, i);
    if es != [] && es[|es| - 1].Waited? then Some(es[|es| - 1].seconds) else None
  }

  /** After a probe that succeeded, or at the start, the j-th probe failure in a row waits min(0.5 * 2^j, 10). */
  lemma {:induction false} ProbeFailures(its: seq<Iteration>, i: nat, j: nat)
    requires i + j < |its| && (i == 0 || its[i - 1].probe == Present)
    requires forall k :: i <= k <= i + j ==> its[k].probe != Present && !its[k].stopAtHead
    ensures WaitOf(its, i + j) == Some(Least(0.5 * Pow2(j) as real, 10.0))
    decreases j
  {
    MissesInRow(its, i, j);
  }

  lemma {:induction false} MissesInRow(its: seq<Iteration>, i: nat, j: nat)
    requires i + j < |its| && (i == 0 || Ready(its[i - 1]))
    requires forall k :: i <= k < i + j ==> !Ready(its[k])
    ensures Misses(its, i + j) == j
    decreases j
  {
    if j > 0 {
      MissesInRow(its, i, j - 1);
    }
  }

  /** How many of the iterations from `lo` and before `hi` got past the probe. */
  function Passed(its: seq<Iteration>, lo: nat, hi: nat): nat
    requires lo <= hi <= |its|
    decreases hi
  {
    if hi == lo then 0 else Passed(its, lo, hi - 1) + if its[hi - 1].probe == Present then 1 else 0
  }

  /**
   * An attempt that streamed waits 0.5; the j-th attempt in a row after it that
   * never streams waits min(0.5 * 2^j, 10), whatever probes fail in between.
   */
  lemma {:induction false} StreamFailures(its: seq<Iteration>, i: nat, last: nat)
    requires i <= last < |its| && its[i].probe == Present && !its[i].slotRaises && its[i].streaming
    requires forall k :: i < k <= last ==> its[k].probe != Present || its[k].slotRaises || !its[k].streaming
    requires its[last].probe == Present && !its[last].stopAtHead && !its[last].stopAfterRun
    ensures WaitOf(its, last) == Some(Least(0.5 * Pow2(Passed(its, i + 1, last + 1)) as real, 10.0))
  {
    if i < last {
      AttemptsInRow(its, i, last);
    }
  }

  lemma {:induction false} AttemptsInRow(its: seq<Iteration>, i: nat, last: nat)
    requires i < last < |its| && Streamed(its[i]) && forall k :: i < k < last ==> !Streamed(its[k])
    ensures Attempts(its, last) == 1 + Passed(its, i + 1, last)
    decreases last
  {
    if i < last - 1 {
      AttemptsInRow(its, i, last - 1);
    }
  }

  /** With no attempt having streamed yet, the waits grow in the same way from the start. */
  lemma {:induction false} FirstAttempts(its: seq<Iteration>, last: nat)
    requires last < |its|
    requires forall k :: 0 <= k <= last ==> its[k].probe != Present || its[k].slotRaises || !its[k].streaming
    requires its[last].probe == Present && !its[last].stopAtHead && !its[last].stopAfterRun
    ensures WaitOf(its, last) == Some(Least(0.5 * Pow2(Passed(its, 0, last)) as real, 10.0))
  {
    AttemptsFromStart(its, last);
  }

  lemma {:induction false} AttemptsFromStart(its: seq<Iteration>, n: nat)
    requires n <= |its| && forall k :: 0 <= k < n ==> !Streamed(its[k])
    ensures Attempts(its, n) == Passed(its, 0, n)
    decreases n
  {
    if n > 0 {
      AttemptsFromStart(its, n - 1);
    }
  }
}
