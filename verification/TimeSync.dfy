/**
 process_ingest_buffer of time_sync/time_sync.cpp in the machine's 64-bit
 arithmetic, and its agreement with the unbounded estimator.
 */
module TimeSync {
  import opened Options
  import opened TimeSyncEstimator
  import opened TimeSyncProtocol
  import opened Words
  import RB = RingBuffer

  const INT64_MAX := 0x7FFF_FFFF_FFFF_FFFF
  const INT64_MIN := -0x8000_0000_0000_0000
  const UINT64_MAX := 0xFFFF_FFFF_FFFF_FFFF

  /** Conversion to uint64_t: x modulo 2^64, with the division spared where it can be. */
  function U64(x: int): (r: nat)
    ensures r < TWO_64
  {
    if 0 <= x < TWO_64 then x
    else if -TWO_64 <= x < 0 then x + TWO_64
    else x % TWO_64
  }

  /** Conversion to int64_t, in two's complement. */
  function I64(x: int): (r: int)
    ensures INT64_MIN <= r <= INT64_MAX
  {
    if INT64_MIN <= x <= INT64_MAX then x
    else if U64(x) <= INT64_MAX then U64(x)
    else U64(x) - TWO_64
  }

  lemma U64IsModular(x: int)
    ensures U64(x) == x % TWO_64
    ensures I64(x) % TWO_64 == x % TWO_64
  {
  }

  /** The round trip through uint64_t that the original's mixed expressions make. */
  lemma SignedThroughUnsigned(x: int)
    requires INT64_MIN <= x <= INT64_MAX
    ensures I64(U64(x)) == x
  {
    if x < 0 {
      assert U64(x) == x + TWO_64;
    }
  }

  function SafeMinus(a: nat, b: nat): (r: int) {
    if a > b then I64(U64(a - b)) else I64(-I64(U64(b - a)))
  }

  /** safe_minus is the signed difference whenever that fits, else it has wrapped. */
  lemma SafeMinusIsExact(a: nat, b: nat)
    requires a < TWO_64 && b < TWO_64
    ensures SafeMinus(a, b) == a - b <==> INT64_MIN <= a - b <= INT64_MAX
  {
    if a > b {
      SignedThroughUnsigned(if a - b <= INT64_MAX then a - b else 0);
    } else if b - a <= INT64_MAX {
      SignedThroughUnsigned(b - a);
    }
  }

  // ---------------------------------------------------------------- the loop in 64 bits

  function Sample64(t: Triplet): (bounds: (int, int)) {
    (SafeMinus(t.serv, t.recv), I64(U64(t.serv - t.send)))
  }

  predicate Checks64(t: Triplet, nowUs: nat) {
    t.send <= t.recv <= nowUs && Sample64(t).0 <= Sample64(t).1
  }

  function Drift64(rate: nat, nowUs: nat, t: Triplet): nat {
    U64(rate * U64(nowUs - U64(t.recv + t.send) / 2)) / MICRO
  }

  /** One sample's bounds, widened for drift, and its round trip. */
  function Bounds64(rate: nat, nowUs: nat, t: Triplet): Merged {
    var (lower, upper) := Sample64(t);
    var drift := Drift64(rate, nowUs, t);
    Merged(I64(U64(lower - drift)), I64(U64(upper + drift)), U64(upper - lower))
  }

  const Unbounded64 := Merged(INT64_MIN, INT64_MAX, UINT64_MAX)

  function Fold64(rate: nat, nowUs: nat, samples: seq<Triplet>): Merged {
    if samples == [] then Unbounded64
    else Fold64(rate, nowUs, samples[..|samples| - 1]).Join(Bounds64(rate, nowUs, samples[|samples| - 1]))
  }

  function Finish64(rate: nat, m: Merged): (nat, Outcome) {
    if m.ub == INT64_MAX || m.lb == INT64_MIN then (rate, NoEstimate)
    else
      var width := I64(U64(m.ub - m.lb));
      if width <= I64(m.observed / 2) then (U64(rate * 2), NoEstimate)
      else
        (if width >= I64(m.observed) then rate * 9 / 10 else rate,
         Estimate(SyncState(Half(I64(U64(m.ub + m.lb))), U64(m.observed), U64(width))))
  }

  predicate AllChecks64(samples: seq<Triplet>, nowUs: nat) {
    forall t :: t in samples ==> Checks64(t, nowUs)
  }

  function Process64(rate: nat, nowUs: nat, samples: seq<Triplet>): (nat, Outcome) {
    if !AllChecks64(samples, nowUs) then (rate, CheckFailed)
    else Finish64(rate, Fold64(rate, nowUs, samples))
  }

  // ---------------------------------------------------------------- refinement

  const STAMP_LIMIT := 0x2000_0000_0000_0000

  /** Stamps below 2^61 microseconds (73 000 years), and drift products below 2^64. */
  ghost predicate InRange(rate: nat, nowUs: nat, samples: seq<Triplet>) {
    && rate * 2 < TWO_64
    && nowUs < STAMP_LIMIT
    && forall t :: t in samples ==> SampleInRange(rate, nowUs, t)
  }

  ghost predicate SampleInRange(rate: nat, nowUs: nat, t: Triplet) {
    && t.serv < STAMP_LIMIT
    && (Sane(t, nowUs) ==> rate * (nowUs - Midpoint(t)) < TWO_64)
  }

  lemma ScaledAgrees(rate: nat, dt: nat)
    requires rate * dt < TWO_64
    ensures U64(rate * dt) / MICRO == Scaled(rate, dt) < STAMP_LIMIT - 1
  {
    var product := rate * dt;
    assert 0 <= product < TWO_64;
  }

  lemma DriftAgrees(rate: nat, nowUs: nat, t: Triplet)
    requires nowUs < STAMP_LIMIT && SampleInRange(rate, nowUs, t) && Sane(t, nowUs)
    ensures Drift64(rate, nowUs, t) == Drift(rate, nowUs, t) < STAMP_LIMIT - 1
  {
    var dt := nowUs - Midpoint(t);
    assert U64(t.recv + t.send) / 2 == Midpoint(t);
    assert U64(dt) == dt;
    ScaledAgrees(rate, dt);
  }

  lemma SampleAgrees(rate: nat, nowUs: nat, t: Triplet)
    requires nowUs < STAMP_LIMIT && SampleInRange(rate, nowUs, t) && Sane(t, nowUs)
    ensures Sample64(t) == (t.serv - t.recv, t.serv - t.send) && Checks64(t, nowUs)
    ensures -2 * STAMP_LIMIT < Lower(rate, nowUs, t) < STAMP_LIMIT
    ensures -STAMP_LIMIT < Upper(rate, nowUs, t) < 2 * STAMP_LIMIT
    ensures Bounds64(rate, nowUs, t) == Bounds(rate, nowUs, t)
  {
    DriftAgrees(rate, nowUs, t);
    SafeMinusIsExact(t.serv, t.recv);
    SignedThroughUnsigned(t.serv - t.send);
    SignedThroughUnsigned(Lower(rate, nowUs, t));
    SignedThroughUnsigned(Upper(rate, nowUs, t));
  }

  lemma FailedCheck(samples: seq<Triplet>, i: nat, nowUs: nat)
    requires i < |samples| && !Checks64(samples[i], nowUs)
    ensures !AllChecks64(samples, nowUs)
  {
    assert samples[i] in samples;
  }

  lemma FoldAppend(rate: nat, nowUs: nat, samples: seq<Triplet>, t: Triplet)
    ensures AllChecks64(samples, nowUs) && Checks64(t, nowUs) ==> AllChecks64(samples + [t], nowUs)
    ensures Fold64(rate, nowUs, samples + [t]) == Fold64(rate, nowUs, samples).Join(Bounds64(rate, nowUs, t))
  {
    assert (samples + [t])[..|samples + [t]| - 1] == samples;
  }

  lemma {:induction false} FoldAgrees(rate: nat, nowUs: nat, samples: seq<Triplet>)
    requires InRange(rate, nowUs, samples) && AllSane(samples, nowUs) && samples != []
    ensures Fold64(rate, nowUs, samples) == Merge(rate, nowUs, samples)
  {
    hide U64, I64, Bounds64, Sample64, Checks64, Lower, Upper, Drift;
    var n := |samples| - 1;
    var last := samples[n];
    assert last in samples && forall t :: t in samples[..n] ==> t in samples;
    SampleAgrees(rate, nowUs, last);
    assert samples == samples[..n] + [last];
    FoldAppend(rate, nowUs, samples[..n], last);
    if n > 0 {
      FoldAgrees(rate, nowUs, samples[..n]);
    } else {
      assert Fold64(rate, nowUs, samples[..n]) == Unbounded64;
    }
  }

  lemma MergedInRange(rate: nat, nowUs: nat, samples: seq<Triplet>)
    requires InRange(rate, nowUs, samples) && AllSane(samples, nowUs) && samples != []
    ensures
      var m := Merge(rate, nowUs, samples);
      && -2 * STAMP_LIMIT < m.lb < STAMP_LIMIT
      && -STAMP_LIMIT < m.ub < 2 * STAMP_LIMIT
      && 0 <= m.observed < STAMP_LIMIT
  {
    MergeIsTightest(rate, nowUs, samples);
    ObservedIsLeast(rate, nowUs, samples);
    var m := Merge(rate, nowUs, samples);
    var lowest :| lowest in samples && Lower(rate, nowUs, lowest) == m.lb;
    var highest :| highest in samples && Upper(rate, nowUs, highest) == m.ub;
    SampleAgrees(rate, nowUs, lowest);
    SampleAgrees(rate, nowUs, highest);
  }

  /** Within range, the mixed signed and unsigned 64-bit code computes exactly what the
      unbounded estimator does: estimate, drift rate and failed CHECKs alike. */
  lemma FixedWidthIsExact(rate: nat, nowUs: nat, samples: seq<Triplet>)
    requires InRange(rate, nowUs, samples)
    ensures Process64(rate, nowUs, samples) == Process(rate, nowUs, samples)
  {
    if AllSane(samples, nowUs) {
      forall t | t in samples
        ensures Checks64(t, nowUs)
      {
        SampleAgrees(rate, nowUs, t);
      }
      if samples != [] {
        FoldAgrees(rate, nowUs, samples);
        MergedInRange(rate, nowUs, samples);
        var m := Merge(rate, nowUs, samples);
        SignedThroughUnsigned(m.ub - m.lb);
        SignedThroughUnsigned(m.ub + m.lb);
        FinishAgrees(rate, m);
      }
    } else {
      var t :| t in samples && !Sane(t, nowUs);
      assert !Checks64(t, nowUs);
    }
  }

  lemma FinishAgrees(rate: nat, m: Merged)
    requires rate * 2 < TWO_64 && 0 <= m.observed < STAMP_LIMIT
    requires -2 * STAMP_LIMIT < m.lb < STAMP_LIMIT
    requires -STAMP_LIMIT < m.ub < 2 * STAMP_LIMIT
    ensures Finish64(rate, m) ==
            if m.Width() <= m.observed / 2 then (rate * 2, NoEstimate)
            else (if m.Width() >= m.observed then rate * 9 / 10 else rate,
                  Estimate(SyncState(Half(m.ub + m.lb), m.observed, m.Width())))
  {
    SignedThroughUnsigned(m.ub - m.lb);
    SignedThroughUnsigned(m.ub + m.lb);
  }

  /** Adding the estimate modulo 2^64 is exact whenever the true sum is a timestamp,
      whatever the estimate's sign. */
  lemma ServerTimestampIsExact(processTimeUs: nat, offsetEstimate: int)
    requires processTimeUs < TWO_64 && INT64_MIN <= offsetEstimate <= INT64_MAX
    ensures U64(processTimeUs + U64(offsetEstimate)) == processTimeUs + offsetEstimate
            <==> 0 <= processTimeUs + offsetEstimate < TWO_64
  {
    assert U64(offsetEstimate) == offsetEstimate || U64(offsetEstimate) == offsetEstimate + TWO_64;
  }

  // ---------------------------------------------------------------- the class

  lemma StampedAppend(triplets: seq<Triplet>, t: Triplet, nowMs: nat)
    ensures Stamped(triplets + [t], nowMs) == Stamped(triplets, nowMs) + [Sample(nowMs, t)]
  {
  }

  /** run_receive_thread with an answer: a step of the machine, on a queue of the size the
      program gives it. */
  method ReceivePong(ingest: RB.RingBuffer<Triplet>, pong: Pong, nowUs: nat, ghost w: World) returns (queued: bool)
    requires ingest.Valid() && ingest.data.Length == 40
    requires w.ingest == ingest.Contents() && w.now == nowUs
    modifies ingest`tail, ingest`updateCounter, ingest.data
    ensures ingest.Valid()
    ensures ingest.Contents() == Step(w, Receive(pong)).ingest
    ensures queued <==> Step(w, Receive(pong)).ingest != w.ingest
  {
    queued := ingest.Write(Triplet(pong.send, pong.serv, nowUs));
  }

  class IngestContext {
    var clockDriftUsPerSec: nat
    var samples: seq<Sample>
    const durationMs: nat

    constructor (durationMs: nat)
      ensures samples == [] && clockDriftUsPerSec == 40 && this.durationMs == durationMs
    {
      this.durationMs := durationMs;
      clockDriftUsPerSec, samples := 40, [];
    }

    /** TemporalSlidingWindow::remove_old_samples */
    method RemoveOldSamples(currentTimeMs: nat)
      modifies this`samples
      ensures samples == Unexpired(old(samples), MinTime(durationMs, currentTimeMs))
      ensures KeepsTheRecent(old(samples), samples, durationMs, currentTimeMs)
    {
      hide KeepsTheRecent;
      var minTimeMs := 0;
      if durationMs < currentTimeMs {
        minTimeMs := currentTimeMs - durationMs;
      }
      var kept := [];
      for i := 0 to |samples|
        invariant samples == old(samples)
        invariant kept == Unexpired(samples[..i], minTimeMs)
      {
        assert samples[..i + 1][..i] == samples[..i];
        if minTimeMs <= samples[i].timeMs {
          kept := kept + [samples[i]];
        }
      }
      assert samples[..|samples|] == samples;
      TrimmingKeepsTheRecent(samples, durationMs, currentTimeMs);
      samples := kept;
    }

    /** Moves everything in the ingest buffer into the window. */
    method Ingest(ingest: RB.RingBuffer<Triplet>, currentTimeMs: nat)
      requires ingest.Valid()
      modifies this`samples, ingest`head
      ensures ingest.Valid()
      ensures ingest.stopped ==> ingest.Contents() == old(ingest.Contents()) && samples == old(samples)
      ensures !ingest.stopped ==>
                ingest.Contents() == [] && samples == old(samples) + Stamped(old(ingest.Contents()), currentTimeMs)
    {
      ghost var queue := ingest.Contents();
      ghost var drained: seq<Triplet> := [];
      var ok, times := ingest.Read(Triplet(0, 0, 0));
      while ok
        invariant ingest.Valid()
        invariant queue == drained + (if ok then [times] else []) + ingest.Contents()
        invariant !ok ==> ingest.stopped || ingest.Contents() == []
        invariant ingest.stopped ==> drained == [] && !ok
        invariant samples == old(samples) + Stamped(drained, currentTimeMs)
        decreases |ingest.Contents()|, ok
      {
        samples := samples + [Sample(currentTimeMs, times)];
        StampedAppend(drained, times, currentTimeMs);
        drained := drained + [times];
        ok, times := ingest.Read(times);
      }
    }

    /** The body of the loop over the window; `ok` is false where a CHECK would abort. */
    method MergeSample(t: Triplet, currentTimeUs: nat, m: Merged) returns (ok: bool, merged: Merged)
      ensures ok <==> Checks64(t, currentTimeUs)
      ensures ok ==> merged == m.Join(Bounds64(clockDriftUsPerSec, currentTimeUs, t))
    {
      hide U64, I64, SafeMinus, Max, Min;
      var thisUb := I64(U64(t.serv - t.send));
      var thisLb := SafeMinus(t.serv, t.recv);
      if !(t.send <= t.recv && t.recv <= currentTimeUs && thisLb <= thisUb) {
        return false, m;
      }
      var dtUs := U64(currentTimeUs - U64(t.recv + t.send) / 2);
      var drift := U64(clockDriftUsPerSec * dtUs) / MICRO;
      var lb := Max(m.lb, I64(U64(thisLb - drift)));
      var ub := Min(m.ub, I64(U64(thisUb + drift)));
      var observed := Min(m.observed, U64(thisUb - thisLb));
      ok, merged := true, Merged(lb, ub, observed);
    }

    method MergeWindow(currentTimeUs: nat) returns (ok: bool, merged: Merged)
      ensures ok <==> AllChecks64(Triplets(samples), currentTimeUs)
      ensures ok ==> merged == Fold64(clockDriftUsPerSec, currentTimeUs, Triplets(samples))
    {
      hide Bounds64, Checks64, Merged.Join;
      ok, merged := true, Unbounded64;
      ghost var triplets := Triplets(samples);
      for i := 0 to |samples|
        invariant ok && AllChecks64(triplets[..i], currentTimeUs)
        invariant merged == Fold64(clockDriftUsPerSec, currentTimeUs, triplets[..i])
      {
        var t := samples[i].triplet;
        FoldAppend(clockDriftUsPerSec, currentTimeUs, triplets[..i], t);
        assert triplets[..i + 1] == triplets[..i] + [t];
        ok, merged := MergeSample(t, currentTimeUs, merged);
        if !ok {
          FailedCheck(triplets, i, currentTimeUs);
          return;
        }
      }
      assert triplets[..|samples|] == triplets;
    }

    /** The estimate from the current window; CheckFailed stands for an abort. */
    method EstimateOffset(currentTimeUs: nat) returns (outcome: Outcome)
      modifies this`clockDriftUsPerSec
      ensures (clockDriftUsPerSec, outcome) ==
              Process64(old(clockDriftUsPerSec), currentTimeUs, Triplets(samples))
    {
      hide U64, I64, Fold64, Half, AllChecks64;
      var ok, merged := MergeWindow(currentTimeUs);
      if !ok {
        return CheckFailed;
      }
      var lb, ub, observed := merged.lb, merged.ub, merged.observed;
      if ub == INT64_MAX || lb == INT64_MIN {
        return NoEstimate;
      }
      var width := I64(U64(ub - lb));
      if width <= I64(observed / 2) {
        clockDriftUsPerSec := U64(clockDriftUsPerSec * 2);
        return NoEstimate;
      }
      if width >= I64(observed) {
        clockDriftUsPerSec := clockDriftUsPerSec * 9 / 10;
      }
      outcome := Estimate(SyncState(Half(I64(U64(ub + lb))), U64(observed), U64(width)));
    }

    method ProcessIngestBuffer(ingest: RB.RingBuffer<Triplet>, currentTimeMs: nat, currentTimeUs: nat)
      returns (outcome: Outcome)
      requires ingest.Valid()
      modifies this, ingest`head
      ensures ingest.Valid()
      ensures samples ==
              Refill(old(samples), if ingest.stopped then [] else old(ingest.Contents()), durationMs, currentTimeMs)
      ensures
        var arrived := if ingest.stopped then [] else Stamped(old(ingest.Contents()), currentTimeMs);
        KeepsTheRecent(old(samples) + arrived, samples, durationMs, currentTimeMs)
      ensures (clockDriftUsPerSec, outcome) ==
              Process64(old(clockDriftUsPerSec), currentTimeUs, Triplets(samples))
    {
      hide Unexpired, KeepsTheRecent;
      Ingest(ingest, currentTimeMs);
      assert old(samples) + Stamped([], currentTimeMs) == old(samples);
      RemoveOldSamples(currentTimeMs);
      outcome := EstimateOffset(currentTimeUs);
    }
  }
}
