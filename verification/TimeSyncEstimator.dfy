/**
 The offset estimator of time_sync/time_sync.cpp over unbounded integers: each
 round trip bounds the offset between the server's clock and ours, the bounds are
 widened for clock drift and merged, and the drift rate adapts.
 */
module TimeSyncEstimator {
  import opened Options

  /** Local send time, server time and local receive time, in microseconds. */
  datatype Triplet = Triplet(send: nat, serv: nat, recv: nat)

  datatype SyncState = SyncState(offsetEstimate: int, observedRtt: nat, minRtt: nat)

  datatype Outcome = CheckFailed | NoEstimate | Estimate(state: SyncState)

  const MICRO := 1_000_000

  /** The CHECKs on one sample; the third, that its bounds are ordered, follows. */
  predicate Sane(t: Triplet, now: nat) {
    t.send <= t.recv <= now
  }

  predicate AllSane(samples: seq<Triplet>, now: nat) {
    forall t :: t in samples ==> Sane(t, now)
  }

  function Rtt(t: Triplet): int {
    t.recv - t.send
  }

  function Midpoint(t: Triplet): nat {
    (t.recv + t.send) / 2
  }

  /** Drift over `dt` microseconds at `rate` microseconds a second, rounded down. */
  function Scaled(rate: nat, dt: nat): (d: nat)
    ensures MICRO * d <= rate * dt < MICRO * (d + 1)
  {
    rate * dt / MICRO
  }

  /** How far the clocks may have drifted apart since the round trip. */
  function Drift(rate: nat, now: nat, t: Triplet): (d: nat)
    requires Sane(t, now)
  {
    Scaled(rate, now - Midpoint(t))
  }

  function Lower(rate: nat, now: nat, t: Triplet): int
    requires Sane(t, now)
  {
    t.serv - t.recv - Drift(rate, now, t)
  }

  function Upper(rate: nat, now: nat, t: Triplet): int
    requires Sane(t, now)
  {
    t.serv - t.send + Drift(rate, now, t)
  }

  /** The merged interval and the shortest round trip. */
  datatype Merged = Merged(lb: int, ub: int, observed: int) {
    function Width(): int { ub - lb }

    function Join(other: Merged): Merged {
      Merged(Max(lb, other.lb), Min(ub, other.ub), Min(observed, other.observed))
    }
  }

  function Bounds(rate: nat, now: nat, t: Triplet): Merged
    requires Sane(t, now)
  {
    Merged(Lower(rate, now, t), Upper(rate, now, t), Rtt(t))
  }

  function Merge(rate: nat, now: nat, samples: seq<Triplet>): (m: Merged)
    requires samples != [] && AllSane(samples, now)
  {
    var n := |samples| - 1;
    var last := samples[n];
    assert last in samples && forall t :: t in samples[..n] ==> t in samples;
    if n == 0 then Bounds(rate, now, last)
    else Merge(rate, now, samples[..n]).Join(Bounds(rate, now, last))
  }

  function Max(a: int, b: int): int { if a < b then b else a }

  function Min(a: int, b: int): int { if b < a then b else a }

  /** Division of signed integers in the original, which truncates towards zero. */
  function Half(x: int): int {
    if x < 0 then -((-x) / 2) else x / 2
  }

  /** One pass over the window: what is published, and the next drift rate. */
  function Process(rate: nat, now: nat, samples: seq<Triplet>): (r: (nat, Outcome)) {
    if !AllSane(samples, now) then (rate, CheckFailed)
    else if samples == [] then (rate, NoEstimate)
    else
      var m := Merge(rate, now, samples);
      if m.Width() <= m.observed / 2 then (rate * 2, NoEstimate)
      else
        ObservedIsLeast(rate, now, samples);
        (if m.Width() >= m.observed then rate * 9 / 10 else rate,
         Estimate(SyncState(Half(m.ub + m.lb), m.observed, m.Width())))
  }

  // ---------------------------------------------------------------- the merged interval

  lemma {:induction false} ObservedIsLeast(rate: nat, now: nat, samples: seq<Triplet>)
    requires samples != [] && AllSane(samples, now)
    ensures 0 <= Merge(rate, now, samples).observed
  {
    var n := |samples| - 1;
    assert samples[n] in samples;
    if n > 0 {
      assert forall t :: t in samples[..n] ==> t in samples;
      ObservedIsLeast(rate, now, samples[..n]);
    }
  }

  /** The merged bounds are the tightest of all the samples', and each is attained. */
  ghost predicate IsTightest(m: Merged, rate: nat, now: nat, samples: seq<Triplet>)
    requires AllSane(samples, now)
  {
    && (forall t :: t in samples ==> Lower(rate, now, t) <= m.lb && m.ub <= Upper(rate, now, t) && m.observed <= Rtt(t))
    && (exists t :: t in samples && Lower(rate, now, t) == m.lb)
    && (exists t :: t in samples && Upper(rate, now, t) == m.ub)
    && (exists t :: t in samples && Rtt(t) == m.observed)
  }

  lemma {:induction false} MergeIsTightest(rate: nat, now: nat, samples: seq<Triplet>)
    requires samples != [] && AllSane(samples, now)
    ensures IsTightest(Merge(rate, now, samples), rate, now, samples)
  {
    hide Lower, Upper, Rtt;
    var n := |samples| - 1;
    var last := samples[n];
    assert last in samples && forall t :: t in samples <==> t in samples[..n] || t == last;
    if n > 0 {
      MergeIsTightest(rate, now, samples[..n]);
    }
  }

  /** Only the set of samples matters, not their order or number of copies. */
  lemma MergeIgnoresOrder(rate: nat, now: nat, a: seq<Triplet>, b: seq<Triplet>)
    requires a != [] && AllSane(a, now) && b != [] && AllSane(b, now)
    requires forall t :: t in a <==> t in b
    ensures Merge(rate, now, a) == Merge(rate, now, b)
  {
    MergeIsTightest(rate, now, a);
    MergeIsTightest(rate, now, b);
  }

  lemma MoreSamplesNeverWiden(rate: nat, now: nat, a: seq<Triplet>, b: seq<Triplet>)
    requires a != [] && AllSane(a, now) && b != [] && AllSane(b, now)
    requires forall t :: t in a ==> t in b
    ensures Merge(rate, now, a).lb <= Merge(rate, now, b).lb
    ensures Merge(rate, now, b).ub <= Merge(rate, now, a).ub
    ensures Merge(rate, now, b).Width() <= Merge(rate, now, a).Width()
  {
    MergeIsTightest(rate, now, a);
    MergeIsTightest(rate, now, b);
  }

  lemma WidthIsBounded(rate: nat, now: nat, samples: seq<Triplet>, t: Triplet)
    requires t in samples && AllSane(samples, now)
    ensures Merge(rate, now, samples).Width() <= Rtt(t) + 2 * Drift(rate, now, t)
  {
    MergeIsTightest(rate, now, samples);
  }

  /** A CHECK stops the program exactly when some sample was not sent, received and looked
      at in that order. */
  lemma CheckFailsIff(rate: nat, now: nat, samples: seq<Triplet>)
    ensures Process(rate, now, samples).1.CheckFailed? <==>
            exists i :: 0 <= i < |samples| && !(samples[i].send <= samples[i].recv <= now)
  {
    if t :| t in samples && !Sane(t, now) {
      var i :| 0 <= i < |samples| && samples[i] == t;
    } else {
      assert forall i :: 0 <= i < |samples| ==> samples[i] in samples;
    }
  }

  lemma HalfTruncates(x: int)
    ensures x - 1 <= 2 * Half(x) <= x + 1
    ensures if x >= 0 then 0 <= 2 * Half(x) <= x else x <= 2 * Half(x) <= 0
  {
  }

  lemma PassOfMerged(rate: nat, now: nat, samples: seq<Triplet>)
    requires samples != [] && AllSane(samples, now)
    ensures
      var (next, outcome) := Process(rate, now, samples);
      var m := Merge(rate, now, samples);
      if m.ub - m.lb <= m.observed / 2 then next == 2 * rate && outcome.NoEstimate?
      else
        && outcome.Estimate?
        && outcome.state.minRtt == m.ub - m.lb
        && outcome.state.observedRtt == m.observed
        && m.lb + m.ub - 1 <= 2 * outcome.state.offsetEstimate <= m.lb + m.ub + 1
        && if m.ub - m.lb >= m.observed then 10 * next <= 9 * rate < 10 * next + 10 else next == rate
  {
    hide Half, Merge;
    HalfTruncates(Merge(rate, now, samples).ub + Merge(rate, now, samples).lb);
  }

  /** One pass over a window, told by the samples that decide it: the highest lower bound,
      the lowest upper bound and the shortest round trip, each for drift since its
      midpoint. It publishes exactly if the interval is wider than half that round trip. */
  lemma OnePass(rate: nat, now: nat, samples: seq<Triplet>) returns (lo: Triplet, hi: Triplet, quick: Triplet)
    requires samples != [] && AllSane(samples, now)
    ensures lo in samples && hi in samples && quick in samples
    ensures forall t :: t in samples ==>
              && t.serv - t.recv - Drift(rate, now, t) <= lo.serv - lo.recv - Drift(rate, now, lo)
              && hi.serv - hi.send + Drift(rate, now, hi) <= t.serv - t.send + Drift(rate, now, t)
              && quick.recv - quick.send <= t.recv - t.send
    ensures
      var (next, outcome) := Process(rate, now, samples);
      var lb := lo.serv - lo.recv - Drift(rate, now, lo);
      var ub := hi.serv - hi.send + Drift(rate, now, hi);
      var rtt := quick.recv - quick.send;
      if ub - lb <= rtt / 2 then next == 2 * rate && outcome.NoEstimate?
      else
        && outcome.Estimate?
        && outcome.state.minRtt == ub - lb
        && outcome.state.observedRtt == rtt
        && lb + ub - 1 <= 2 * outcome.state.offsetEstimate <= lb + ub + 1
        && if ub - lb >= rtt then 10 * next <= 9 * rate < 10 * next + 10 else next == rate
  {
    hide Process, Merge, Drift;
    PassOfMerged(rate, now, samples);
    MergeIsTightest(rate, now, samples);
    var m := Merge(rate, now, samples);
    lo :| lo in samples && Lower(rate, now, lo) == m.lb;
    hi :| hi in samples && Upper(rate, now, hi) == m.ub;
    quick :| quick in samples && Rtt(quick) == m.observed;
  }

  /** A published width exceeds half the observed round trip, so it is positive and its
      conversion to an unsigned integer is exact. */
  lemma PublishedWidthIsPositive(rate: nat, now: nat, samples: seq<Triplet>)
    requires Process(rate, now, samples).1.Estimate?
    ensures
      var state := Process(rate, now, samples).1.state;
      && state.observedRtt / 2 < state.minRtt
      && forall t :: t in samples ==> state.observedRtt <= Rtt(t) && state.minRtt <= Rtt(t) + 2 * Drift(rate, now, t)
  {
    MergeIsTightest(rate, now, samples);
    forall t | t in samples
      ensures Merge(rate, now, samples).Width() <= Rtt(t) + 2 * Drift(rate, now, t)
    {
      WidthIsBounded(rate, now, samples, t);
    }
  }

  // ---------------------------------------------------------------- drift adaptation

  lemma ProductsAreOrdered(a: int, b: int, x: int, y: int)
    requires 0 <= a <= b && 0 <= x <= y
    ensures a * x <= b * y
  {
    assert a * x <= b * x;
    assert b * x <= b * y;
  }

  lemma DriftIsMonotone(slow: nat, fast: nat, now: nat, t: Triplet)
    requires slow <= fast && Sane(t, now)
    ensures Drift(slow, now, t) <= Drift(fast, now, t)
  {
    ProductsAreOrdered(slow, fast, now - Midpoint(t), now - Midpoint(t));
  }

  lemma WidthIsMonotone(slow: nat, fast: nat, now: nat, samples: seq<Triplet>)
    requires slow <= fast && samples != [] && AllSane(samples, now)
    ensures Merge(slow, now, samples).Width() <= Merge(fast, now, samples).Width()
    ensures Merge(slow, now, samples).observed == Merge(fast, now, samples).observed
  {
    MergeIsTightest(slow, now, samples);
    MergeIsTightest(fast, now, samples);
    forall t | t in samples
      ensures Drift(slow, now, t) <= Drift(fast, now, t)
    {
      DriftIsMonotone(slow, fast, now, t);
    }
  }

  /** Every sample lies at least a microsecond in the past. */
  ghost predicate AllPast(samples: seq<Triplet>, now: nat)
    requires AllSane(samples, now)
  {
    forall t :: t in samples ==> Midpoint(t) < now
  }

  /** A rate that is certainly fast enough for this window. */
  function EnoughRate(now: nat, samples: seq<Triplet>): (r: nat)
    requires samples != [] && AllSane(samples, now)
  {
    var m := Merge(0, now, samples);
    Max(0, MICRO * (m.observed - m.Width() + 1))
  }

  lemma FastDriftIsLarge(rate: nat, now: nat, t: Triplet, need: nat)
    requires Sane(t, now) && Midpoint(t) < now && MICRO * need <= rate
    ensures need <= Drift(rate, now, t) && Drift(0, now, t) == 0
  {
    ProductsAreOrdered(MICRO * need, rate, 1, now - Midpoint(t));
  }

  lemma EnoughRateIsEnough(rate: nat, now: nat, samples: seq<Triplet>)
    requires samples != [] && AllSane(samples, now) && AllPast(samples, now)
    requires EnoughRate(now, samples) <= rate
    ensures Merge(rate, now, samples).Width() > Merge(rate, now, samples).observed / 2
  {
    var m0 := Merge(0, now, samples);
    var m := Merge(rate, now, samples);
    WidthIsMonotone(0, rate, now, samples);
    ObservedIsLeast(rate, now, samples);
    var need := m0.observed - m0.Width() + 1;
    if need > 0 {
      MergeIsTightest(0, now, samples);
      MergeIsTightest(rate, now, samples);
      var lowest :| lowest in samples && Lower(rate, now, lowest) == m.lb;
      var highest :| highest in samples && Upper(rate, now, highest) == m.ub;
      FastDriftIsLarge(rate, now, lowest, need);
      FastDriftIsLarge(rate, now, highest, need);
      assert m.lb <= m0.lb - need && m0.ub + need <= m.ub;
    }
  }

  /** The rate after `passes` passes that each doubled it. */
  function Doubled(rate: nat, passes: nat): (r: nat)
    ensures rate <= r
    decreases passes
  {
    if passes == 0 then rate else Doubled(rate * 2, passes - 1)
  }

  /** What our clock shows at each pass. */
  ghost predicate Nondecreasing(clock: nat -> nat) {
    forall j: nat, k: nat :: j <= k ==> clock(j) <= clock(k)
  }

  lemma WindowAgesWell(now: nat, later: nat, samples: seq<Triplet>)
    requires now <= later && AllSane(samples, now)
    ensures AllSane(samples, later)
    ensures AllPast(samples, now) ==> AllPast(samples, later)
  {
  }

  /** Without drift the bounds do not depend on when they are merged. */
  lemma {:induction false} MergeWithoutDrift(now: nat, later: nat, samples: seq<Triplet>)
    requires samples != [] && AllSane(samples, now) && AllSane(samples, later)
    ensures Merge(0, now, samples) == Merge(0, later, samples)
  {
    hide Scaled;
    var n := |samples| - 1;
    assert samples[n] in samples && forall t :: t in samples[..n] ==> t in samples;
    NoDrift(now, samples[n]);
    NoDrift(later, samples[n]);
    if n > 0 {
      MergeWithoutDrift(now, later, samples[..n]);
    }
  }

  lemma NoDrift(now: nat, t: Triplet)
    requires Sane(t, now)
    ensures Drift(0, now, t) == 0
  {
  }

  /** Over an unchanged window the doubling ends, whenever its passes are made: this many
      publish nothing and double the rate, and the next one publishes. */
  ghost function PassesUntilEstimate(rate: nat, clock: nat -> nat, samples: seq<Triplet>): (passes: nat)
    requires 1 <= rate && samples != [] && Nondecreasing(clock)
    requires AllSane(samples, clock(0)) && AllPast(samples, clock(0))
    ensures forall k: nat :: k < passes ==>
              Process(Doubled(rate, k), clock(k), samples) == (Doubled(rate, k + 1), NoEstimate)
    ensures Process(Doubled(rate, passes), clock(passes), samples).1.Estimate?
    decreases Max(0, EnoughRate(clock(0), samples) - rate)
  {
    if Process(rate, clock(0), samples).1.Estimate? then 0
    else
      assert rate < EnoughRate(clock(0), samples) by {
        if EnoughRate(clock(0), samples) <= rate {
          EnoughRateIsEnough(rate, clock(0), samples);
        }
      }
      WindowAgesWell(clock(0), clock(1), samples);
      MergeWithoutDrift(clock(0), clock(1), samples);
      var rest := Later(clock);
      var passes := PassesUntilEstimate(rate * 2, rest, samples);
      DoublingShifts(rate, passes + 1, clock, samples);
      passes + 1
  }

  function Later(clock: nat -> nat): nat -> nat {
    (k: nat) => clock(k + 1)
  }

  lemma DoublingShifts(rate: nat, passes: nat, clock: nat -> nat, samples: seq<Triplet>)
    requires 1 <= passes
    requires Process(rate, clock(0), samples) == (rate * 2, NoEstimate)
    requires forall k: nat :: k < passes - 1 ==>
               Process(Doubled(rate * 2, k), Later(clock)(k), samples) == (Doubled(rate * 2, k + 1), NoEstimate)
    ensures forall k: nat :: k < passes ==>
              Process(Doubled(rate, k), clock(k), samples) == (Doubled(rate, k + 1), NoEstimate)
  {
    hide Process;
    forall k: nat | k < passes
      ensures Process(Doubled(rate, k), clock(k), samples) == (Doubled(rate, k + 1), NoEstimate)
    {
      if k > 0 {
        assert Doubled(rate, k) == Doubled(rate * 2, k - 1);
        assert Doubled(rate, k + 1) == Doubled(rate * 2, k);
        assert Later(clock)(k - 1) == clock(k);
      } else {
        assert Doubled(rate, 1) == Doubled(rate * 2, 0);
      }
    }
  }

  lemma {:induction false} ZeroStaysZero(passes: nat)
    ensures Doubled(0, passes) == 0
    decreases passes
  {
    if passes > 0 {
      ZeroStaysZero(passes - 1);
    }
  }

  /** Doubling ever leads to an estimate exactly when the rate is not 0, or the window
      needs no correction for drift. */
  lemma ProgressIff(rate: nat, clock: nat -> nat, samples: seq<Triplet>)
    requires samples != [] && Nondecreasing(clock) && AllSane(samples, clock(0)) && AllPast(samples, clock(0))
    ensures
      var still := Merge(0, clock(0), samples);
      (exists passes: nat :: Process(Doubled(rate, passes), clock(passes), samples).1.Estimate?) <==>
      rate >= 1 || still.Width() > still.observed / 2
  {
    if rate >= 1 {
      var passes := PassesUntilEstimate(rate, clock, samples);
      assert Process(Doubled(rate, passes), clock(passes), samples).1.Estimate?;
    } else {
      forall passes: nat
        ensures Process(Doubled(rate, passes), clock(passes), samples).1.Estimate? <==>
                Process(Doubled(rate, 0), clock(0), samples).1.Estimate?
      {
        ZeroStaysZero(passes);
        WindowAgesWell(clock(0), clock(passes), samples);
        MergeWithoutDrift(clock(0), clock(passes), samples);
      }
      WindowAgesWell(clock(0), clock(0), samples);
      assert Process(Doubled(rate, 0), clock(0), samples).1.Estimate? <==>
             Merge(0, clock(0), samples).Width() > Merge(0, clock(0), samples).observed / 2;
    }
  }

  /** A window of two round trips that, at rate 0, never yields an estimate. */
  lemma ZeroCanBeStuck(now: nat)
    requires 10 <= now
    ensures Process(0, now, [Triplet(0, 0, 10), Triplet(0, 10, 10)]) == (0, NoEstimate)
  {
    hide Merge, Process, Drift;
    var a, b := Triplet(0, 0, 10), Triplet(0, 10, 10);
    NoDrift(now, a);
    NoDrift(now, b);
    MergeOfOne(0, now, a);
    MergeOfTwo(0, now, a, b);
    PassOfMerged(0, now, [a, b]);
  }

  lemma MergeOfTwo(rate: nat, now: nat, a: Triplet, b: Triplet)
    requires Sane(a, now) && Sane(b, now)
    ensures Merge(rate, now, [a, b]) == Merge(rate, now, [a]).Join(Bounds(rate, now, b))
  {
    assert [a, b][..1] == [a] && [a, b][1] == b;
  }

  /** Slowing down takes a rate of 1 to 0, which no later doubling leaves. */
  lemma RateCanReachZero()
    ensures Process(1, 10, [Triplet(0, 5, 10)]) == (0, Estimate(SyncState(0, 10, 10)))
  {
    hide Merge, Bounds;
    var t := Triplet(0, 5, 10);
    MergeOfOne(1, 10, t);
    RecentBounds(1, 10, t);
  }

  lemma RecentBounds(rate: nat, now: nat, t: Triplet)
    requires Sane(t, now) && rate == 1 && now - Midpoint(t) < MICRO
    ensures Bounds(rate, now, t) == Merged(t.serv - t.recv, t.serv - t.send, t.recv - t.send)
  {
  }

  lemma MergeOfOne(rate: nat, now: nat, t: Triplet)
    requires Sane(t, now)
    ensures Merge(rate, now, [t]) == Bounds(rate, now, t)
  {
    assert [t][0] == t;
  }
}
