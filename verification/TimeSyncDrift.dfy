/**
 The clock estimate when the true offset drifts, at most as fast as the estimated rate:
 how far the interval can miss it, and exactly when it cannot.
 */
module TimeSyncDrift {
  import opened Options
  import opened TimeSyncEstimator
  import opened TimeSyncProtocol

  // ---------------------------------------------------------------- slopes

  function Times(l: real, d: real): real { l * d }

  function Slope(rate: nat): real { rate as real / 1_000_000.0 }

  lemma TimesGrows(l: real, d: real, e: real)
    requires 0.0 <= l && d <= e
    ensures Times(l, d) <= Times(l, e)
  {
  }

  lemma TimesOfSum(l: real, d: real, e: real)
    ensures Times(l, d + e) == Times(l, d) + Times(l, e) && Times(l, d - e) == Times(l, d) - Times(l, e)
    ensures Times(l, 0.0) == 0.0
  {
  }

  lemma TimesByOne(l: real, d: real)
    ensures Times(1.0 + l, d) == d + Times(l, d) && Times(1.0 - l, d) == d - Times(l, d)
  {
  }

  lemma TimesCompares(k: real, d: real, e: real)
    requires 0.0 < k
    ensures Times(k, d) <= Times(k, e) <==> d <= e
  {
  }

  lemma TimesQuotient(k: real, u: real)
    requires k != 0.0
    ensures Times(k, u / k) == u
  {
  }

  lemma SlopeIsAtMostOne(rate: nat)
    ensures 0.0 <= Slope(rate)
    ensures Slope(rate) <= 1.0 <==> rate <= MICRO
  {
  }

  lemma {:induction false} ProductAsReal(a: nat, b: nat)
    ensures (a * b) as real == Times(a as real, b as real)
  {
    if b > 0 {
      ProductAsReal(a, b - 1);
      TimesOfSum(a as real, (b - 1) as real, 1.0);
      assert a * b == a * (b - 1) + a;
    }
  }

  lemma SlopeTimes(rate: nat, d: real)
    ensures 1_000_000.0 * Times(Slope(rate), d) == Times(rate as real, d)
  {
  }

  /** The code's drift term is the drift since the midpoint, rounded down. */
  lemma DriftIsRoundedDown(rate: nat, now: nat, tr: Triplet)
    requires Sane(tr, now)
    ensures
      var d, exact := Drift(rate, now, tr) as real, Times(Slope(rate), (now - Midpoint(tr)) as real);
      d <= exact < d + 1.0
  {
    hide Times, Slope;
    var dt := now - Midpoint(tr);
    ProductAsReal(rate, dt);
    SlopeTimes(rate, dt as real);
    var p := rate * dt;
    assert MICRO * Drift(rate, now, tr) <= p < MICRO * (Drift(rate, now, tr) + 1);
  }

  // ---------------------------------------------------------------- drifting clocks

  /** The offset changes by at most l microseconds per microsecond. */
  ghost predicate DriftsAtMost(offset: real -> real, l: real) {
    forall a: real, b: real :: a <= b ==> -Times(l, b - a) <= offset(b) - offset(a) <= Times(l, b - a)
  }

  function Line(c: real, s: real, l: real): real -> real {
    x => c + Times(l, x - s)
  }

  lemma LineDrifts(c: real, s: real, l: real)
    requires 0.0 <= l
    ensures DriftsAtMost(Line(c, s, l), l)
  {
    hide Times;
    forall a: real, b: real | a <= b
      ensures -Times(l, b - a) <= Line(c, s, l)(b) - Line(c, s, l)(a) <= Times(l, b - a)
    {
      TimesOfSum(l, b - s, a - s);
      assert (b - s) - (a - s) == b - a;
      TimesGrows(l, 0.0, b - a);
      TimesOfSum(l, 0.0, 0.0);
    }
  }

  /** Clocks do drift at the rate that the estimator starts from. */
  lemma ClockDriftsAtStartingRate()
    ensures
      var offset := Line(0.0, 0.0, Slope(40));
      DriftsAtMost(offset, Slope(40)) && offset(0.0) == 0.0 && offset(25_000.0) == 1.0
  {
    LineDrifts(0.0, 0.0, Slope(40));
  }

  /** Clocks that, at true time `time` with ours showing `now`, may have led to these samples. */
  ghost predicate Possible(clocks: Clocks, rate: nat, now: nat, time: real, samples: seq<Triplet>) {
    && DriftsAtMost(clocks.offset, Slope(rate))
    && clocks.LocalShows(now, time)
    && forall tr :: tr in samples ==> Genuine(tr, time, clocks)
  }

  /** Drift from one instant to a later one. */
  lemma DriftBetween(offset: real -> real, l: real, a: real, b: real)
    requires DriftsAtMost(offset, l) && a <= b
    ensures -Times(l, b - a) <= offset(b) - offset(a) <= Times(l, b - a)
  {
  }

  // ---------------------------------------------------------------- one sample

  /** The largest offset that a sample allows: the server read its clock on sending. */
  function Highest(rate: nat, now: nat, tr: Triplet, localGrain: real, serverGrain: real): real {
    tr.serv as real + serverGrain - tr.send as real + Times(Slope(rate), now as real + localGrain - tr.send as real)
  }

  /** The smallest, for a rate up to 1 us/us: the server read its clock on our receiving. */
  function Lowest(rate: nat, now: nat, tr: Triplet, localGrain: real): real {
    tr.serv as real - tr.recv as real - localGrain - Times(Slope(rate), (now - tr.recv) as real)
  }

  lemma OffsetIsBelowHighest(clocks: Clocks, rate: nat, now: nat, time: real, samples: seq<Triplet>, tr: Triplet)
    requires Possible(clocks, rate, now, time, samples) && tr in samples
    ensures clocks.offset(time) <= Highest(rate, now, tr, clocks.localGrain, clocks.serverGrain)
  {
    hide Times, Slope, DriftsAtMost;
    var t :| t <= time && ReadAt(tr, t, clocks);
    DriftBetween(clocks.offset, Slope(rate), t, time);
    SlopeIsAtMostOne(rate);
    TimesGrows(Slope(rate), time - t, now as real + clocks.localGrain - tr.send as real);
  }

  lemma OffsetIsAboveLowest(clocks: Clocks, rate: nat, now: nat, time: real, samples: seq<Triplet>, tr: Triplet)
    requires Possible(clocks, rate, now, time, samples) && tr in samples && rate <= MICRO
    ensures Lowest(rate, now, tr, clocks.localGrain) <= clocks.offset(time)
  {
    hide Times, Slope, DriftsAtMost;
    var t :| t <= time && ReadAt(tr, t, clocks);
    var l, late := Slope(rate), tr.recv as real + clocks.localGrain - t;
    DriftBetween(clocks.offset, l, t, time);
    SlopeIsAtMostOne(rate);
    TimesGrows(l, time - t, (now - tr.recv) as real + late);
    TimesOfSum(l, (now - tr.recv) as real, late);
    TimesAtMostOne(l, late);
  }

  lemma TimesAtMostOne(l: real, d: real)
    requires 0.0 <= l <= 1.0 && 0.0 <= d
    ensures 0.0 <= Times(l, d) <= d
  {
    hide Times;
    TimesGrows(l, 0.0, d);
    TimesGrows(1.0 - l, 0.0, d);
    TimesOfSum(l, 0.0, 0.0);
    TimesOfSum(1.0 - l, 0.0, 0.0);
    TimesByOne(l, d);
  }

  ghost predicate HasGrains(clocks: Clocks, localGrain: real, serverGrain: real) {
    clocks.localGrain == localGrain && clocks.serverGrain == serverGrain
  }

  /** No clocks that may have led to the samples have an offset above the bound. */
  ghost predicate NeverAbove(bound: int, rate: nat, now: nat, samples: seq<Triplet>,
                             localGrain: real, serverGrain: real)
  {
    forall clocks: Clocks, time: real ::
      HasGrains(clocks, localGrain, serverGrain) && Possible(clocks, rate, now, time, samples) ==>
        clocks.offset(time) <= bound as real
  }

  ghost predicate NeverBelow(bound: int, rate: nat, now: nat, samples: seq<Triplet>,
                             localGrain: real, serverGrain: real)
  {
    forall clocks: Clocks, time: real ::
      HasGrains(clocks, localGrain, serverGrain) && Possible(clocks, rate, now, time, samples) ==>
        bound as real <= clocks.offset(time)
  }

  /** The clocks that make the offset highest. */
  lemma HighestIsPossible(rate: nat, now: nat, tr: Triplet, localGrain: real, serverGrain: real)
    requires Sane(tr, now) && 0.0 <= localGrain && 0.0 <= serverGrain
    ensures
      var c := tr.serv as real + serverGrain - tr.send as real;
      var clocks := Clocks(Line(c, tr.send as real, Slope(rate)), localGrain, serverGrain);
      var time := now as real + localGrain;
      && Possible(clocks, rate, now, time, [tr])
      && clocks.offset(time) == Highest(rate, now, tr, localGrain, serverGrain)
  {
    hide Times, Slope, DriftsAtMost;
    var s := tr.send as real;
    var c := tr.serv as real + serverGrain - s;
    var clocks := Clocks(Line(c, s, Slope(rate)), localGrain, serverGrain);
    SlopeIsAtMostOne(rate);
    LineDrifts(c, s, Slope(rate));
    TimesOfSum(Slope(rate), 0.0, 0.0);
    assert ReadAt(tr, s, clocks);
  }

  lemma LowestIsPossible(rate: nat, now: nat, tr: Triplet, localGrain: real, serverGrain: real)
    requires Sane(tr, now) && 0.0 <= localGrain && 0.0 <= serverGrain
    ensures
      var t := tr.recv as real + localGrain;
      var clocks := Clocks(x => tr.serv as real - t - Times(Slope(rate), x - t), localGrain, serverGrain);
      var time := now as real + localGrain;
      && Possible(clocks, rate, now, time, [tr])
      && clocks.offset(time) == Lowest(rate, now, tr, localGrain)
  {
    hide Times, Slope;
    var t := tr.recv as real + localGrain;
    var l := Slope(rate);
    var clocks := Clocks(x => tr.serv as real - t - Times(Slope(rate), x - t), localGrain, serverGrain);
    SlopeIsAtMostOne(rate);
    forall a: real, b: real | a <= b
      ensures -Times(l, b - a) <= clocks.offset(b) - clocks.offset(a) <= Times(l, b - a)
    {
      TimesOfSum(l, b - t, a - t);
      assert (b - t) - (a - t) == b - a;
      TimesGrows(l, 0.0, b - a);
      TimesOfSum(l, 0.0, 0.0);
    }
    TimesOfSum(l, 0.0, 0.0);
    assert ReadAt(tr, t, clocks);
    assert now as real + localGrain - t == (now - tr.recv) as real;
  }

  /** The code's upper bound holds for every such clock exactly when the drift term covers
      the server's grain and the drift since sending, not only since the midpoint. */
  lemma UpperHoldsIff(rate: nat, now: nat, tr: Triplet, localGrain: real, serverGrain: real)
    requires Sane(tr, now) && 0.0 <= localGrain && 0.0 <= serverGrain
    ensures NeverAbove(Upper(rate, now, tr), rate, now, [tr], localGrain, serverGrain) <==>
            serverGrain + Times(Slope(rate), now as real + localGrain - tr.send as real) <= Drift(rate, now, tr) as real
  {
    hide Times, Slope, DriftsAtMost, Possible, Drift;
    HighestIsPossible(rate, now, tr, localGrain, serverGrain);
    assert tr in [tr];
    forall clocks: Clocks, time: real |
      HasGrains(clocks, localGrain, serverGrain) && Possible(clocks, rate, now, time, [tr])
      ensures clocks.offset(time) <= Highest(rate, now, tr, localGrain, serverGrain)
    {
      OffsetIsBelowHighest(clocks, rate, now, time, [tr], tr);
    }
  }

  /** Which no round trip of 2 us or more allows, whatever the rate and the grains. */
  lemma UpperNeedsInstantTrip(rate: nat, now: nat, tr: Triplet, localGrain: real, serverGrain: real)
    requires Sane(tr, now) && 0.0 <= localGrain && 0.0 <= serverGrain && 0 < rate && 2 <= Rtt(tr)
    ensures !NeverAbove(Upper(rate, now, tr), rate, now, [tr], localGrain, serverGrain)
  {
    hide Times, Drift, NeverAbove;
    UpperHoldsIff(rate, now, tr, localGrain, serverGrain);
    DriftIsRoundedDown(rate, now, tr);
    TimesCompares(Slope(rate), now as real + localGrain - tr.send as real, (now - Midpoint(tr)) as real);
  }

  /** And the lower bound, when it covers our clock's grain and the drift since receiving. */
  lemma LowerHoldsIff(rate: nat, now: nat, tr: Triplet, localGrain: real, serverGrain: real)
    requires Sane(tr, now) && 0.0 <= localGrain && 0.0 <= serverGrain && rate <= MICRO
    ensures NeverBelow(Lower(rate, now, tr), rate, now, [tr], localGrain, serverGrain) <==>
            localGrain + Times(Slope(rate), (now - tr.recv) as real) <= Drift(rate, now, tr) as real
  {
    hide Times, Slope, DriftsAtMost, Possible, Drift;
    LowestIsPossible(rate, now, tr, localGrain, serverGrain);
    assert tr in [tr];
    forall clocks: Clocks, time: real |
      HasGrains(clocks, localGrain, serverGrain) && Possible(clocks, rate, now, time, [tr])
      ensures Lowest(rate, now, tr, localGrain) <= clocks.offset(time)
    {
      OffsetIsAboveLowest(clocks, rate, now, time, [tr], tr);
    }
  }

  /** How far one sample's bounds can miss: below by less than 1 us, above by less than 1 us
      and the drift of half a round trip, and by the grains. */
  lemma DriftingSample(clocks: Clocks, rate: nat, now: nat, time: real, samples: seq<Triplet>, tr: Triplet)
    requires Possible(clocks, rate, now, time, samples) && tr in samples && Sane(tr, now) && rate <= MICRO
    ensures Lower(rate, now, tr) as real - 1.0 - clocks.localGrain < clocks.offset(time)
    ensures
      var slack := Times(Slope(rate), Rtt(tr) as real + 2.0 * clocks.localGrain);
      2.0 * (clocks.offset(time) - Upper(rate, now, tr) as real - 1.0 - clocks.serverGrain) < slack
  {
    hide Times, Slope, DriftsAtMost, Possible, Drift;
    var l, mid := Slope(rate), Midpoint(tr);
    OffsetIsAboveLowest(clocks, rate, now, time, samples, tr);
    OffsetIsBelowHighest(clocks, rate, now, time, samples, tr);
    DriftIsRoundedDown(rate, now, tr);
    SlopeIsAtMostOne(rate);
    TimesGrows(l, (now - tr.recv) as real, (now - mid) as real);
    var early := clocks.localGrain + (mid - tr.send) as real;
    assert now as real + clocks.localGrain - tr.send as real == (now - mid) as real + early;
    TimesOfSum(l, (now - mid) as real, early);
    TimesOfSum(l, early, early);
    TimesGrows(l, early + early, Rtt(tr) as real + 2.0 * clocks.localGrain);
  }

  // ---------------------------------------------------------------- the merged bound

  function Abs(x: real): (r: real)
    ensures r >= 0.0
  {
    if x < 0.0 then -x else x
  }

  /** The largest offset at any x that one sample and the drift rate allow. */
  function Ceiling(l: real, tr: Triplet, grain: real, x: real): real {
    tr.serv as real + grain - tr.send as real + Times(l, Abs(x - tr.send as real))
  }

  /** And that all the samples allow together. */
  function Envelope(l: real, samples: seq<Triplet>, grain: real, x: real): real
    requires samples != []
  {
    var c := Ceiling(l, samples[0], grain, x);
    if |samples| == 1 then c
    else
      var e := Envelope(l, samples[1..], grain, x);
      if c <= e then c else e
  }

  lemma CeilingDrifts(l: real, tr: Triplet, grain: real, a: real, b: real)
    requires 0.0 <= l && a <= b
    ensures -Times(l, b - a) <= Ceiling(l, tr, grain, b) - Ceiling(l, tr, grain, a) <= Times(l, b - a)
  {
    hide Times;
    var p, q := Abs(a - tr.send as real), Abs(b - tr.send as real);
    TimesOfSum(l, q, p);
    TimesOfSum(l, 0.0, b - a);
    TimesGrows(l, q - p, b - a);
    TimesGrows(l, 0.0 - (b - a), q - p);
  }

  lemma {:induction false} EnvelopeDrifts(l: real, samples: seq<Triplet>, grain: real, a: real, b: real)
    requires 0.0 <= l && a <= b && samples != []
    ensures -Times(l, b - a) <= Envelope(l, samples, grain, b) - Envelope(l, samples, grain, a) <= Times(l, b - a)
  {
    hide Times, Ceiling;
    CeilingDrifts(l, samples[0], grain, a, b);
    if |samples| > 1 {
      EnvelopeDrifts(l, samples[1..], grain, a, b);
    }
  }

  /** The envelope is the least of the ceilings. */
  lemma {:induction false} EnvelopeIsLeast(l: real, samples: seq<Triplet>, grain: real, x: real)
    requires samples != []
    ensures forall tr :: tr in samples ==> Envelope(l, samples, grain, x) <= Ceiling(l, tr, grain, x)
    ensures exists tr :: tr in samples && Envelope(l, samples, grain, x) == Ceiling(l, tr, grain, x)
  {
    hide Ceiling;
    assert samples[0] in samples;
    if |samples| > 1 {
      EnvelopeIsLeast(l, samples[1..], grain, x);
      assert forall tr :: tr in samples ==> tr == samples[0] || tr in samples[1..];
      var tr :| tr in samples[1..] && Envelope(l, samples[1..], grain, x) == Ceiling(l, tr, grain, x);
      assert tr in samples;
    }
  }

  /** What a server's clock that runs along a ceiling shows never decreases. */
  lemma CeilingShowsMore(l: real, tr: Triplet, grain: real, a: real, b: real)
    requires 0.0 <= l <= 1.0 && a <= b
    ensures a + Ceiling(l, tr, grain, a) <= b + Ceiling(l, tr, grain, b)
  {
    hide Times, Ceiling;
    CeilingDrifts(l, tr, grain, a, b);
    TimesAtMostOne(l, b - a);
  }

  lemma EnvelopeShowsMore(l: real, samples: seq<Triplet>, grain: real, a: real, b: real)
    requires 0.0 <= l <= 1.0 && a <= b && samples != []
    ensures a + Envelope(l, samples, grain, a) <= b + Envelope(l, samples, grain, b)
  {
    hide Times, Envelope;
    EnvelopeDrifts(l, samples, grain, a, b);
    TimesAtMostOne(l, b - a);
  }

  /** Between two instants it shows every value between. */
  lemma CeilingShowsAll(l: real, tr: Triplet, grain: real, a: real, b: real, v: real) returns (x: real)
    requires 0.0 <= l <= 1.0 && a <= b
    requires a + Ceiling(l, tr, grain, a) <= v <= b + Ceiling(l, tr, grain, b)
    ensures a <= x <= b && x + Ceiling(l, tr, grain, x) == v
  {
    hide Times;
    var s := tr.send as real;
    var y := tr.serv as real + grain;
    TimesOfSum(l, 0.0, 0.0);
    if v == b + Ceiling(l, tr, grain, b) {
      x := b;
    } else if v >= y {
      var d := (v - y) / (1.0 + l);
      TimesQuotient(1.0 + l, v - y);
      TimesByOne(l, d);
      TimesByOne(l, a - s);
      TimesByOne(l, b - s);
      TimesCompares(1.0 + l, d, b - s);
      TimesCompares(1.0 + l, a - s, d);
      TimesCompares(1.0 + l, 0.0, d);
      TimesOfSum(1.0 + l, 0.0, 0.0);
      CeilingShowsMore(l, tr, grain, a, b);
      if b <= s {
        CeilingShowsMore(l, tr, grain, b, s);
      }
      x := s + d;
    } else {
      if s <= a {
        CeilingShowsMore(l, tr, grain, s, a);
      }
      TimesByOne(l, s - a);
      TimesByOne(l, s - b);
      if l == 1.0 {
        FlatCeiling(s - a);
      }
      var k := 1.0 - l;
      var d := (y - v) / k;
      TimesQuotient(k, y - v);
      TimesByOne(l, d);
      TimesCompares(k, d, s - a);
      TimesCompares(k, s - b, d);
      TimesCompares(k, 0.0, d);
      TimesOfSum(k, 0.0, 0.0);
      x := s - d;
    }
  }

  lemma FlatCeiling(d: real)
    ensures Times(1.0, d) == d
  {
  }

  lemma {:induction false} EnvelopeShowsAll(l: real, samples: seq<Triplet>, grain: real, a: real, b: real, v: real)
    returns (x: real)
    requires 0.0 <= l <= 1.0 && a <= b && samples != []
    requires a + Envelope(l, samples, grain, a) <= v <= b + Envelope(l, samples, grain, b)
    ensures a <= x <= b && x + Envelope(l, samples, grain, x) == v
  {
    hide Times, Ceiling;
    var first, rest := samples[0], samples[1..];
    if rest == [] {
      x := CeilingShowsAll(l, first, grain, a, b, v);
    } else if a + Ceiling(l, first, grain, a) > v {
      x := EnvelopeShowsAll(l, rest, grain, a, b, v);
      CeilingShowsMore(l, first, grain, a, x);
    } else if a + Envelope(l, rest, grain, a) > v {
      x := CeilingShowsAll(l, first, grain, a, b, v);
      EnvelopeShowsMore(l, rest, grain, a, x);
    } else {
      var x0 := CeilingShowsAll(l, first, grain, a, b, v);
      var x1 := EnvelopeShowsAll(l, rest, grain, a, b, v);
      if x0 <= x1 {
        CeilingShowsMore(l, first, grain, x0, x1);
        x := x1;
      } else {
        EnvelopeShowsMore(l, rest, grain, x1, x0);
        x := x0;
      }
    }
  }

  /** No possible offset is above a ceiling at any time. */
  lemma OffsetIsBelowCeiling(clocks: Clocks, rate: nat, now: nat, time: real, samples: seq<Triplet>, tr: Triplet,
                             x: real)
    requires Possible(clocks, rate, now, time, samples) && tr in samples && rate <= MICRO
    ensures clocks.offset(x) <= Ceiling(Slope(rate), tr, clocks.serverGrain, x)
  {
    hide Times, Slope, DriftsAtMost;
    var t :| t <= time && ReadAt(tr, t, clocks);
    var l, s := Slope(rate), tr.send as real;
    SlopeIsAtMostOne(rate);
    DriftBetween(clocks.offset, l, s, t);
    TimesAtMostOne(l, t - s);
    if s <= x {
      DriftBetween(clocks.offset, l, s, x);
    } else {
      DriftBetween(clocks.offset, l, x, s);
    }
  }

  lemma OffsetIsBelowEnvelope(clocks: Clocks, rate: nat, now: nat, time: real, samples: seq<Triplet>, x: real)
    requires Possible(clocks, rate, now, time, samples) && samples != [] && rate <= MICRO
    ensures clocks.offset(x) <= Envelope(Slope(rate), samples, clocks.serverGrain, x)
  {
    hide Possible, Slope, Ceiling, Envelope;
    EnvelopeIsLeast(Slope(rate), samples, clocks.serverGrain, x);
    forall tr | tr in samples
      ensures clocks.offset(x) <= Ceiling(Slope(rate), tr, clocks.serverGrain, x)
    {
      OffsetIsBelowCeiling(clocks, rate, now, time, samples, tr, x);
    }
  }

  function EnvelopeClocks(rate: nat, samples: seq<Triplet>, localGrain: real, serverGrain: real): Clocks
    requires samples != []
  {
    Clocks(x => Envelope(Slope(rate), samples, serverGrain, x), localGrain, serverGrain)
  }

  /** If any clocks may have led to a sample, those along the envelope may. */
  lemma SampleIsGenuineOnEnvelope(clocks: Clocks, rate: nat, now: nat, time: real, samples: seq<Triplet>, tr: Triplet)
    requires Possible(clocks, rate, now, time, samples) && tr in samples && Sane(tr, now)
    requires rate <= MICRO && 0.0 <= clocks.localGrain && 0.0 <= clocks.serverGrain
    ensures
      Genuine(tr, now as real + clocks.localGrain, EnvelopeClocks(rate, samples, clocks.localGrain, clocks.serverGrain))
  {
    hide Times, Slope, DriftsAtMost, Envelope, Ceiling;
    var t :| t <= time && ReadAt(tr, t, clocks);
    var l, grain, a, b := Slope(rate), clocks.serverGrain, tr.send as real, tr.recv as real + clocks.localGrain;
    var best := EnvelopeClocks(rate, samples, clocks.localGrain, grain);
    SlopeIsAtMostOne(rate);
    EnvelopeIsLeast(l, samples, grain, a);
    CeilingAtSend(l, tr, grain);
    if a + Envelope(l, samples, grain, a) >= tr.serv as real {
      assert ReadAt(tr, a, best);
    } else {
      OffsetIsBelowEnvelope(clocks, rate, now, time, samples, t);
      var x := EnvelopeShowsAll(l, samples, grain, a, t, tr.serv as real);
      assert ReadAt(tr, x, best);
    }
  }

  lemma CeilingAtSend(l: real, tr: Triplet, grain: real)
    ensures tr.send as real + Ceiling(l, tr, grain, tr.send as real) == tr.serv as real + grain
  {
    TimesOfSum(l, 0.0, 0.0);
  }

  lemma EnvelopeIsPossible(clocks: Clocks, rate: nat, now: nat, time: real, samples: seq<Triplet>)
    requires Possible(clocks, rate, now, time, samples) && samples != [] && AllSane(samples, now)
    requires rate <= MICRO && 0.0 <= clocks.localGrain && 0.0 <= clocks.serverGrain
    ensures
      var best := EnvelopeClocks(rate, samples, clocks.localGrain, clocks.serverGrain);
      Possible(best, rate, now, now as real + clocks.localGrain, samples)
  {
    hide Times, Slope, Envelope, Genuine;
    var best := EnvelopeClocks(rate, samples, clocks.localGrain, clocks.serverGrain);
    SlopeIsAtMostOne(rate);
    forall a: real, b: real | a <= b
      ensures -Times(Slope(rate), b - a) <= best.offset(b) - best.offset(a) <= Times(Slope(rate), b - a)
    {
      EnvelopeDrifts(Slope(rate), samples, clocks.serverGrain, a, b);
    }
    forall tr | tr in samples
      ensures Genuine(tr, now as real + clocks.localGrain, best)
    {
      SampleIsGenuineOnEnvelope(clocks, rate, now, time, samples, tr);
    }
  }

  /** The merged upper bound holds for every clock that may have led to the window exactly
      when some sample rules out more: one whose highest offset is within the bound. */
  lemma MergedUpperHoldsIff(clocks: Clocks, rate: nat, now: nat, time: real, samples: seq<Triplet>)
    requires Possible(clocks, rate, now, time, samples) && samples != [] && AllSane(samples, now)
    requires rate <= MICRO && 0.0 <= clocks.localGrain && 0.0 <= clocks.serverGrain
    ensures
      var bound := Merge(rate, now, samples).ub;
      NeverAbove(bound, rate, now, samples, clocks.localGrain, clocks.serverGrain) <==>
      exists tr :: tr in samples && Highest(rate, now, tr, clocks.localGrain, clocks.serverGrain) <= bound as real
  {
    hide Times, Slope, DriftsAtMost, Possible, Merge, Ceiling, Envelope, Highest;
    var lg, sg, bound := clocks.localGrain, clocks.serverGrain, Merge(rate, now, samples).ub;
    var best, latest := EnvelopeClocks(rate, samples, lg, sg), now as real + lg;
    EnvelopeIsPossible(clocks, rate, now, time, samples);
    EnvelopeIsLeast(Slope(rate), samples, sg, latest);
    forall tr | tr in samples
      ensures Ceiling(Slope(rate), tr, sg, latest) == Highest(rate, now, tr, lg, sg)
    {
      CeilingIsHighest(rate, now, tr, lg, sg);
    }
    if tr :| tr in samples && Highest(rate, now, tr, lg, sg) <= bound as real {
      forall c: Clocks, x: real | HasGrains(c, lg, sg) && Possible(c, rate, now, x, samples)
        ensures c.offset(x) <= bound as real
      {
        OffsetIsBelowHighest(c, rate, now, x, samples, tr);
      }
    } else {
      assert HasGrains(best, lg, sg);
      assert best.offset(latest) > bound as real;
    }
  }

  lemma CeilingIsHighest(rate: nat, now: nat, tr: Triplet, localGrain: real, serverGrain: real)
    requires Sane(tr, now) && 0.0 <= localGrain
    ensures Ceiling(Slope(rate), tr, serverGrain, now as real + localGrain) ==
            Highest(rate, now, tr, localGrain, serverGrain)
  {
    hide Times, Slope;
  }

  // ---------------------------------------------------------------- a run that misses

  const SteadyDrift := Clocks(Line(0.0, 0.0, Slope(40)), 0.0, 0.0)

  const EmptyWorld := World(0.0, 0, {}, {}, [], [], 40, [])

  /** Our clock at the end, and the one sample. */
  const LATE: nat := 100_000

  const Slow := Triplet(0, 0, LATE)

  function SlowAnswer(late: real): seq<Move> {
    [SendPing, Reply(0, 0), Tick(late, LATE), Receive(Pong(0, 0)), Ingest(5_000)]
  }

  /** At the starting rate, with exact clocks: the server answers at once, the answer takes
      a tenth of a second, and the offset has drifted by 4 us where the code allows for 2. */
  lemma UpperBoundCanMiss()
    ensures
      var moves := SlowAnswer(100_000.0);
      && Init(EmptyWorld, SteadyDrift) && IsRun(EmptyWorld, moves, SteadyDrift)
      && var w := Exec(EmptyWorld, moves);
         && DriftsAtMost(SteadyDrift.offset, Slope(w.rate))
         && w.rate == 40 && w.now == LATE && Triplets(w.window) == [Slow] && Sane(Slow, LATE)
         && Merge(w.rate, w.now, Triplets(w.window)).ub == 2 && SteadyDrift.offset(w.time) == 4.0
  {
    hide Merge, DriftsAtMost, Step;
    LineDrifts(0.0, 0.0, Slope(40));
    SlowAnswerArrives();
    SlowBounds(40, LATE, Slow);
  }

  lemma SlowBounds(rate: nat, now: nat, tr: Triplet)
    requires rate == 40 && now == LATE && tr == Slow
    ensures Sane(tr, now) && Merge(rate, now, [tr]).ub == 2
  {
    hide *;
    assert tr == Triplet(0, 0, 100_000) && now == 100_000 by { SlowIs(); }
    SlowDrift(rate, now, tr);
    UpperOfOne(rate, now, tr);
  }

  lemma SlowIs()
    ensures Slow == Triplet(0, 0, 100_000) && LATE == 100_000
  {
  }

  lemma SlowDrift(rate: nat, now: nat, tr: Triplet)
    requires rate == 40 && tr.send == 0 && tr.recv == now == 100_000
    ensures Sane(tr, now) && Drift(rate, now, tr) == 2
  {
  }

  lemma UpperOfOne(rate: nat, now: nat, tr: Triplet)
    requires Sane(tr, now)
    ensures Merge(rate, now, [tr]).ub == tr.serv - tr.send + Drift(rate, now, tr)
  {
    hide Merge, Drift;
    MergeOfOne(rate, now, tr);
  }

  lemma SteadyStart()
    ensures SteadyDrift.ServerShows(0, 0.0)
  {
    hide Times, Slope;
    TimesOfSum(Slope(40), 0.0, 0.0);
  }

  lemma SlowAnswerArrives()
    ensures
      var moves := SlowAnswer(100_000.0);
      && IsRun(EmptyWorld, moves, SteadyDrift)
      && var w := Exec(EmptyWorld, moves);
         w.rate == 40 && w.now == LATE && w.time == 100_000.0 && Triplets(w.window) == [Slow]
  {
    hide IsRun, Exec, Refill, Triplets, Times, Slope;
    var w0 := EmptyWorld;
    var w1 := w0.(pings := {0});
    var w2 := w1.(pongs := {Pong(0, 0)});
    var w3 := w2.(time := 100_000.0, now := LATE);
    var w4 := w3.(ingest := [Slow]);
    var w5 := w4.(ingest := [], window := [Sample(100, Slow)]);
    assert Step(w0, SendPing) == w1 && Step(w1, Reply(0, 0)) == w2 && Step(w3, Receive(Pong(0, 0))) == w4;
    RefillOfOne(w4);
    EmptyRun(w5, SteadyDrift);
    OneMoreMove(w4, Ingest(5_000), [], SteadyDrift);
    var r4 := [Ingest(5_000)] + [];
    OneMoreMove(w3, Receive(Pong(0, 0)), r4, SteadyDrift);
    var r3 := [Receive(Pong(0, 0))] + r4;
    OneMoreMove(w2, Tick(100_000.0, LATE), r3, SteadyDrift);
    var r2 := [Tick(100_000.0, LATE)] + r3;
    SteadyStart();
    OneMoreMove(w1, Reply(0, 0), r2, SteadyDrift);
    var r1 := [Reply(0, 0)] + r2;
    OneMoreMove(w0, SendPing, r1, SteadyDrift);
    assert SlowAnswer(100_000.0) == [SendPing] + r1;
    TripletsOfOne(Sample(100, Slow));
  }

  lemma EmptyRun(w: World, clocks: Clocks)
    ensures IsRun(w, [], clocks) && Exec(w, []) == w
  {
  }

  lemma OneMoreMove(w: World, move: Move, rest: seq<Move>, clocks: Clocks)
    requires Enabled(w, move, clocks) && IsRun(Step(w, move), rest, clocks)
    ensures IsRun(w, [move] + rest, clocks) && Exec(w, [move] + rest) == Exec(Step(w, move), rest)
  {
    assert ([move] + rest)[1..] == rest;
  }

  lemma TripletsOfOne(s: Sample)
    ensures Triplets([s]) == [s.triplet]
  {
  }

  lemma RefillOfOne(w: World)
    requires w.window == [] && w.ingest == [Slow] && w.now == LATE
    ensures Refill(w.window, w.ingest, 5_000, w.now / 1000) == [Sample(100, Slow)]
  {
    hide Unexpired;
    var s := Sample(100, Slow);
    assert [] + Stamped(w.ingest, 100) == [s];
    YoungSample(s);
  }

  lemma YoungSample(s: Sample)
    ensures Unexpired([s], 0) == [s]
  {
    assert [s][..0] == [];
  }

  // ---------------------------------------------------------------- every run

  /** With true drift at most the estimated rate, itself at most 1 us/us, the merged
      interval encloses the current offset up to 1 us below, up to 1 us and the drift of
      half the longest round trip above, and up to the grains of the clocks. */
  lemma DriftingOffsetIsEnclosed(w0: World, moves: seq<Move>, clocks: Clocks, longest: nat)
    requires Init(w0, clocks) && IsRun(w0, moves, clocks)
    requires
      var w := Exec(w0, moves);
      && w.window != [] && w.rate <= MICRO && DriftsAtMost(clocks.offset, Slope(w.rate))
      && forall tr :: tr in Triplets(w.window) ==> Rtt(tr) <= longest
    ensures
      var w := Exec(w0, moves);
      && AllSane(Triplets(w.window), w.now)
      && var m := Merge(w.rate, w.now, Triplets(w.window));
         && m.lb as real - 1.0 - clocks.localGrain < clocks.offset(w.time)
         && 2.0 * (clocks.offset(w.time) - m.ub as real - 1.0 - clocks.serverGrain) <
            Times(Slope(w.rate), longest as real + 2.0 * clocks.localGrain)
  {
    hide Times, Slope, DriftsAtMost, Merge, Genuine, Lower, Upper;
    RunKeepsInv(w0, moves, clocks);
    var w := Exec(w0, moves);
    InvMakesWindowSane(w, clocks);
    var samples := Triplets(w.window);
    MergeIsTightest(w.rate, w.now, samples);
    assert Possible(clocks, w.rate, w.now, w.time, samples);
    forall tr | tr in samples
      ensures Lower(w.rate, w.now, tr) as real - 1.0 - clocks.localGrain < clocks.offset(w.time)
      ensures 2.0 * (clocks.offset(w.time) - Upper(w.rate, w.now, tr) as real - 1.0 - clocks.serverGrain) <
              Times(Slope(w.rate), longest as real + 2.0 * clocks.localGrain)
    {
      DriftingSample(clocks, w.rate, w.now, w.time, samples, tr);
      SlopeIsAtMostOne(w.rate);
      TimesGrows(Slope(w.rate), Rtt(tr) as real + 2.0 * clocks.localGrain, longest as real + 2.0 * clocks.localGrain);
    }
  }
}
