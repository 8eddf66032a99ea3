/**
 The generator of random/linear_congruential_generator.cpp: its recurrence
 modulo 2^32 has full period, and its selection sampling always fills the output.
 */
module Lcg {
  const A := 1664525
  const C := 1013904223
  const MODULUS := 0x1_0000_0000

  // ---------------------------------------------------------------- the recurrence

  /** The recurrence on unbounded integers. */
  function Iterate(a: int, c: int, x: int, n: nat): int {
    if n == 0 then x else a * Iterate(a, c, x, n - 1) + c
  }

  /** 1 + a + ... + a^(n-1) */
  function GeometricSum(a: int, n: nat): int {
    if n == 0 then 0 else a * GeometricSum(a, n - 1) + 1
  }

  function Pow2(k: nat): (p: nat)
    ensures p >= 1
  {
    if k == 0 then 1 else 2 * Pow2(k - 1)
  }

  ghost predicate Divides(d: int, x: int) {
    exists q :: x == q * d
  }

  /** n steps move x by GeometricSum(a, n) times what one step moves it by. */
  lemma {:induction false} Displacement(a: int, c: int, x: int, n: nat)
    ensures Iterate(a, c, x, n) - x == GeometricSum(a, n) * ((a - 1) * x + c)
  {
    if n > 0 {
      Displacement(a, c, x, n - 1);
      OneMoreStep(a, c, x, GeometricSum(a, n - 1), Iterate(a, c, x, n - 1));
    }
  }

  lemma OneMoreStep(a: int, c: int, x: int, s: int, i: int)
    requires i - x == s * ((a - 1) * x + c)
    ensures (a * i + c) - x == (a * s + 1) * ((a - 1) * x + c)
  {
    var step := (a - 1) * x + c;
    Distribute(x, s * step, a);
    Distribute(a * s, 1, step);
    Associate(a, s, step);
    Distribute(a, -1, x);
  }

  lemma Distribute(x: int, y: int, z: int)
    ensures (x + y) * z == x * z + y * z
    ensures z * (x + y) == z * x + z * y
  {
  }

  lemma Associate(x: int, y: int, z: int)
    ensures x * (y * z) == (x * y) * z
  {
  }

  function Pow(a: int, n: nat): int {
    if n == 0 then 1 else a * Pow(a, n - 1)
  }

  lemma {:induction false} SumOfMore(a: int, m: nat, n: nat)
    ensures GeometricSum(a, m + n) == Pow(a, n) * GeometricSum(a, m) + GeometricSum(a, n)
  {
    if n > 0 {
      SumOfMore(a, m, n - 1);
      var p, s, t := Pow(a, n - 1), GeometricSum(a, m), GeometricSum(a, n - 1);
      calc {
        GeometricSum(a, m + n);
        a * (p * s + t) + 1;
        { Distribute(p * s, t, a); }
        a * (p * s) + a * t + 1;
        { Associate(a, p, s); }
        (a * p) * s + (a * t + 1);
      }
    }
  }

  lemma {:induction false} PowersAreOneModFour(a: int, n: nat)
    requires a % 4 == 1
    ensures Pow(a, n) % 4 == 1
  {
    if n > 0 {
      PowersAreOneModFour(a, n - 1);
      OneModFourTimes(a, Pow(a, n - 1));
    }
  }

  lemma OneModFourTimes(x: int, y: int)
    requires x % 4 == 1 && y % 4 == 1
    ensures (x * y) % 4 == 1
  {
    var q := x / 4;
    var z := q * y;
    Distribute(4 * q, 1, y);
    Associate(4, q, y);
    assert x * y == 4 * z + y;
    FourTimesPlus(z, y);
  }

  lemma FourTimesPlus(z: int, y: int)
    ensures (4 * z + y) % 4 == y % 4
  {
  }

  lemma OddTimes(odd: int, x: int)
    requires odd % 2 == 1
    ensures (x * odd) % 2 == x % 2
    ensures (odd * x) % 2 == x % 2
  {
    var q := odd / 2;
    var z := q * x;
    Distribute(2 * q, 1, x);
    Associate(2, q, x);
    assert odd * x == 2 * z + x;
    EvenPlus(z, x);
  }

  lemma EvenPlus(z: int, y: int)
    ensures (2 * z + y) % 2 == y % 2
  {
  }

  lemma StepIsOdd(a: int, c: int, x: int)
    requires a % 4 == 1 && c % 2 == 1
    ensures ((a - 1) * x + c) % 2 == 1
  {
    var q := a / 4 * 2;
    EvenStep(a - 1, q, c, x);
  }

  lemma EvenStep(b: int, q: int, c: int, x: int)
    requires b == 2 * q
    ensures (b * x + c) % 2 == c % 2
  {
    Associate(2, q, x);
    EvenPlus(q * x, c);
  }

  lemma ParityOfNext(a: int, s: int, n: int)
    requires a % 2 == 1 && s % 2 == n % 2
    ensures (a * s + 1) % 2 == (n + 1) % 2
  {
    var product := a * s;
    assert product % 2 == s % 2 by { OddTimes(a, s); }
    SameParity(product, n);
  }

  lemma SameParity(x: int, y: int)
    requires x % 2 == y % 2
    ensures (x + 1) % 2 == (y + 1) % 2
  {
  }

  lemma {:induction false} SumParity(a: int, n: nat)
    requires a % 4 == 1
    ensures GeometricSum(a, n) % 2 == n % 2
  {
    if n > 0 {
      SumParity(a, n - 1);
      assert a == 4 * (a / 4) + 1;
      ParityOfNext(a, GeometricSum(a, n - 1), n - 1);
    }
  }

  lemma HalfDivides(k: nat, x: int)
    requires k > 0
    ensures Divides(Pow2(k), 2 * x) <==> Divides(Pow2(k - 1), x)
  {
    var p := Pow2(k - 1);
    if Divides(Pow2(k), 2 * x) {
      var q :| 2 * x == q * Pow2(k);
      Double(q, p);
      assert x == q * p;
    }
    if Divides(p, x) {
      var q :| x == q * p;
      Double(q, p);
      assert 2 * x == q * Pow2(k);
    }
  }

  lemma Double(q: int, p: int)
    ensures q * (2 * p) == 2 * (q * p)
  {
  }

  lemma OddIsNotDivisible(k: nat, x: int)
    requires k > 0 && Divides(Pow2(k), x)
    ensures x % 2 == 0
  {
    var q :| x == q * Pow2(k);
    Double(q, Pow2(k - 1));
  }

  lemma {:induction false} OddFactor(k: nat, odd: int, x: int)
    requires odd % 2 == 1
    ensures Divides(Pow2(k), x * odd) <==> Divides(Pow2(k), x)
    decreases k
  {
    OddTimes(odd, x);
    if k == 0 {
      assert x == x * Pow2(0) && x * odd == (x * odd) * Pow2(0);
    } else if x % 2 == 1 {
      if Divides(Pow2(k), x * odd) {
        OddIsNotDivisible(k, x * odd);
      }
      if Divides(Pow2(k), x) {
        OddIsNotDivisible(k, x);
      }
    } else {
      var half := x / 2;
      Associate(2, half, odd);
      assert x * odd == 2 * (half * odd);
      HalfDivides(k, half * odd);
      HalfDivides(k, half);
      OddFactor(k - 1, odd, half);
    }
  }

  lemma SumOfEven(a: int, m: nat) returns (odd: int)
    requires a % 4 == 1
    ensures odd % 2 == 1 && GeometricSum(a, m + m) == 2 * (GeometricSum(a, m) * odd)
  {
    odd := HalfOfPowerPlusOne(a, m);
    SumOfMore(a, m, m);
    var p, s := Pow(a, m), GeometricSum(a, m);
    FoldEven(p, odd, s);
  }

  lemma HalfOfPowerPlusOne(a: int, m: nat) returns (odd: int)
    requires a % 4 == 1
    ensures odd % 2 == 1 && Pow(a, m) + 1 == 2 * odd
  {
    PowersAreOneModFour(a, m);
    odd := (Pow(a, m) + 1) / 2;
  }

  lemma FoldEven(p: int, odd: int, s: int)
    requires p + 1 == 2 * odd
    ensures p * s + s == 2 * (s * odd)
  {
    Distribute(p, 1, s);
    Double(s, odd);
  }

  /** The crux: for a = 1 mod 4 the sum has exactly as many factors of two as n. */
  lemma {:induction false} SumHasTheTwosOfItsLength(a: int, k: nat, n: nat)
    requires a % 4 == 1
    ensures Divides(Pow2(k), GeometricSum(a, n)) <==> Divides(Pow2(k), n)
    decreases k
  {
    SumParity(a, n);
    if k == 0 {
      assert GeometricSum(a, n) == GeometricSum(a, n) * Pow2(0) && n == n * Pow2(0);
    } else if n % 2 == 1 {
      if Divides(Pow2(k), n) {
        OddIsNotDivisible(k, n);
      }
      if Divides(Pow2(k), GeometricSum(a, n)) {
        OddIsNotDivisible(k, GeometricSum(a, n));
      }
    } else {
      var m := n / 2;
      assert n == m + m;
      var odd := SumOfEven(a, m);
      HalfDivides(k, GeometricSum(a, m) * odd);
      HalfDivides(k, m);
      OddFactor(k - 1, odd, GeometricSum(a, m));
      SumHasTheTwosOfItsLength(a, k - 1, m);
    }
  }

  // ---------------------------------------------------------------- full period

  /** From any x, n steps return to x modulo 2^k exactly when 2^k divides n. */
  lemma ReturnsOnlyAfterFullPeriod(a: int, c: int, k: nat, x: int, n: nat)
    requires a % 4 == 1 && c % 2 == 1
    ensures Divides(Pow2(k), Iterate(a, c, x, n) - x) <==> Divides(Pow2(k), n)
  {
    var step, s := (a - 1) * x + c, GeometricSum(a, n);
    StepIsOdd(a, c, x);
    assert Iterate(a, c, x, n) - x == s * step by { Displacement(a, c, x, n); }
    OddFactor(k, step, s);
    SumHasTheTwosOfItsLength(a, k, n);
  }

  lemma {:induction false} IterateMore(a: int, c: int, x: int, m: nat, n: nat)
    ensures Iterate(a, c, x, m + n) == Iterate(a, c, Iterate(a, c, x, m), n)
  {
    if n > 0 {
      IterateMore(a, c, x, m, n - 1);
    }
  }

  /** Half a period moves every value by an odd multiple of 2^(k-1). */
  lemma HalfPeriodIsOdd(a: int, c: int, k: nat, x: int) returns (r: int)
    requires a % 4 == 1 && c % 2 == 1 && k > 0
    ensures r % 2 == 1 && Iterate(a, c, x, Pow2(k - 1)) - x == r * Pow2(k - 1)
  {
    var p := Pow2(k - 1);
    ReturnsOnlyAfterFullPeriod(a, c, k - 1, x, p);
    ReturnsOnlyAfterFullPeriod(a, c, k, x, p);
    assert p == 1 * p;
    r :| Iterate(a, c, x, p) - x == r * p;
    if r % 2 == 0 {
      Associate(r / 2, 2, p);
      assert r * p == (r / 2) * Pow2(k);
      var d: int :| p == d * Pow2(k);
      Associate(d, 2, p);
      NoFraction(d, p);
    }
  }

  lemma NoFraction(d: int, p: int)
    requires p > 0
    ensures p != (d * 2) * p
  {
    if d >= 1 {
      assert (d * 2) * p >= 2 * p;
    } else {
      assert (d * 2) * p <= 0;
    }
  }

  lemma EvenMultiple(q: int, k: nat)
    requires q % 2 == 0 && k > 0
    ensures Divides(Pow2(k), q * Pow2(k - 1))
  {
    Associate(q / 2, 2, Pow2(k - 1));
    assert q * Pow2(k - 1) == (q / 2) * Pow2(k);
  }

  lemma SumOfOddMultiples(q: int, r: int, k: nat)
    requires q % 2 == 1 && r % 2 == 1 && k > 0
    ensures Divides(Pow2(k), r * Pow2(k - 1) + q * Pow2(k - 1))
  {
    Distribute(r, q, Pow2(k - 1));
    EvenMultiple(r + q, k);
  }

  /** Some number of steps below 2^k leads from x to y modulo 2^k. */
  lemma {:induction false} ReachesEverything(a: int, c: int, k: nat, x: int, y: int) returns (n: nat)
    requires a % 4 == 1 && c % 2 == 1
    ensures n < Pow2(k) && Divides(Pow2(k), Iterate(a, c, x, n) - y)
  {
    if k == 0 {
      n := 0;
      assert x - y == (x - y) * Pow2(0);
    } else {
      n := ReachesEverything(a, c, k - 1, x, y);
      var p := Pow2(k - 1);
      var here := Iterate(a, c, x, n);
      var q :| here - y == q * p;
      if q % 2 == 0 {
        EvenMultiple(q, k);
      } else {
        var r := HalfPeriodIsOdd(a, c, k, here);
        IterateMore(a, c, x, n, p);
        SumOfOddMultiples(q, r, k);
        assert Iterate(a, c, x, n + p) - y == r * p + q * p;
        n := n + p;
      }
    }
  }

  // ---------------------------------------------------------------- the 32-bit seed

  function Next(seed: nat): (next: nat)
    ensures next < MODULUS
  {
    (A * seed + C) % MODULUS
  }

  function Seed(seed: nat, n: nat): (s: nat) {
    if n == 0 then seed else Next(Seed(seed, n - 1))
  }

  lemma PowersOfTwo()
    ensures Pow2(32) == MODULUS
  {
    assert Pow2(8) == 256;
    assert Pow2(16) == 65536;
    assert Pow2(24) == 65536 * 256;
  }

  lemma {:induction false} SeedsAreResidues(seed: nat, n: nat)
    requires seed < MODULUS
    ensures Seed(seed, n) < MODULUS
    ensures Divides(MODULUS, Iterate(A, C, seed, n) - Seed(seed, n))
  {
    if n == 0 {
      assert 0 == 0 * MODULUS;
    } else {
      SeedsAreResidues(seed, n - 1);
      var s, i := Seed(seed, n - 1), Iterate(A, C, seed, n - 1);
      var q :| i - s == q * MODULUS;
      var r := (A * s + C) / MODULUS;
      assert A * i + C - Next(s) == (A * q + r) * MODULUS;
    }
  }

  lemma ResiduesAreEqual(x: int, y: int)
    requires 0 <= x < MODULUS && 0 <= y < MODULUS
    ensures Divides(MODULUS, x - y) <==> x == y
  {
    if x == y {
      assert x - y == 0 * MODULUS;
    }
  }

  lemma DividesSum(d: int, x: int, y: int)
    requires Divides(d, x)
    ensures Divides(d, x + y) <==> Divides(d, y)
  {
    var q :| x == q * d;
    if Divides(d, y) {
      var r :| y == r * d;
      assert x + y == (q + r) * d;
    }
    if Divides(d, x + y) {
      var r :| x + y == r * d;
      assert y == (r - q) * d;
    }
  }

  lemma SeedReturns(seed: nat, n: nat)
    requires seed < MODULUS
    ensures Seed(seed, n) == seed <==> n % MODULUS == 0
  {
    hide Iterate, Seed, Pow2;
    PowersOfTwo();
    SeedsAreResidues(seed, n);
    var i, s := Iterate(A, C, seed, n), Seed(seed, n);
    assert Divides(MODULUS, i - seed) <==> Divides(MODULUS, n) by { ReturnsOnlyAfterFullPeriod(A, C, 32, seed, n); }
    assert Divides(MODULUS, (i - s) + (s - seed)) <==> Divides(MODULUS, s - seed) by {
      DividesSum(MODULUS, i - s, s - seed);
    }
    ResiduesAreEqual(s, seed);
    DividesIsRemainder(n);
  }

  lemma DividesIsRemainder(n: nat)
    ensures Divides(MODULUS, n) <==> n % MODULUS == 0
  {
    assert n == (n / MODULUS) * MODULUS + n % MODULUS;
  }

  lemma SeedReaches(seed: nat, word: nat) returns (m: nat)
    requires seed < MODULUS && word < MODULUS
    ensures m < MODULUS && Seed(seed, m) == word
  {
    hide Iterate, Seed, Pow2;
    PowersOfTwo();
    m := ReachesEverything(A, C, 32, seed, word);
    SeedsAreResidues(seed, m);
    var i, s := Iterate(A, C, seed, m), Seed(seed, m);
    assert Divides(MODULUS, (i - s) + (s - word)) <==> Divides(MODULUS, s - word) by {
      DividesSum(MODULUS, i - s, s - word);
    }
    ResiduesAreEqual(s, word);
  }

  /** Full period: the generator returns to a seed after n steps exactly when 2^32
      divides n, and from every seed it reaches every word in fewer than 2^32 steps. */
  lemma FullPeriod(seed: nat, n: nat, word: nat)
    requires seed < MODULUS && word < MODULUS
    ensures Seed(seed, n) == seed <==> n % MODULUS == 0
    ensures exists m: nat :: m < MODULUS && Seed(seed, m) == word
  {
    SeedReturns(seed, n);
    var m := SeedReaches(seed, word);
  }

  // ---------------------------------------------------------------- selection sampling

  /** The two floating-point operations: a seed as a draw in the unit interval, and the
      quotient of two counts. Only the facts in Faithful are used of them. */
  datatype Float = Float(draw: nat -> real, ratio: (nat, nat) -> real) {
    ghost predicate Faithful() {
      && (forall seed: nat :: seed < MODULUS ==> draw(seed) <= 1.0)
      && (forall n: nat :: 0 < n ==> ratio(n, n) == 1.0)
    }
  }

  /** The indices taken from i..size when `missing` are still wanted. */
  function Selected(fl: Float, seed: nat, i: nat, size: nat, missing: nat): (taken: seq<nat>)
    requires i <= size
    decreases size - i
  {
    if i == size || missing == 0 then []
    else if fl.draw(Next(seed)) <= fl.ratio(missing, size - i) then
      [i] + Selected(fl, Next(seed), i + 1, size, missing - 1)
    else
      Selected(fl, Next(seed), i + 1, size, missing)
  }

  /** Whatever the draws, exactly the indices wanted are taken, in increasing order. */
  lemma {:induction false} SelectionIsCompleteAndIncreasing(fl: Float, seed: nat, i: nat, size: nat, missing: nat)
    requires fl.Faithful() && i <= size && missing <= size - i
    ensures
      var taken := Selected(fl, seed, i, size, missing);
      && |taken| == missing
      && (forall j :: 0 <= j < |taken| ==> i <= taken[j] < size)
      && (forall j, k :: 0 <= j < k < |taken| ==> taken[j] < taken[k])
    decreases size - i
  {
    if i < size && missing > 0 {
      if fl.draw(Next(seed)) <= fl.ratio(missing, size - i) {
        SelectionIsCompleteAndIncreasing(fl, Next(seed), i + 1, size, missing - 1);
      } else {
        assert missing < size - i;
        SelectionIsCompleteAndIncreasing(fl, Next(seed), i + 1, size, missing);
      }
    }
  }

  lemma {:induction false} SeedShift(seed: nat, n: nat)
    ensures Seed(Next(seed), n) == Seed(seed, n + 1)
  {
    if n > 0 {
      SeedShift(seed, n - 1);
    }
  }

  lemma {:induction false} SelectedFrom(fl: Float, seed: nat, i: nat, size: nat, missing: nat)
    requires i <= size
    ensures forall x :: x in Selected(fl, seed, i, size, missing) ==> i <= x
    decreases size - i
  {
    if i < size && missing > 0 {
      SelectedFrom(fl, Next(seed), i + 1, size, missing - 1);
      SelectedFrom(fl, Next(seed), i + 1, size, missing);
    }
  }

  /** Of the indices in `taken`, the first k are below i and the others are not. */
  ghost predicate SplitsAt(taken: seq<nat>, i: nat, k: nat) {
    && k <= |taken|
    && (forall j :: 0 <= j < k ==> taken[j] < i)
    && forall j :: k <= j < |taken| ==> i <= taken[j]
  }

  /** An index is taken exactly if some are still missing and its own draw is at most the
      ratio of those missing to those left, where k were taken before it. */
  lemma {:induction false} SelectionRule(fl: Float, seed: nat, i: nat, size: nat, missing: nat, x: nat, k: nat)
    requires i <= x < size && SplitsAt(Selected(fl, seed, i, size, missing), x, k)
    ensures x in Selected(fl, seed, i, size, missing) <==>
            k < missing && fl.draw(Seed(seed, x + 1 - i)) <= fl.ratio(missing - k, size - x)
    decreases size - i
  {
    hide Next, Selected;
    SelectedStep(fl, seed, i, size, missing);
    SelectedFrom(fl, seed, i, size, missing);
    if missing > 0 {
      var takes := fl.draw(Next(seed)) <= fl.ratio(missing, size - i);
      var left := if takes then missing - 1 else missing;
      var taken, rest := Selected(fl, seed, i, size, missing), Selected(fl, Next(seed), i + 1, size, left);
      assert taken == if takes then [i] + rest else rest;
      SelectedFrom(fl, Next(seed), i + 1, size, left);
      if x > i {
        SeedShift(seed, x - i);
        if takes {
          assert taken[0] == i && forall j :: 0 <= j < |rest| ==> rest[j] == taken[j + 1];
        }
        SelectionRule(fl, Next(seed), i + 1, size, left, x, if takes then k - 1 else k);
      } else {
        assert Seed(seed, 1) == Next(Seed(seed, 0));
        assert taken != [] ==> taken[0] in taken;
      }
    }
  }

  /** The first seeds from 0. */
  lemma FirstSeeds()
    ensures Seed(0, 1) == 1013904223 && Seed(0, 2) == 1196435762
    ensures Seed(0, 3) == 3519870697 && Seed(0, 4) == 2868466484
  {
    assert Next(0) == 1013904223;
    assert Next(1013904223) == 1196435762;
    assert Next(1196435762) == 3519870697;
    assert Next(3519870697) == 2868466484;
  }

  // ---------------------------------------------------------------- the range of the indices

  /** All indices below the number wanted, as the header promises. */
  ghost predicate WithinOut(taken: seq<nat>, missing: nat) {
    forall i :: i in taken ==> i < missing
  }

  /** Quotients without rounding. */
  const EXACT := Float(
    (seed: nat) => seed as real / 4294967296.0,
    (m: nat, n: nat) => if n == 0 then 0.0 else m as real / n as real)

  lemma ExactIsFaithful()
    ensures EXACT.Faithful()
  {
    forall n: nat | 0 < n
      ensures EXACT.ratio(n, n) == 1.0
    {
      QuotientOfSame(n as real);
    }
  }

  lemma QuotientOfSame(r: real)
    requires r != 0.0
    ensures r / r == 1.0
  {
  }

  /** If the first index is passed over, the last one taken is not below the number wanted. */
  lemma PassingZeroLeavesOut(fl: Float, seed: nat, size: nat, missing: nat)
    requires fl.Faithful() && 0 < missing < size
    requires fl.draw(Next(seed)) > fl.ratio(missing, size)
    ensures !WithinOut(Selected(fl, seed, 0, size, missing), missing)
  {
    var taken := Selected(fl, Next(seed), 1, size, missing);
    SelectionIsCompleteAndIncreasing(fl, Next(seed), 1, size, missing);
    IncreasingReachesFar(taken, missing - 1);
    assert taken[missing - 1] in taken;
  }

  lemma {:induction false} IncreasingReachesFar(taken: seq<nat>, j: nat)
    requires j < |taken| && 1 <= taken[0]
    requires forall a, b :: 0 <= a < b < |taken| ==> taken[a] < taken[b]
    ensures j + 1 <= taken[j]
  {
    if j > 0 {
      IncreasingReachesFar(taken, j - 1);
    }
  }

  /** Some seed's next draw is the largest of all. */
  lemma SomeSeedDrawsLargest() returns (seed: nat)
    ensures seed < MODULUS && Next(seed) == MODULUS - 1
  {
    var m := SeedReaches(0, MODULUS - 1);
    seed := Seed(0, m - 1);
    SeedsAreResidues(0, m - 1);
  }

  lemma LargestDrawPasses(missing: nat, size: nat)
    requires missing < size < MODULUS
    ensures EXACT.ratio(missing, size) < EXACT.draw(MODULUS - 1)
  {
    var q, n := EXACT.ratio(missing, size), size as real;
    assert q * n == missing as real;
    if q >= EXACT.draw(MODULUS - 1) {
      QuotientIsLarge(q, n);
      assert false;
    }
  }

  lemma QuotientIsLarge(q: real, n: real)
    requires 0.0 < n < 4294967296.0 && q >= 4294967295.0 / 4294967296.0
    ensures q * n > n - 1.0
  {
    var c := 4294967295.0 / 4294967296.0;
    assert (q - c) * n >= 0.0;
    assert q * n == (q - c) * n + c * n;
  }

  /** The header's range holds for every seed exactly when nothing or everything is wanted. */
  lemma RangeHoldsIff(size: nat, missing: nat)
    requires missing <= size < MODULUS
    ensures (forall seed: nat :: seed < MODULUS ==> WithinOut(Selected(EXACT, seed, 0, size, missing), missing)) <==>
            missing == 0 || missing == size
  {
    ExactIsFaithful();
    if missing == 0 || missing == size {
      forall seed: nat | seed < MODULUS
        ensures WithinOut(Selected(EXACT, seed, 0, size, missing), missing)
      {
        SelectionIsCompleteAndIncreasing(EXACT, seed, 0, size, missing);
      }
    } else {
      var seed := SomeSeedDrawsLargest();
      LargestDrawPasses(missing, size);
      PassingZeroLeavesOut(EXACT, seed, size, missing);
    }
  }

  /** One of two from this seed: the second, although the header allows only the first. */
  lemma IndexCanPassOutSize()
    ensures Selected(EXACT, 1000, 0, 2, 1) == [1] && !WithinOut([1], 1)
  {
    ExactIsFaithful();
    assert 1 in [1];
    assert Next(1000) == 2678429223;
    assert EXACT.draw(Next(1000)) > 0.5 && EXACT.ratio(1, 2) == 0.5;
    SelectionIsCompleteAndIncreasing(EXACT, Next(1000), 1, 2, 1);
  }

  class LinearCongruentialGenerator {
    var seed: nat
    const fl: Float

    ghost predicate Valid()
      reads this
    {
      seed < MODULUS && fl.Faithful()
    }

    constructor (seed: nat, fl: Float)
      requires seed < MODULUS && fl.Faithful()
      ensures Valid() && this.seed == seed && this.fl == fl
    {
      this.seed, this.fl := seed, fl;
    }

    method Generate() returns (u: real)
      requires Valid()
      modifies this
      ensures Valid() && seed == Next(old(seed)) && u == fl.draw(seed) <= 1.0
    {
      seed := (A * seed + C) % MODULUS;
      u := fl.draw(seed);
    }

    /** Fails only where the original's first CHECK aborts; the second is asserted. */
    method GenerateSampleIdxs(collectionSize: nat, out: array<nat>) returns (ok: bool)
      requires Valid()
      modifies this, out
      ensures Valid()
      ensures ok <==> out.Length <= collectionSize
      ensures ok ==> out[..] == Selected(fl, old(seed), 0, collectionSize, out.Length)
      ensures ok ==> seed == Seed(old(seed), if out.Length == 0 then 0 else out[out.Length - 1] + 1)
      ensures !ok ==> seed == old(seed) && out[..] == old(out[..])
    {
      hide Next, Selected, Seed, Considered;
      NothingConsidered(seed);
      var needed := out.Length;
      if !(needed <= collectionSize) {
        return false;
      }
      SelectionIsCompleteAndIncreasing(fl, seed, 0, collectionSize, needed);
      var used := 0;
      for i := 0 to collectionSize
        invariant Valid() && used <= needed <= used + (collectionSize - i)
        invariant seed == Seed(old(seed), i)
        invariant used == needed ==> i == Considered(out[..used])
        invariant Selected(fl, old(seed), 0, collectionSize, needed) ==
                  out[..used] + Selected(fl, seed, i, collectionSize, needed - used)
      {
        var reservoirSize := collectionSize - i;
        var missing := needed - used;
        assert missing <= reservoirSize;
        SelectedStep(fl, seed, i, collectionSize, missing);
        if missing == 0 {
          break;
        }
        var prob := fl.ratio(missing, reservoirSize);
        SeedOneMore(old(seed), i);
        var u := Generate();
        if u <= prob {
          ghost var rest := Selected(fl, seed, i + 1, collectionSize, missing - 1);
          Regroup(out[..used], i, rest);
          LastConsidered(out[..used], i);
          out[used] := i;
          assert out[..used + 1] == out[..used] + [i];
          used := used + 1;
        }
      }
      assert needed == used && out[..used] == out[..];
      ConsideredIs(out[..]);
      SelectedNone(fl, seed, collectionSize);
      ok := true;
    }
  }

  /** How many indices are looked at, and draws made, until all that are wanted are taken. */
  function Considered(taken: seq<nat>): nat {
    if taken == [] then 0 else taken[|taken| - 1] + 1
  }

  lemma ConsideredIs(taken: seq<nat>)
    ensures Considered(taken) == if |taken| == 0 then 0 else taken[|taken| - 1] + 1
  {
  }

  lemma LastConsidered(taken: seq<nat>, i: nat)
    ensures Considered(taken + [i]) == i + 1
  {
  }

  lemma Regroup(taken: seq<nat>, i: nat, rest: seq<nat>)
    ensures taken + ([i] + rest) == (taken + [i]) + rest
  {
  }

  lemma NothingConsidered(seed: nat)
    ensures Seed(seed, 0) == seed && Considered([]) == 0
  {
  }

  lemma SeedOneMore(seed: nat, n: nat)
    ensures Seed(seed, n + 1) == Next(Seed(seed, n))
  {
  }

  /** One more index considered. */
  lemma SelectedStep(fl: Float, seed: nat, i: nat, size: nat, missing: nat)
    requires i < size
    ensures Selected(fl, seed, i, size, missing) ==
            if missing == 0 then []
            else if fl.draw(Next(seed)) <= fl.ratio(missing, size - i) then
              [i] + Selected(fl, Next(seed), i + 1, size, missing - 1)
            else Selected(fl, Next(seed), i + 1, size, missing)
  {
  }

  lemma SelectedNone(fl: Float, seed: nat, size: nat)
    ensures Selected(fl, seed, size, size, 0) == []
  {
  }
}
