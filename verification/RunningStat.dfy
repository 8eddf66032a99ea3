/**
 Welford's recurrence of math/running_stat.h over exact reals, for every history of
 Push and Clear.
 */
module RunningStat {

  // ---------------------------------------------------------------- the definitions

  function Sum(xs: seq<real>): real {
    if xs == [] then 0.0 else Sum(xs[..|xs| - 1]) + xs[|xs| - 1]
  }

  function MeanOf(xs: seq<real>): real
    requires xs != []
  {
    Sum(xs) / (|xs| as real)
  }

  function Times(a: real, b: real): real { a * b }

  function Squared(a: real): real { a * a }

  /** Sum of squared deviations from c. */
  function Deviation(xs: seq<real>, c: real): real {
    if xs == [] then 0.0
    else Deviation(xs[..|xs| - 1], c) + Squared(xs[|xs| - 1] - c)
  }

  // ---------------------------------------------------------------- the recurrence

  datatype Stat = Stat(n: nat, oldM: real, newM: real, oldS: real, newS: real) {
    function Push(x: real): Stat {
      var n' := n + 1;
      if n' == 1 then Stat(1, x, x, 0.0, newS)
      else
        var m := oldM + (x - oldM) / (n' as real);
        var s := oldS + Times(x - oldM, x - m);
        Stat(n', m, m, s, s)
    }

    function Clear(): Stat { this.(n := 0) }

    function Mean(): real { if n > 0 then newM else 0.0 }

    function Variance(): real { if n > 1 then newS / ((n - 1) as real) else 0.0 }
  }

  datatype Op = Push(x: real) | Clear

  const Initial := Stat(0, 0.0, 0.0, 0.0, 0.0)

  function After(ops: seq<Op>): Stat {
    if ops == [] then Initial
    else
      match ops[|ops| - 1]
      case Push(x) => After(ops[..|ops| - 1]).Push(x)
      case Clear => After(ops[..|ops| - 1]).Clear()
  }

  /** The values pushed since the last Clear. */
  function Since(ops: seq<Op>): seq<real> {
    if ops == [] then []
    else
      match ops[|ops| - 1]
      case Push(x) => Since(ops[..|ops| - 1]) + [x]
      case Clear => []
  }

  // ---------------------------------------------------------------- the algebra

  lemma SquareOfSum(a: real, b: real)
    ensures (a + b) * (a + b) == a * a + 2.0 * (a * b) + b * b
  {
  }

  lemma Distribute(a: real, b: real, c: real)
    ensures (a + b) * c == a * c + b * c
  {
  }

  /** n values whose distances from a centre add up to a move the centre by e. */
  function Moved(n: real, a: real, e: real): real {
    2.0 * Times(a, e) + Times(n, Squared(e))
  }

  /** One more value, at distance y from the old centre. */
  lemma MovedOneMore(n: real, a: real, y: real, e: real)
    ensures Moved(n, a, e) + Squared(y + e) == Squared(y) + Moved(n + 1.0, a + y, e)
  {
    SquareOfSum(y, e);
    Distribute(a, y, e);
    Distribute(n, 1.0, e * e);
  }

  lemma MovedNone(e: real)
    ensures Moved(0.0, 0.0, e) == 0.0
  {
  }

  lemma TimesOneMore(n: real, d: real)
    ensures Times(n + 1.0, d) == Times(n, d) + d && Times(0.0, d) == 0.0
  {
    Distribute(n, 1.0, d);
  }

  /** Moving the centre from d to c. */
  lemma {:induction false} Recentre(xs: seq<real>, c: real, d: real)
    ensures Deviation(xs, c) ==
            Deviation(xs, d) + Moved(|xs| as real, Sum(xs) - Times(|xs| as real, d), d - c)
  {
    hide Times, Squared, Moved;
    if xs == [] {
      TimesOneMore(0.0, d);
      MovedNone(d - c);
    } else {
      var k := |xs| - 1;
      var x, n, a := xs[k], k as real, Sum(xs[..k]) - Times(k as real, d);
      Recentre(xs[..k], c, d);
      MovedOneMore(n, a, x - d, d - c);
      TimesOneMore(n, d);
      assert (x - d) + (d - c) == x - c;
      assert Sum(xs) - Times(|xs| as real, d) == a + (x - d);
    }
  }

  lemma MeanTimesCount(xs: seq<real>)
    requires xs != []
    ensures Times(|xs| as real, MeanOf(xs)) == Sum(xs)
  {
  }

  /** One step of the recurrence gives the mean of one more value. */
  lemma MeanStep(xs: seq<real>, x: real)
    requires xs != []
    ensures MeanOf(xs) + (x - MeanOf(xs)) / ((|xs| + 1) as real) == MeanOf(xs + [x])
  {
    var n, m := |xs| as real, MeanOf(xs);
    assert (xs + [x])[..|xs|] == xs;
    MeanTimesCount(xs);
    assert Sum(xs + [x]) == n * m + x;
    MeanArithmetic(n, m, x);
  }

  lemma MeanArithmetic(n: real, m: real, x: real)
    requires n > 0.0
    ensures m + (x - m) / (n + 1.0) == (n * m + x) / (n + 1.0)
  {
    var d := (x - m) / (n + 1.0);
    assert d * (n + 1.0) == x - m;
    assert (m + d) * (n + 1.0) == n * m + x by {
      Distribute(m, d, n + 1.0);
    }
    assert (n * m + x) / (n + 1.0) == ((m + d) * (n + 1.0)) / (n + 1.0);
    Cancel(m + d, n + 1.0);
  }

  lemma Cancel(a: real, b: real)
    requires b != 0.0
    ensures (a * b) / b == a
  {
  }

  /** n(M - M')^2 + (x - M')^2 = (x - M)(x - M'), where M' - M = (x - M)/(n + 1). */
  lemma WelfordIdentity(n: real, x: real, m: real, m': real)
    requires n > 0.0 && Times(n + 1.0, m' - m) == x - m
    ensures Times(n, Squared(m - m')) + Squared(x - m') == Times(x - m, x - m')
  {
    var d := m' - m;
    assert x - m == n * d + d by { Distribute(n, 1.0, d); }
    assert x - m' == n * d;
    assert (m - m') * (m - m') == d * d;
    assert n * (d * d) == d * (n * d);
    Distribute(n * d, d, n * d);
  }

  /** The squares about the mean are fewer than those about c by n (mean - c)^2. */
  lemma DeviationFromMean(xs: seq<real>, c: real)
    requires xs != []
    ensures
      var n, m := |xs| as real, MeanOf(xs);
      Deviation(xs, c) == Deviation(xs, m) + Times(n, Squared(m - c))
  {
    hide Times, Squared, Moved, Deviation, Sum;
    var n, m := |xs| as real, MeanOf(xs);
    Recentre(xs, c, m);
    MeanTimesCount(xs);
    MovedFromMean(n, m - c);
  }

  lemma MovedFromMean(n: real, e: real)
    ensures Moved(n, 0.0, e) == Times(n, Squared(e))
  {
  }

  lemma DeviationStep(xs: seq<real>, x: real)
    requires xs != []
    ensures Deviation(xs + [x], MeanOf(xs + [x])) ==
            Deviation(xs, MeanOf(xs)) + Times(x - MeanOf(xs), x - MeanOf(xs + [x]))
  {
    hide Times, Squared, Moved;
    var n, m, m' := |xs| as real, MeanOf(xs), MeanOf(xs + [x]);
    assert (xs + [x])[..|xs|] == xs;
    DeviationFromMean(xs, m');
    MeanStep(xs, x);
    Quotient(x - m, n + 1.0);
    WelfordIdentity(n, x, m, m');
  }

  lemma Quotient(a: real, b: real)
    requires b != 0.0
    ensures Times(b, a / b) == a
  {
  }

  // ---------------------------------------------------------------- every history

  ghost predicate Describes(s: Stat, xs: seq<real>) {
    && s.n == |xs|
    && (xs != [] ==> s.oldM == s.newM == MeanOf(xs) && s.oldS == Deviation(xs, MeanOf(xs)))
    && (|xs| > 1 ==> s.newS == s.oldS)
  }

  lemma FirstPushDescribes(s: Stat, x: real)
    requires s.n == 0
    ensures Describes(s.Push(x), [x])
  {
    assert [x][..0] == [];
    assert Sum([x]) == x;
    assert MeanOf([x]) == x;
    assert Deviation([x], x) == 0.0;
  }

  lemma NextPushDescribes(s: Stat, xs: seq<real>, x: real)
    requires xs != [] && Describes(s, xs)
    ensures Describes(s.Push(x), xs + [x])
  {
    hide Times, Deviation, Sum;
    var m, m' := MeanOf(xs), MeanOf(xs + [x]);
    MeanStep(xs, x);
    assert s.Push(x).newM == m';
    DeviationStep(xs, x);
    assert s.Push(x).newS == s.oldS + Times(x - m, x - m');
  }

  lemma {:induction false} HistoryIsDescribed(ops: seq<Op>)
    ensures Describes(After(ops), Since(ops))
  {
    if ops != [] {
      HistoryIsDescribed(ops[..|ops| - 1]);
      if ops[|ops| - 1].Push? {
        var s, xs, x := After(ops[..|ops| - 1]), Since(ops[..|ops| - 1]), ops[|ops| - 1].x;
        if xs == [] {
          FirstPushDescribes(s, x);
        } else {
          NextPushDescribes(s, xs, x);
        }
      }
    }
  }

  /** Mean and Variance match their definitions on exactly the values pushed since the
      last Clear. */
  lemma StatisticsAreExact(ops: seq<Op>)
    ensures
      var xs := Since(ops);
      && After(ops).n == |xs|
      && After(ops).Mean() == (if xs == [] then 0.0 else MeanOf(xs))
      && After(ops).Variance() ==
         (if |xs| <= 1 then 0.0 else Deviation(xs, MeanOf(xs)) / ((|xs| - 1) as real))
  {
    HistoryIsDescribed(ops);
  }

  // ---------------------------------------------------------------- the stale member

  /** The values of the newest stretch without a Clear that reached two values. */
  function LastLong(ops: seq<Op>): seq<real> {
    if ops == [] then []
    else if |Since(ops)| >= 2 then Since(ops)
    else LastLong(ops[..|ops| - 1])
  }

  /** m_newS describes that stretch, be it the current one or not. */
  lemma {:induction false} NewSDescribesLastLong(ops: seq<Op>)
    ensures After(ops).newS == if LastLong(ops) == [] then 0.0 else Deviation(LastLong(ops), MeanOf(LastLong(ops)))
  {
    hide Deviation, MeanOf, Times;
    if ops != [] {
      HistoryIsDescribed(ops);
      HistoryIsDescribed(ops[..|ops| - 1]);
      NewSDescribesLastLong(ops[..|ops| - 1]);
    }
  }

  lemma PositiveProduct(a: real, b: real)
    requires a > 0.0 && b > 0.0
    ensures Times(a, b) > 0.0
  {
  }

  lemma PositiveSquare(a: real)
    requires a > 0.0
    ensures Squared(a) > 0.0
  {
    PositiveProduct(a, a);
  }

  lemma SquareOfMinus(a: real)
    ensures Squared(-a) == Squared(a)
  {
  }

  lemma SquareIsZeroIff(a: real)
    ensures 0.0 <= Squared(a)
    ensures Squared(a) == 0.0 <==> a == 0.0
  {
    if a > 0.0 {
      PositiveSquare(a);
    } else if a < 0.0 {
      hide Squared;
      PositiveSquare(-a);
      SquareOfMinus(a);
    }
  }

  lemma {:induction false} DeviationIsZeroIff(xs: seq<real>, c: real)
    ensures 0.0 <= Deviation(xs, c)
    ensures Deviation(xs, c) == 0.0 <==> forall x :: x in xs ==> x == c
  {
    hide Squared;
    if xs != [] {
      var n := |xs| - 1;
      DeviationIsZeroIff(xs[..n], c);
      SquareIsZeroIff(xs[n] - c);
      assert forall x :: x in xs <==> x in xs[..n] || x == xs[n];
      assert xs[n] in xs;
      assert (forall x :: x in xs ==> x == c) <==> (forall x :: x in xs[..n] ==> x == c) && xs[n] == c;
    }
  }

  ghost predicate AllEqual(xs: seq<real>) {
    forall x, y :: x in xs && y in xs ==> x == y
  }

  lemma {:induction false} SumOfEqual(xs: seq<real>, c: real)
    requires forall x :: x in xs ==> x == c
    ensures Sum(xs) == Times(|xs| as real, c)
  {
    hide Times;
    if xs == [] {
      TimesOneMore(0.0, c);
    } else {
      var n := |xs| - 1;
      assert xs[n] in xs && forall x :: x in xs[..n] ==> x in xs;
      SumOfEqual(xs[..n], c);
      TimesOneMore(n as real, c);
    }
  }

  lemma SpreadIsZeroIff(xs: seq<real>)
    requires xs != []
    ensures Deviation(xs, MeanOf(xs)) == 0.0 <==> AllEqual(xs)
  {
    hide Times, Deviation;
    DeviationIsZeroIff(xs, MeanOf(xs));
    assert xs[0] in xs;
    if AllEqual(xs) {
      SumOfEqual(xs, xs[0]);
      MeanOfEqual(|xs| as real, xs[0]);
    }
  }

  lemma MeanOfEqual(n: real, c: real)
    requires n != 0.0
    ensures Times(n, c) / n == c
  {
    Cancel(c, n);
  }

  /** m_newS is the sum of squared deviations of the values since the last Clear exactly when
      they are at least two, or the newest earlier stretch of two or more was of equal values. */
  lemma NewSIsExactIff(ops: seq<Op>)
    requires Since(ops) != []
    ensures After(ops).newS == Deviation(Since(ops), MeanOf(Since(ops))) <==>
            |Since(ops)| > 1 || AllEqual(LastLong(ops))
  {
    var xs := Since(ops);
    hide Deviation, MeanOf, Times, After;
    NewSDescribesLastLong(ops);
    if |xs| == 1 {
      SpreadIsZeroIff(xs);
      assert AllEqual(xs);
      if LastLong(ops) != [] {
        SpreadIsZeroIff(LastLong(ops));
      }
    }
  }

  lemma NewSCanBeStale()
    ensures
      var ops := [Push(1.0), Push(3.0), Clear, Push(5.0)];
      Since(ops) == [5.0] && After(ops).newS == 2.0
  {
    var ops := [Push(1.0), Push(3.0), Clear, Push(5.0)];
    assert ops[..3] == [Push(1.0), Push(3.0), Clear] && ops[..3][..2] == [Push(1.0), Push(3.0)];
    assert ops[..3][..2][..1] == [Push(1.0)] && ops[..3][..2][..1][..0] == [];
    assert After([Push(1.0)]) == Stat(1, 1.0, 1.0, 0.0, 0.0);
    assert After([Push(1.0), Push(3.0)]) == Stat(2, 2.0, 2.0, 2.0, 2.0);
    assert After(ops[..3]) == Stat(0, 2.0, 2.0, 2.0, 2.0);
    assert Since(ops[..3]) == [];
  }

  // ---------------------------------------------------------------- the class

  lemma AfterOneMore(ops: seq<Op>, op: Op)
    ensures After(ops + [op]) == if op.Push? then After(ops).Push(op.x) else After(ops).Clear()
  {
    assert (ops + [op])[..|ops|] == ops;
  }

  class RunningStat {
    var m_n: nat
    var m_oldM: real
    var m_newM: real
    var m_oldS: real
    var m_newS: real
    ghost var history: seq<Op>

    ghost predicate Valid()
      reads this
    {
      View() == After(history)
    }

    ghost function View(): (s: Stat)
      reads this
    {
      Stat(m_n, m_oldM, m_newM, m_oldS, m_newS)
    }

    constructor ()
      ensures Valid() && history == []
    {
      m_n, m_oldM, m_newM, m_oldS, m_newS := 0, 0.0, 0.0, 0.0, 0.0;
      history := [];
    }

    method Clear()
      requires Valid()
      modifies this
      ensures Valid() && history == old(history) + [Op.Clear]
    {
      hide After;
      AfterOneMore(history, Op.Clear);
      m_n := 0;
      history := history + [Op.Clear];
    }

    method Push(x: real)
      requires Valid()
      modifies this
      ensures Valid() && history == old(history) + [Op.Push(x)]
    {
      hide Times, After;
      AfterOneMore(history, Op.Push(x));
      m_n := m_n + 1;
      if m_n == 1 {
        m_oldM, m_newM := x, x;
        m_oldS := 0.0;
      } else {
        m_newM := m_oldM + (x - m_oldM) / (m_n as real);
        m_newS := m_oldS + Times(x - m_oldM, x - m_newM);
        m_oldM := m_newM;
        m_oldS := m_newS;
      }
      history := history + [Op.Push(x)];
    }

    method NumDataValues() returns (n: nat)
      requires Valid()
      ensures n == |Since(history)|
    {
      StatisticsAreExact(history);
      n := m_n;
    }

    method Mean() returns (mean: real)
      requires Valid()
      ensures mean == if Since(history) == [] then 0.0 else MeanOf(Since(history))
    {
      StatisticsAreExact(history);
      mean := if m_n > 0 then m_newM else 0.0;
    }

    method Variance() returns (variance: real)
      requires Valid()
      ensures
        var xs := Since(history);
        variance == if |xs| <= 1 then 0.0 else Deviation(xs, MeanOf(xs)) / ((|xs| - 1) as real)
    {
      StatisticsAreExact(history);
      variance := if m_n > 1 then m_newS / ((m_n - 1) as real) else 0.0;
    }
  }
}
