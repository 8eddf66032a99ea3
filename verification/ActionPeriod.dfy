/**
 Periodic triggering (app/timing.cpp): which polls of should_act return true. The period
 and phase are the whole milliseconds the source computes from its seconds, and a poll is
 the time its clock shows; the clock need not be monotone.
 */
module ActionPeriod {

  function Window(timeMs: nat, phaseMs: nat, periodMs: nat): (idx: nat)
    requires periodMs > 0
  {
    (timeMs + phaseMs) / periodMs
  }

  /** The m-th boundary, at which a window begins. */
  ghost function Boundary(m: nat, periodMs: nat): nat {
    m * periodMs
  }

  /** A boundary, shifted by the phase, lies after `earlier` and not after `later`. */
  ghost predicate BoundaryBetween(earlier: nat, later: nat, phaseMs: nat, periodMs: nat) {
    exists m :: earlier + phaseMs < Boundary(m, periodMs) <= later + phaseMs
  }

  lemma WindowContains(timeMs: nat, phaseMs: nat, periodMs: nat)
    requires periodMs > 0
    ensures
      var idx := Window(timeMs, phaseMs, periodMs);
      Boundary(idx, periodMs) <= timeMs + phaseMs < Boundary(idx + 1, periodMs)
  {
    var t := timeMs + phaseMs;
    assert t == periodMs * (t / periodMs) + t % periodMs;
  }

  lemma BoundariesAreOrdered(m: nat, n: nat, periodMs: nat)
    requires m <= n
    ensures Boundary(m, periodMs) <= Boundary(n, periodMs)
  {
    assert n * periodMs == m * periodMs + (n - m) * periodMs;
  }

  /** A window is later than another exactly if a boundary lies between the two times. */
  lemma WindowIsLaterIff(earlier: nat, later: nat, phaseMs: nat, periodMs: nat)
    requires periodMs > 0
    ensures Window(earlier, phaseMs, periodMs) < Window(later, phaseMs, periodMs) <==>
            BoundaryBetween(earlier, later, phaseMs, periodMs)
  {
    hide Window, Boundary;
    var a, b := Window(earlier, phaseMs, periodMs), Window(later, phaseMs, periodMs);
    WindowContains(earlier, phaseMs, periodMs);
    WindowContains(later, phaseMs, periodMs);
    if a < b {
      BoundariesAreOrdered(a + 1, b, periodMs);
      assert earlier + phaseMs < Boundary(b, periodMs) <= later + phaseMs;
    } else {
      forall m
        ensures !(earlier + phaseMs < Boundary(m, periodMs) <= later + phaseMs)
      {
        if m <= a {
          BoundariesAreOrdered(m, a, periodMs);
        } else {
          BoundariesAreOrdered(b + 1, m, periodMs);
        }
      }
    }
  }

  /** The stored trigger time after some polls, starting from a given one. */
  function LastTriggered(start: nat, polls: seq<nat>, phaseMs: nat, periodMs: nat): nat
    requires periodMs > 0
  {
    if polls == [] then start
    else
      var last, now := LastTriggered(start, polls[..|polls| - 1], phaseMs, periodMs), polls[|polls| - 1];
      if Window(now, phaseMs, periodMs) > Window(last, phaseMs, periodMs) then now else last
  }

  predicate Acts(start: nat, polls: seq<nat>, i: nat, phaseMs: nat, periodMs: nat)
    requires i < |polls| && periodMs > 0
  {
    Window(polls[i], phaseMs, periodMs) > Window(LastTriggered(start, polls[..i], phaseMs, periodMs), phaseMs, periodMs)
  }

  /** The stored time lies in the latest window seen. */
  lemma {:induction false} LastIsInLatestWindow(start: nat, polls: seq<nat>, phaseMs: nat, periodMs: nat)
    requires periodMs > 0
    ensures
      var last := LastTriggered(start, polls, phaseMs, periodMs);
      && (last == start || last in polls)
      && Window(start, phaseMs, periodMs) <= Window(last, phaseMs, periodMs)
      && forall t :: t in polls ==> Window(t, phaseMs, periodMs) <= Window(last, phaseMs, periodMs)
  {
    hide Window;
    if polls != [] {
      var n := |polls| - 1;
      LastIsInLatestWindow(start, polls[..n], phaseMs, periodMs);
      assert polls == polls[..n] + [polls[n]];
    }
  }

  /** The true polls are exactly those that a boundary separates from every poll before them
      and from the stored time. */
  lemma ActsOnFirstPollOfEachNewWindow(start: nat, polls: seq<nat>, i: nat, phaseMs: nat, periodMs: nat)
    requires i < |polls| && periodMs > 0
    ensures Acts(start, polls, i, phaseMs, periodMs) <==>
            && BoundaryBetween(start, polls[i], phaseMs, periodMs)
            && forall j :: 0 <= j < i ==> BoundaryBetween(polls[j], polls[i], phaseMs, periodMs)
  {
    hide Window, BoundaryBetween;
    LastIsInLatestWindow(start, polls[..i], phaseMs, periodMs);
    WindowIsLaterIff(start, polls[i], phaseMs, periodMs);
    forall j | 0 <= j < i
      ensures BoundaryBetween(polls[j], polls[i], phaseMs, periodMs) <==>
              Window(polls[j], phaseMs, periodMs) < Window(polls[i], phaseMs, periodMs)
    {
      WindowIsLaterIff(polls[j], polls[i], phaseMs, periodMs);
    }
    forall j | 0 <= j < i
      ensures polls[j] in polls[..i]
    {
      assert polls[..i][j] == polls[j];
    }
    var last := LastTriggered(start, polls[..i], phaseMs, periodMs);
    if last != start {
      var j :| 0 <= j < i && polls[..i][j] == last;
    }
  }

  class ActionPeriod {
    const periodMs: nat
    var phaseMs: nat
    var lastTriggeredMs: nat
    /** The polls since the phase was last set, and the stored time then. */
    ghost var polls: seq<nat>
    ghost var start: nat

    ghost predicate Valid()
      reads this
    {
      periodMs > 0 && lastTriggeredMs == LastTriggered(start, polls, phaseMs, periodMs)
    }

    constructor (periodMs: nat)
      requires periodMs > 0
      ensures Valid() && polls == [] && start == 0 && phaseMs == 0 && this.periodMs == periodMs
    {
      this.periodMs := periodMs;
      phaseMs, lastTriggeredMs := 0, 0;
      polls, start := [], 0;
    }

    method ShouldAct(currentTimeMs: nat) returns (act: bool)
      requires Valid()
      modifies this
      ensures Valid() && polls == old(polls) + [currentTimeMs] && start == old(start) && phaseMs == old(phaseMs)
      ensures act <==>
              && BoundaryBetween(start, currentTimeMs, phaseMs, periodMs)
              && forall j :: 0 <= j < |old(polls)| ==>
                   BoundaryBetween(old(polls)[j], currentTimeMs, phaseMs, periodMs)
    {
      var currentIdx := (currentTimeMs + phaseMs) / periodMs;
      var lastIdx := (lastTriggeredMs + phaseMs) / periodMs;
      polls := polls + [currentTimeMs];
      assert polls[..|polls| - 1] == old(polls);
      ActsOnFirstPollOfEachNewWindow(start, polls, |old(polls)|, phaseMs, periodMs);
      if currentIdx > lastIdx {
        lastTriggeredMs := currentTimeMs;
        return true;
      }
      return false;
    }

    method SetPhase(phaseMs: nat)
      requires Valid()
      modifies this
      ensures Valid() && this.phaseMs == phaseMs && polls == [] && start == old(lastTriggeredMs)
    {
      this.phaseMs := phaseMs;
      polls, start := [], lastTriggeredMs;
    }
  }
}
