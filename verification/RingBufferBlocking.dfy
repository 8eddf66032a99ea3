/**
 Blocking reads of concurrency/ring_buffer.h: what they may return, when they wait, and
 that they return once there is something to return for.
 */
module RingBufferBlocking {
  import opened Options
  import opened RingBufferProtocol
  import opened RingBufferTheorems
  import opened RingBuffer

  // ---------------------------------------------------------------- what a call may return

  /** The items that read calls returned. */
  function Returned<T>(exits: seq<Exit<T>>): seq<T> {
    if exits == [] then []
    else
      Returned(exits[..|exits| - 1])
      + if exits[|exits| - 1].Delivered? then [exits[|exits| - 1].item] else []
  }

  lemma ReturnedOneMore<T>(exits: seq<Exit<T>>, item: T)
    ensures Returned(exits + [Delivered(item)]) == Returned(exits) + [item]
  {
    assert (exits + [Delivered(item)])[..|exits|] == exits;
  }

  lemma {:induction false} SkippedAreNotReturned<T>(exits: seq<Exit<T>>, items: seq<T>)
    ensures Returned(exits + Drops(items)) == Returned(exits)
  {
    if items == [] {
      assert exits + Drops(items) == exits;
    } else {
      var n := |items| - 1;
      SkippedAreNotReturned(exits, items[..n]);
      assert Drops(items) == Drops(items[..n]) + [Dropped(items[n])];
      assert (exits + Drops(items))[..|exits| + n] == exits + Drops(items[..n]);
    }
  }

  /** A run that goes on with no further call by the consumer. */
  ghost predicate NoConsumerCall<T>(moves: seq<Move<T>>) {
    forall m :: m in moves ==> !m.ReadCall? && !m.ClearCall?
  }

  /** Past the wait of a blocking call there is a reason to be. */
  predicate HasReason<T>(s: State<T>) {
    s.cpc.CReadStopTest? || s.cpc.CReadEmptyTest? || s.cpc.CLatestEmptyTest? ==> s.sh.stopped || !s.sh.Empty()
  }

  /** A blocking call returns one item, or none because a stop has been called. */
  ghost predicate BlockingCall<T>(before: seq<T>, s: State<T>) {
    if s.cpc.CIdle? then Returned(s.exits) == before + [s.hand] || (Returned(s.exits) == before && s.sh.stopped)
    else !s.cpc.CClearStore? && HasReason(s) && Returned(s.exits) == before
  }

  lemma TestStepInBlockingCall<T>(before: seq<T>, s: State<T>)
    requires Inv(s) && Testing(s.cpc) && BlockingCall(before, s)
    ensures BlockingCall(before, TestStep(s))
  {
    hide Returned;
  }

  lemma ConsumerStepInBlockingCall<T>(before: seq<T>, s: State<T>)
    requires Inv(s) && !s.cpc.CIdle? && BlockingCall(before, s)
    ensures BlockingCall(before, ConsumerStep(s))
  {
    hide Returned, SkipTo, Drops;
    if Testing(s.cpc) {
      TestStepInBlockingCall(before, s);
    } else if s.cpc.CChecked? {
      ReturnedOneMore(s.exits, s.hand);
    } else if s.cpc.CLatestStore? {
      SkipReturnsNothing(s, s.cpc.slot);
    }
  }

  lemma SkipReturnsNothing<T>(s: State<T>, slot: nat)
    requires WellFormed(s) && slot < |s.sh.data|
    ensures Returned(SkipTo(s, slot).exits) == Returned(s.exits)
  {
    var d := Distance(s.sh, slot);
    SkippedAreNotReturned(s.exits, if d <= s.sh.Filled() then s.sh.Contents()[..d] else s.sh.Contents());
  }

  lemma OtherStepInBlockingCall<T>(before: seq<T>, s: State<T>, move: Move<T>)
    requires Inv(s) && Enabled(s, move) && BlockingCall(before, s)
    requires !move.Consumer? && !move.ReadCall? && !move.ClearCall?
    ensures BlockingCall(before, Step(s, move))
  {
    hide Returned, Inv, Shared.Contents, Shared.Full;
    OtherStepKeepsReason(s, move);
  }

  /** An item once there stays until the consumer takes it, and a stop is never taken back. */
  lemma OtherStepKeepsReason<T>(s: State<T>, move: Move<T>)
    requires Inv(s) && Enabled(s, move)
    requires !move.Consumer? && !move.ReadCall? && !move.ClearCall?
    ensures
      var t := Step(s, move);
      && t.exits == s.exits && t.hand == s.hand && (s.sh.stopped ==> t.sh.stopped)
      && (t.cpc == s.cpc || (s.cpc.CParked? && t.cpc.CWaiting?))
      && (!s.sh.Empty() ==> !t.sh.Empty())
  {
    hide Shared.Contents, Ledger, ConsumerInv, WakeInv;
  }

  lemma {:induction false} BlockingCallRuns<T>(before: seq<T>, s: State<T>, moves: seq<Move<T>>)
    requires Inv(s) && IsRun(s, moves) && NoConsumerCall(moves) && BlockingCall(before, s)
    ensures BlockingCall(before, Exec(s, moves))
    decreases |moves|
  {
    hide BlockingCall, Inv;
    if moves != [] {
      assert moves[0] in moves && forall m :: m in moves[1..] ==> m in moves;
      StepKeepsInv(s, moves[0]);
      if moves[0].Consumer? {
        ConsumerStepInBlockingCall(before, s);
      } else {
        OtherStepInBlockingCall(before, s, moves[0]);
      }
      BlockingCallRuns(before, Step(s, moves[0]), moves[1..]);
    }
  }

  /** From the moment it is made and whatever the other threads do, a blocking read or
      read_latest is either still under way with nothing returned, or it has returned one
      item, the one in the caller's hand, or a stop has been called. */
  lemma BlockingReadReturnsItemOrStop<T>(s0: State<T>, before: seq<Move<T>>, kind: ReadKind, moves: seq<Move<T>>)
    requires Init(s0) && IsRun(s0, before) && Exec(s0, before).cpc.CIdle?
    requires
      var s := Exec(s0, before);
      WellFormed(s) && IsRun(Step(s, ReadCall(kind, true)), moves) && NoConsumerCall(moves)
    ensures
      var s := Exec(s0, before);
      var t := Exec(Step(s, ReadCall(kind, true)), moves);
      if t.cpc.CIdle? then
        || Returned(t.exits) == Returned(s.exits) + [t.hand]
        || (Returned(t.exits) == Returned(s.exits) && t.sh.stopped)
      else Returned(t.exits) == Returned(s.exits)
  {
    ReachableInv(s0, before);
    var s := Exec(s0, before);
    StepKeepsInv(s, ReadCall(kind, true));
    BlockingCallRuns(Returned(s.exits), Step(s, ReadCall(kind, true)), moves);
  }

  predicate Waits(cpc: ConsumerPc) {
    cpc.CStopTest? || cpc.CEmptyTest? || cpc.CWaiting? || cpc.CParked? || cpc.CReload?
  }

  /** A non-blocking read never comes near the wait. */
  lemma {:induction false} PlainReadNeverWaits<T>(s: State<T>, moves: seq<Move<T>>)
    requires IsRun(s, moves) && NoConsumerCall(moves)
    requires !Waits(s.cpc) && !s.cpc.CAssertStopped? && !s.cpc.CAssertNonempty?
    ensures !Waits(Exec(s, moves).cpc)
    decreases |moves|
  {
    if moves != [] {
      assert moves[0] in moves && forall m :: m in moves[1..] ==> m in moves;
      PlainReadNeverWaits(Step(s, moves[0]), moves[1..]);
    }
  }

  /** The start of a non-blocking call is such a place. */
  lemma PlainCallStartsPlain<T>(s: State<T>, kind: ReadKind)
    requires WellFormed(s) && s.cpc.CIdle?
    ensures
      var t := Step(s, ReadCall(kind, false));
      !Waits(t.cpc) && !t.cpc.CAssertStopped? && !t.cpc.CAssertNonempty?
  {
  }

  // ---------------------------------------------------------------- waiting

  /** Inside the wait, with an empty queue and no stop. */
  ghost predicate NothingToReturn<T>(s: State<T>) {
    WellFormed(s) && Waits(s.cpc) && !s.sh.stopped && s.sh.Empty()
  }

  lemma {:induction false} ConsumerAloneWaits<T>(s: State<T>, moves: seq<Move<T>>)
    requires NothingToReturn(s) && IsRun(s, moves) && forall m :: m in moves ==> m.Consumer?
    ensures NothingToReturn(Exec(s, moves)) && Exec(s, moves).exits == s.exits
    decreases |moves|
  {
    if moves != [] {
      assert moves[0] in moves && forall m :: m in moves[1..] ==> m in moves;
      ConsumerAloneWaits(Step(s, moves[0]), moves[1..]);
    }
  }

  /** On an empty queue that is not stopped, a blocking call that only its own thread moves
      never returns, however often it wakes spuriously. */
  lemma BlockingReadWaits<T>(s: State<T>, kind: ReadKind, moves: seq<Move<T>>)
    requires WellFormed(s) && s.cpc.CIdle? && s.sh.Contents() == [] && !s.sh.stopped
    requires IsRun(Step(s, ReadCall(kind, true)), moves) && forall m :: m in moves ==> m.Consumer?
    ensures
      var t := Exec(Step(s, ReadCall(kind, true)), moves);
      !t.cpc.CIdle? && t.exits == s.exits
  {
    FullAndEmpty(s.sh);
    ConsumerAloneWaits(Step(s, ReadCall(kind, true)), moves);
  }

  // ---------------------------------------------------------------- the calls run alone

  /** stop, run alone: the flag, the counter, the notification. */
  lemma SoloStop<T>(s: State<T>)
    requires WellFormed(s) && s.spc.SIdle?
    ensures IsRun(s, Repeat(Stopper, 3))
    ensures
      var t := Exec(s, Repeat(Stopper, 3));
      && t.sh == Bumped(s.sh.(stopped := true)) && t.sh.counter == s.sh.counter + 1 && t.spc.SIdle?
      && t.cpc == Notified(s.cpc, t.sh.counter) && t.puts == s.puts && t.exits == s.exits
  {
    hide IsRun, Exec;
    var m: Move<T> := Stopper;
    var s1 := Step(s, m);
    var s2 := Step(s1, m);
    var s3 := Step(s2, m);
    EmptyRun(s3);
    RunCons(s2, m, Repeat(m, 0));
    RunCons(s1, m, Repeat(m, 1));
    RunCons(s, m, Repeat(m, 2));
  }

  lemma RepeatOneMore<T>(s: State<T>, n: nat)
    requires WellFormed(s) && Enabled(s, Consumer(false)) && IsRun(Step(s, Consumer(false)), Repeat(Consumer(false), n))
    ensures IsRun(s, Repeat(Consumer(false), n + 1))
    ensures Exec(s, Repeat(Consumer(false), n + 1)) == Exec(Step(s, Consumer(false)), Repeat(Consumer(false), n))
  {
    RunCons(s, Consumer(false), Repeat(Consumer(false), n));
  }

  /** How many steps of its own a blocking call takes when nothing disturbs it. */
  ghost function StepsAlone<T>(s: State<T>): nat
    requires s.sh.Valid()
  {
    if s.sh.stopped then (if s.kind.Latest? && !s.sh.Empty() then 4 else 3)
    else if s.sh.Empty() then 3
    else if s.kind.Oldest? then 9
    else 11
  }

  lemma StoppedStep<T>(s: State<T>)
    requires WellFormed(s) && s.cpc.CStopTest? && s.sh.stopped
    ensures IsRun(s, Repeat(Consumer(false), StepsAlone(s)))
    ensures Exec(s, Repeat(Consumer(false), StepsAlone(s))) == s.(cpc := CIdle)
  {
    hide IsRun, Exec, Repeat;
    var m: Move<T> := Consumer(false);
    var s1 := Step(s, m);
    var s2 := Step(s1, m);
    var s3 := Step(s2, m);
    if s.kind.Latest? && !s.sh.Empty() {
      RepeatNone(Step(s3, m));
      RepeatOneMore(s3, 0);
      RepeatOneMore(s2, 1);
      RepeatOneMore(s1, 2);
      RepeatOneMore(s, 3);
    } else {
      RepeatNone(s3);
      RepeatOneMore(s2, 0);
      RepeatOneMore(s1, 1);
      RepeatOneMore(s, 2);
    }
  }

  lemma RepeatNone<T>(s: State<T>)
    requires WellFormed(s)
    ensures IsRun(s, Repeat(Consumer(false), 0)) && Exec(s, Repeat(Consumer(false), 0)) == s
  {
  }

  lemma EmptyParks<T>(s: State<T>)
    requires WellFormed(s) && s.cpc == CStopTest(s.sh.counter) && !s.sh.stopped && s.sh.Empty()
    ensures IsRun(s, Repeat(Consumer(false), 3))
    ensures Exec(s, Repeat(Consumer(false), 3)) == s.(cpc := CParked(s.sh.counter))
  {
    hide IsRun, Exec, Repeat;
    var m: Move<T> := Consumer(false);
    var s1 := Step(s, m);
    var s2 := Step(s1, m);
    RepeatNone(Step(s2, m));
    RepeatOneMore(s2, 0);
    RepeatOneMore(s1, 1);
    RepeatOneMore(s, 2);
  }

  /** The tests of a call that finds an item: four in the wait, two of its own. */
  lemma TestsPass<T>(s: State<T>, n: nat)
    requires WellFormed(s) && s.cpc.CStopTest? && !s.sh.stopped && !s.sh.Empty()
    requires
      var past := s.(cpc := if s.kind.Oldest? then CHasItem(s.sh.head) else CLatestLoad);
      IsRun(past, Repeat(Consumer(false), n))
    ensures
      var past := s.(cpc := if s.kind.Oldest? then CHasItem(s.sh.head) else CLatestLoad);
      && IsRun(s, Repeat(Consumer(false), n + 6))
      && Exec(s, Repeat(Consumer(false), n + 6)) == Exec(past, Repeat(Consumer(false), n))
  {
    hide IsRun, Exec, Repeat;
    var m: Move<T> := Consumer(false);
    var s1 := Step(s, m);
    var s2 := Step(s1, m);
    var s3 := Step(s2, m);
    var s4 := Step(s3, m);
    var s5 := Step(s4, m);
    RepeatOneMore(s5, n);
    RepeatOneMore(s4, n + 1);
    RepeatOneMore(s3, n + 2);
    RepeatOneMore(s2, n + 3);
    RepeatOneMore(s1, n + 4);
    RepeatOneMore(s, n + 5);
  }

  lemma NonemptyDelivers<T>(s: State<T>)
    requires WellFormed(s) && s.cpc.CStopTest? && !s.sh.stopped && !s.sh.Empty()
    ensures IsRun(s, Repeat(Consumer(false), StepsAlone(s)))
    ensures
      var t, items := Exec(s, Repeat(Consumer(false), StepsAlone(s))), s.sh.Contents();
      && WellFormed(t) && t.cpc.CIdle?
      && if s.kind.Oldest? then items == [t.hand] + t.sh.Contents()
         else items != [] && t.hand == items[|items| - 1] && t.sh.Contents() == []
  {
    hide IsRun, Exec, Repeat, Shared.Contents;
    FullAndEmpty(s.sh);
    if s.kind.Oldest? {
      SoloTake(s.(cpc := CHasItem(s.sh.head)));
      TestsPass(s, 3);
      ContentsIgnoreCounter(s.sh, s.sh);
    } else {
      SoloReadLatestFrom(s.(cpc := CLatestLoad));
      TestsPass(s, 5);
    }
  }

  /** A blocking call run alone from an idle consumer: on a stopped queue it returns with
      nothing and touches nothing, on a nonempty one it returns the oldest item, or the newest
      for read_latest, and on an empty one it parks on the counter. */
  lemma SoloBlockingRead<T>(s: State<T>, kind: ReadKind)
    requires WellFormed(s) && s.cpc.CIdle?
    ensures
      var s1 := Step(s, ReadCall(kind, true));
      var moves := Repeat<T>(Consumer(false), StepsAlone(s1));
      && IsRun(s1, moves)
      && var t, items := Exec(s1, moves), s.sh.Contents();
         && WellFormed(t)
         && if s.sh.stopped then t.cpc.CIdle? && t.sh == s.sh && t.exits == s.exits
            else if items == [] then t.cpc == CParked(s.sh.counter) && t.sh == s.sh && t.exits == s.exits
            else
              && t.cpc.CIdle?
              && if kind.Oldest? then items == [t.hand] + t.sh.Contents()
                 else t.hand == items[|items| - 1] && t.sh.Contents() == []
  {
    hide IsRun, Exec, Repeat, Shared.Contents;
    FullAndEmpty(s.sh);
    var s1 := Step(s, ReadCall(kind, true));
    if s.sh.stopped {
      StoppedStep(s1);
    } else if s.sh.Empty() {
      EmptyParks(s1);
    } else {
      NonemptyDelivers(s1);
    }
  }

  // ---------------------------------------------------------------- waking

  /** A consumer that was woken, moving alone from inside wait. */
  lemma WokenConsumerReturns<T>(s: State<T>)
    requires WellFormed(s) && s.cpc.CWaiting? && s.cpc.k != s.sh.counter && (s.sh.stopped || !s.sh.Empty())
    ensures IsRun(s, Repeat(Consumer(false), StepsAlone(s) + 2))
    ensures
      var t, items := Exec(s, Repeat(Consumer(false), StepsAlone(s) + 2)), s.sh.Contents();
      && WellFormed(t) && t.cpc.CIdle?
      && if s.sh.stopped then t.sh == s.sh && t.exits == s.exits
         else if s.kind.Oldest? then items == [t.hand] + t.sh.Contents()
         else items != [] && t.hand == items[|items| - 1] && t.sh.Contents() == []
  {
    hide IsRun, Exec, Repeat, Shared.Contents;
    var m: Move<T> := Consumer(false);
    var s1 := Step(s, m);
    var s2 := Step(s1, m);
    if s.sh.stopped {
      StoppedStep(s2);
    } else {
      NonemptyDelivers(s2);
    }
    RepeatOneMore(s1, StepsAlone(s));
    RepeatOneMore(s, StepsAlone(s) + 1);
  }

  /** A parked consumer with something to return for does return: once the thread that made
      it so has finished its call, the consumer's own steps end the read, with an item or, on
      a stop, without. */
  lemma ParkedConsumerReturns<T>(s0: State<T>, moves: seq<Move<T>>)
    requires Init(s0) && IsRun(s0, moves) && MustWake(Exec(s0, moves))
    ensures
      var s := Exec(s0, moves);
      && IsRun(s, Rescue(s))
      && var t := Exec(s, Rescue(s));
         && WellFormed(t)
         && var rest := Repeat<T>(Consumer(false), StepsAlone(t) + 2);
            && IsRun(t, rest)
            && var u := Exec(t, rest);
               && WellFormed(u) && u.cpc.CIdle?
               && if t.sh.stopped then u.exits == t.exits
                  else if t.kind.Oldest? then t.sh.Contents() == [u.hand] + u.sh.Contents()
                  else t.sh.Contents() != [] && u.hand == t.sh.Contents()[|t.sh.Contents()| - 1]
  {
    hide Repeat, Shared.Contents;
    FinishingTheCallWakes(s0, moves);
    ReachableInv(s0, moves);
    var s := Exec(s0, moves);
    RescueKeepsReason(s);
    WokenConsumerReturns(Exec(s, Rescue(s)));
  }

  lemma RescueKeepsReason<T>(s: State<T>)
    requires Inv(s) && MustWake(s) && IsRun(s, Rescue(s))
    requires s.ppc.PPublished? || s.spc.SFlagged? || s.ppc.PNotifying? || s.spc.SNotifying?
    ensures
      var t := Exec(s, Rescue(s));
      && WellFormed(t) && t.sh.stopped == s.sh.stopped && t.sh.Empty() == s.sh.Empty()
  {
    hide Inv;
    var m := Rescue(s)[0];
    StepKeepsInv(s, m);
    if s.ppc.PPublished? || s.spc.SFlagged? {
      RunOfTwo(s, m, m);
    } else {
      RunOfOne(s, m);
    }
  }
}
