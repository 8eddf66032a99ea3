/**
 Blocking reads of concurrency/single_item.h: what they may return, when they wait, and
 that they return once there is something to return for.
 */
module SingleItemBlocking {
  import opened Options
  import opened SingleItemProtocol
  import opened SingleItemTheorems
  import opened SingleItem

  // ---------------------------------------------------------------- what a call may return

  /** The results of the read calls, in order. */
  function Results<T>(log: seq<Event<T>>): seq<Event<T>> {
    if log == [] then []
    else
      Results(log[..|log| - 1])
      + if log[|log| - 1].Return? || log[|log| - 1].ReturnStopped? then [log[|log| - 1]] else []
  }

  lemma ResultsOfMore<T>(log: seq<Event<T>>, e: Event<T>)
    ensures Results(log + [e]) == Results(log) + if e.Return? || e.ReturnStopped? then [e] else []
  {
    assert (log + [e])[..|log|] == log;
  }

  /** A run that goes on with no further read call. */
  ghost predicate NoReadCall<T>(moves: seq<Move<T>>) {
    forall m :: m in moves ==> !m.ReadCall?
  }

  /** Where a blocking call may be, and where a non-blocking one. */
  predicate OfBlocking(rpc: ReaderPc) {
    match rpc
    case RBegin(mode) => mode.Some?
    case RLoaded(mode, _) => mode.Some?
    case RSwapped(mode) => mode.Some?
    case RHasSlot(mode, _) => mode.Some?
    case _ => true
  }

  predicate OfPlain(rpc: ReaderPc) {
    match rpc
    case RBegin(mode) => mode.None?
    case RLoaded(mode, _) => mode.None?
    case RSwapped(mode) => mode.None?
    case RHasSlot(mode, _) => mode.None?
    case RFresh => true
    case RReading(_) => true
    case RCopied(_) => true
    case _ => false
  }

  ghost predicate OneMore<T>(before: seq<T>, after: seq<T>) {
    |after| == |before| + 1 && before <= after
  }

  /** A blocking call's one result is an item, or a stop that has been called. */
  ghost predicate BlockingCall<T>(before: seq<Event<T>>, s: State<T>) {
    if s.rpc.RIdle? then
      && OneMore(before, Results(s.log))
      && var r := Results(s.log)[|before|];
         (r.Return? && r.result.Some?) || (r.ReturnStopped? && s.sh.stop)
    else OfBlocking(s.rpc) && Results(s.log) == before
  }

  /** A non-blocking call's one result is an item, or none; it never waits. */
  ghost predicate PlainCall<T>(before: seq<Event<T>>, s: State<T>) {
    if s.rpc.RIdle? then OneMore(before, Results(s.log)) && Results(s.log)[|before|].Return?
    else OfPlain(s.rpc) && Results(s.log) == before
  }

  lemma ReaderStepInBlockingCall<T>(before: seq<Event<T>>, s: State<T>, spurious: bool)
    requires WellFormed(s) && !s.rpc.RIdle? && BlockingCall(before, s)
    ensures BlockingCall(before, ReaderStep(s, spurious))
  {
    hide Results;
    var t := ReaderStep(s, spurious);
    if t.log != s.log {
      var e := t.log[|s.log|];
      assert t.log == s.log + [e];
      ResultsOfMore(s.log, e);
      if t.rpc.RIdle? {
        assert Results(t.log) == before + [e];
      }
    }
  }

  lemma OtherStepInBlockingCall<T>(before: seq<Event<T>>, s: State<T>, move: Move<T>)
    requires WellFormed(s) && Enabled(s, move) && !move.Reader? && !move.ReadCall? && BlockingCall(before, s)
    ensures BlockingCall(before, Step(s, move))
  {
    hide Results;
    var t := Step(s, move);
    if t.log != s.log {
      assert t.log == s.log + [Commit(s.writeItem)];
      ResultsOfMore(s.log, Commit(s.writeItem));
    }
  }

  lemma {:induction false} BlockingCallRuns<T>(before: seq<Event<T>>, s: State<T>, moves: seq<Move<T>>)
    requires IsRun(s, moves) && NoReadCall(moves) && BlockingCall(before, s)
    ensures BlockingCall(before, Exec(s, moves))
    decreases |moves|
  {
    hide BlockingCall;
    if moves != [] {
      assert moves[0] in moves && forall m :: m in moves[1..] ==> m in moves;
      if moves[0].Reader? {
        ReaderStepInBlockingCall(before, s, moves[0].spurious);
      } else {
        OtherStepInBlockingCall(before, s, moves[0]);
      }
      BlockingCallRuns(before, Step(s, moves[0]), moves[1..]);
    }
  }

  /** From the moment it is made and whatever the other threads do, a blocking read is
      either still under way with no result, or has had exactly one: an item, or a report
      of a stop that has been called. It never returns for want of an item. */
  lemma BlockingReadReturnsItemOrStop<T>(s: State<T>, swap: bool, moves: seq<Move<T>>)
    requires WellFormed(s) && s.rpc.RIdle? && IsRun(Step(s, ReadCall(swap, true)), moves) && NoReadCall(moves)
    ensures
      var t := Exec(Step(s, ReadCall(swap, true)), moves);
      if t.rpc.RIdle? then
        && OneMore(Results(s.log), Results(t.log))
        && var r := Results(t.log)[|Results(s.log)|];
           (r.Return? && r.result.Some?) || (r.ReturnStopped? && t.sh.stop)
      else Results(t.log) == Results(s.log)
  {
    BlockingCallRuns(Results(s.log), Step(s, ReadCall(swap, true)), moves);
  }

  lemma ReaderStepInPlainCall<T>(before: seq<Event<T>>, s: State<T>, spurious: bool)
    requires WellFormed(s) && !s.rpc.RIdle? && PlainCall(before, s)
    ensures PlainCall(before, ReaderStep(s, spurious))
  {
    hide Results;
    var t := ReaderStep(s, spurious);
    if t.log != s.log {
      var e := t.log[|s.log|];
      assert t.log == s.log + [e];
      ResultsOfMore(s.log, e);
      if t.rpc.RIdle? {
        assert Results(t.log) == before + [e];
      }
    }
  }

  lemma OtherStepInPlainCall<T>(before: seq<Event<T>>, s: State<T>, move: Move<T>)
    requires WellFormed(s) && Enabled(s, move) && !move.Reader? && !move.ReadCall? && PlainCall(before, s)
    ensures PlainCall(before, Step(s, move))
  {
    hide Results;
    var t := Step(s, move);
    if t.log != s.log {
      assert t.log == s.log + [Commit(s.writeItem)];
      ResultsOfMore(s.log, Commit(s.writeItem));
    }
  }

  lemma {:induction false} PlainCallRuns<T>(before: seq<Event<T>>, s: State<T>, moves: seq<Move<T>>)
    requires IsRun(s, moves) && NoReadCall(moves) && PlainCall(before, s)
    ensures PlainCall(before, Exec(s, moves))
    decreases |moves|
  {
    hide PlainCall;
    if moves != [] {
      assert moves[0] in moves && forall m :: m in moves[1..] ==> m in moves;
      if moves[0].Reader? {
        ReaderStepInPlainCall(before, s, moves[0].spurious);
      } else {
        OtherStepInPlainCall(before, s, moves[0]);
      }
      PlainCallRuns(before, Step(s, moves[0]), moves[1..]);
    }
  }

  /** A non-blocking read never waits and never reports a stop: it has exactly one result,
      an item or none. */
  lemma PlainReadNeverWaits<T>(s: State<T>, swap: bool, moves: seq<Move<T>>)
    requires WellFormed(s) && s.rpc.RIdle? && IsRun(Step(s, ReadCall(swap, false)), moves) && NoReadCall(moves)
    ensures
      var t := Exec(Step(s, ReadCall(swap, false)), moves);
      && !t.rpc.RParked? && !t.rpc.RWaiting?
      && if t.rpc.RIdle? then
           OneMore(Results(s.log), Results(t.log)) && Results(t.log)[|Results(s.log)|].Return?
         else Results(t.log) == Results(s.log)
  {
    PlainCallRuns(Results(s.log), Step(s, ReadCall(swap, false)), moves);
  }

  /** A stop is reported in a run only once it has been called. */
  lemma {:induction false} StopReportsAreTrue<T>(s: State<T>, moves: seq<Move<T>>)
    requires IsRun(s, moves) && (ReturnStopped in s.log ==> s.sh.stop)
    ensures ReturnStopped in Exec(s, moves).log ==> Exec(s, moves).sh.stop
    decreases |moves|
  {
    if moves != [] {
      StopReportsAreTrue(Step(s, moves[0]), moves[1..]);
    }
  }

  // ---------------------------------------------------------------- the calls run alone

  ghost function FirstLook<T>(s: State<T>, swap: bool): State<T> {
    s.(rpc := RBegin(Some(s.sh.counter)), readSwap := swap)
  }

  /** stop, run alone: the flag, the counter, the notification. */
  lemma SoloStop<T>(s: State<T>)
    requires WellFormed(s) && s.spc.SIdle?
    ensures IsRun(s, Times(Stopper, 3))
    ensures
      var t := Exec(s, Times(Stopper, 3));
      && t.sh == s.sh.(stop := true).Bump() && t.spc.SIdle? && t.log == s.log
      && t.rpc == Notified(s.rpc, t.sh.counter)
  {
    var m: Move<T> := Stopper;
    var s1 := Step(s, m);
    var s2 := Step(s1, m);
    var s3 := Step(s2, m);
    assert IsRun(s3, []);
    RunCons(s2, m, Times(m, 0));
    RunCons(s1, m, Times(m, 1));
    RunCons(s, m, Times(m, 2));
  }

  /** From its test of stop_, the reader alone: a stop is reported at once. */
  lemma SoloStopped<T>(s: State<T>)
    requires WellFormed(s) && s.rpc.RStopCheck? && s.sh.stop
    ensures IsRun(s, Times(Reader(false), 1))
    ensures Exec(s, Times(Reader(false), 1)) == s.(rpc := RIdle, log := s.log + [ReturnStopped])
  {
    var m: Move<T> := Reader(false);
    assert IsRun(Step(s, m), []);
    RunCons(s, m, Times(m, 0));
  }

  /** An unread item is taken and returned. */
  lemma SoloDelivers<T>(s: State<T>)
    requires WellFormed(s) && s.rpc.RStopCheck? && !s.sh.stop && s.sh.haveUnread[s.sh.M()]
    ensures IsRun(s, [Reader(false)] + (Times(Reader(false), 3) + ([Reader(false)] + Times(Reader(false), 3))))
    ensures
      var t := Exec(s, [Reader(false)] + (Times(Reader(false), 3) + ([Reader(false)] + Times(Reader(false), 3))));
      && t.sh == AfterRead(s.sh, if s.readSwap then s.readHand else s.sh.slots[s.sh.M()])
      && t.rpc == RIdle && t.readHand == s.sh.slots[s.sh.M()]
      && t.log == s.log + [Take, Return(Some(s.sh.slots[s.sh.M()]))]
  {
    hide IsRun, Exec, Times;
    var m: Move<T> := Reader(false);
    FlipExchangesRoles(s.sh, false);
    var s1 := Step(s, m);
    var s2 := Looked(s1);
    var s3 := Step(s2, m);
    SoloCopy(s3);
    RunCons(s2, m, Times(m, 3));
    SoloTake(s1, [m] + Times(m, 3));
    RunCons(s, m, Times(m, 3) + ([m] + Times(m, 3)));
  }

  /** With nothing unread the reader parks. */
  lemma SoloParks<T>(s: State<T>)
    requires WellFormed(s) && s.rpc.RStopCheck? && s.rpc.k == s.sh.counter && !s.sh.stop && !s.sh.haveUnread[s.sh.M()]
    ensures IsRun(s, [Reader(false)] + (Times(Reader(false), 3) + Times(Reader(false), 2)))
    ensures
      var t := Exec(s, [Reader(false)] + (Times(Reader(false), 3) + Times(Reader(false), 2)));
      t == s.(sh := s.sh.Flip(false), rpc := RParked(s.sh.counter), log := s.log + [Take])
  {
    hide IsRun, Exec;
    var m: Move<T> := Reader(false);
    FlipExchangesRoles(s.sh, false);
    var s1 := Step(s, m);
    var s2 := Looked(s1);
    var s3 := Step(s2, m);
    var s4 := Step(s3, m);
    EmptyRun(s4);
    RunCons(s3, m, Times(m, 0));
    RunCons(s2, m, Times(m, 1));
    SoloTake(s1, Times(m, 2));
    RunCons(s, m, Times(m, 3) + Times(m, 2));
  }

  lemma EmptyRun<T>(s: State<T>)
    requires WellFormed(s)
    ensures IsRun(s, []) && Exec(s, []) == s
  {
  }

  /** The reader's own moves in a blocking call that nothing disturbs. */
  ghost function BlockingMoves<T>(s: State<T>): seq<Move<T>>
    requires s.sh.Valid()
  {
    var m: Move<T> := Reader(false);
    if s.sh.stop then Times(m, 1)
    else if s.sh.haveUnread[s.sh.M()] then [m] + (Times(m, 3) + ([m] + Times(m, 3)))
    else [m] + (Times(m, 3) + Times(m, 2))
  }

  /** A blocking read run alone from an idle reader: on a stopped object it reports that and
      touches nothing, on a full register it returns the item and empties it, and on an empty
      one it parks on the counter. */
  lemma SoloBlockingRead<T>(s: State<T>, swap: bool)
    requires WellFormed(s) && s.rpc.RIdle?
    ensures
      var moves := [ReadCall(swap, true)] + BlockingMoves(s);
      && IsRun(s, moves)
      && var t, item := Exec(s, moves), s.sh.slots[s.sh.M()];
         if s.sh.stop then
           t.sh == s.sh && t.rpc.RIdle? && t.readHand == s.readHand && t.log == s.log + [ReturnStopped]
         else if s.sh.haveUnread[s.sh.M()] then
           && t.sh == AfterRead(s.sh, if swap then s.readHand else item)
           && t.rpc.RIdle? && t.readHand == item && t.log == s.log + [Take, Return(Some(item))]
         else t.sh == s.sh.Flip(false) && t.rpc == RParked(s.sh.counter) && t.log == s.log + [Take]
  {
    hide IsRun, Exec, Times;
    var s1 := Step(s, ReadCall(swap, true));
    if s.sh.stop {
      SoloStopped(s1);
    } else if s.sh.haveUnread[s.sh.M()] {
      SoloDelivers(s1);
    } else {
      SoloParks(s1);
    }
    RunCons(s, ReadCall(swap, true), BlockingMoves(s));
  }

  // ---------------------------------------------------------------- waiting

  /** A blocking call with nothing to return for: no stop, and nothing unread that it could
      take. */
  ghost predicate NothingToReturn<T>(s: State<T>) {
    && WellFormed(s)
    && OfBlocking(s.rpc) && !s.rpc.RIdle? && !s.rpc.RFresh? && !s.rpc.RReading? && !s.rpc.RCopied?
    && (s.rpc.RHasSlot? ==> s.rpc.slot == s.sh.R())
    && !s.sh.stop && !s.sh.haveUnread[s.sh.R()] && !s.sh.haveUnread[s.sh.M()]
  }

  lemma ReaderStepWaits<T>(s: State<T>, spurious: bool)
    requires NothingToReturn(s)
    ensures NothingToReturn(ReaderStep(s, spurious))
  {
    FlipExchangesRoles(s.sh, false);
  }

  lemma {:induction false} ReaderAloneWaits<T>(s: State<T>, moves: seq<Move<T>>)
    requires NothingToReturn(s) && IsRun(s, moves) && forall m :: m in moves ==> m.Reader?
    ensures NothingToReturn(Exec(s, moves))
    decreases |moves|
  {
    hide NothingToReturn;
    if moves != [] {
      assert moves[0] in moves && forall m :: m in moves[1..] ==> m in moves;
      StillWaiting(s, moves[0]);
      ReaderAloneWaits(Step(s, moves[0]), moves[1..]);
    }
  }

  lemma StillWaiting<T>(s: State<T>, move: Move<T>)
    requires NothingToReturn(s) && Enabled(s, move) && move.Reader?
    ensures NothingToReturn(Step(s, move))
  {
    ReaderStepWaits(s, move.spurious);
  }

  /** On an empty register that is not stopped, a blocking read that only its own thread
      moves never returns, however often it wakes spuriously. */
  lemma BlockingReadWaits<T>(s0: State<T>, before: seq<Move<T>>, swap: bool, moves: seq<Move<T>>)
    requires Init(s0) && IsRun(s0, before) && Exec(s0, before).rpc.RIdle?
    requires
      var s := Exec(s0, before);
      && WellFormed(s) && !s.sh.stop && !s.sh.haveUnread[s.sh.M()]
      && IsRun(Step(s, ReadCall(swap, true)), moves)
    requires forall m :: m in moves ==> m.Reader?
    ensures
      var t := Exec(Step(Exec(s0, before), ReadCall(swap, true)), moves);
      !t.rpc.RIdle? && Results(t.log) == Results(Exec(s0, before).log)
  {
    ReachableInv(s0, before);
    var s := Exec(s0, before);
    ReaderAloneWaits(Step(s, ReadCall(swap, true)), moves);
    assert forall m :: m in moves ==> !m.ReadCall?;
    BlockingReadReturnsItemOrStop(s, swap, moves);
  }

  // ---------------------------------------------------------------- waking

  /** A reader that was woken, moving alone from inside wait. */
  lemma WokenReaderReturns<T>(s: State<T>)
    requires WellFormed(s) && s.rpc.RWaiting? && s.rpc.k != s.sh.counter
    requires s.sh.stop || s.sh.haveUnread[s.sh.M()]
    ensures
      var moves := Times(Reader(false), 2) + BlockingMoves(s);
      && IsRun(s, moves)
      && var t, item := Exec(s, moves), s.sh.slots[s.sh.M()];
         && t.rpc.RIdle?
         && if s.sh.stop then t.log == s.log + [ReturnStopped]
            else t.log == s.log + [Take, Return(Some(item))] && t.readHand == item
  {
    hide IsRun, Exec, Times, AfterRead;
    var m: Move<T> := Reader(false);
    var s1 := Step(s, m);
    var s2 := Step(s1, m);
    if s.sh.stop {
      SoloStopped(s2);
    } else {
      SoloDelivers(s2);
    }
    var rest := BlockingMoves(s);
    OneMoreTime(m, 0, rest);
    RunCons(s1, m, rest);
    OneMoreTime(m, 1, rest);
    RunCons(s, m, Times(m, 1) + rest);
  }

  /** A parked reader with something to return for does return: once the thread that made it
      so has finished its call, the reader's own steps end the read, with the item or, on a
      stop, the report of it. */
  lemma ParkedReaderReturns<T>(s0: State<T>, moves: seq<Move<T>>)
    requires Init(s0) && IsRun(s0, moves) && WellFormed(Exec(s0, moves)) && MustWake(Exec(s0, moves))
    ensures
      var s := Exec(s0, moves);
      && IsRun(s, Rescue(s))
      && var t := Exec(s, Rescue(s));
         && WellFormed(t)
         && var rest := Times(Reader(false), 2) + BlockingMoves(t);
            && IsRun(t, rest)
            && var u := Exec(t, rest);
               && u.rpc.RIdle?
               && if t.sh.stop then u.log == t.log + [ReturnStopped]
                  else u.log == t.log + [Take, Return(Some(t.sh.slots[t.sh.M()]))]
  {
    hide Times, AfterRead;
    FinishingTheCallWakes(s0, moves);
    ReachableInv(s0, moves);
    var s := Exec(s0, moves);
    RescueKeepsWhatIsThere(s);
    WokenReaderReturns(Exec(s, Rescue(s)));
  }

  lemma RescueKeepsWhatIsThere<T>(s: State<T>)
    requires Inv(s) && MustWake(s) && IsRun(s, Rescue(s))
    requires s.wpc.WCommitted? || s.spc.SFlagged? || s.wpc.WNotifying? || s.spc.SNotifying?
    ensures
      var t := Exec(s, Rescue(s));
      && WellFormed(t)
      && t.sh.slots == s.sh.slots && t.sh.haveUnread == s.sh.haveUnread
      && t.sh.stateIdx == s.sh.stateIdx && t.sh.stop == s.sh.stop
  {
    hide Inv;
    var m := Rescue(s)[0];
    StepKeepsInv(s, m);
    if s.wpc.WCommitted? || s.spc.SFlagged? {
      RunOfTwo(s, m, m);
    } else {
      RunOfOne(s, m);
    }
  }
}
