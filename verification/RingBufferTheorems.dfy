/**
 What RingBuffer promises its callers, for every interleaving: a FIFO of capacity
 size - 1, exclusive slots, CHECKs that never fire, and no lost wakeup.
 */
module RingBufferTheorems {
  import opened Options
  import opened RingBufferProtocol

  lemma ReachableInv<T>(s0: State<T>, moves: seq<Move<T>>)
    requires Init(s0) && IsRun(s0, moves)
    ensures Inv(Exec(s0, moves))
  {
    assert Items(s0.exits) + s0.sh.Contents() == [];
    RunKeepsInv(s0, moves);
  }

  lemma ChecksNeverFire<T>(s0: State<T>, moves: seq<Move<T>>)
    requires Init(s0) && IsRun(s0, moves)
    ensures !Exec(s0, moves).ppc.PAborted? && !Exec(s0, moves).cpc.CAborted?
  {
    ReachableInv(s0, moves);
  }

  /** The slot being filled is never the slot being read. */
  lemma SlotsAreExclusive<T>(s0: State<T>, moves: seq<Move<T>>)
    requires Init(s0) && IsRun(s0, moves)
    ensures
      var s := Exec(s0, moves);
      s.ppc.PHasSlot? && (s.cpc.CHasItem? || s.cpc.CCopied?) ==> s.ppc.slot != s.cpc.slot
  {
    ReachableInv(s0, moves);
  }

  /** FIFO refinement: the i-th item to leave is the i-th item written, whether it was
      read or skipped, and at most size - 1 items are waiting. */
  lemma ItemsLeaveInOrder<T>(s0: State<T>, moves: seq<Move<T>>)
    requires Init(s0) && IsRun(s0, moves)
    ensures
      var s := Exec(s0, moves);
      && WellFormed(s)
      && |s.exits| <= |s.puts|
      && (forall i :: 0 <= i < |s.exits| ==> s.exits[i].item == s.puts[i])
      && s.sh.Contents() == s.puts[|s.exits|..]
      && |s.sh.Contents()| <= |s.sh.data| - 1
  {
    ReachableInv(s0, moves);
    var s := Exec(s0, moves);
    ExitsWerePut(s);
    assert (Items(s.exits) + s.sh.Contents())[|s.exits|..] == s.sh.Contents();
  }

  // ---------------------------------------------------------------- plain reads

  ghost predicate PlainMoves<T>(moves: seq<Move<T>>) {
    forall m :: m in moves ==> !m.ClearCall? && (m.ReadCall? ==> m.kind.Oldest?)
  }

  ghost predicate AllDelivered<T>(exits: seq<Exit<T>>) {
    forall e :: e in exits ==> e.Delivered?
  }

  ghost predicate PlainState<T>(s: State<T>) {
    AllDelivered(s.exits) && (s.cpc.CIdle? || (s.kind.Oldest? && !s.cpc.CClearStore?))
  }

  lemma PlainStep<T>(s: State<T>, move: Move<T>)
    requires Inv(s) && Enabled(s, move) && PlainMoves([move]) && PlainState(s)
    ensures PlainState(Step(s, move))
  {
    assert move in [move];
  }

  lemma {:induction false} PlainRun<T>(s: State<T>, moves: seq<Move<T>>)
    requires Inv(s) && IsRun(s, moves) && PlainMoves(moves) && PlainState(s)
    ensures PlainState(Exec(s, moves))
    decreases |moves|
  {
    if moves != [] {
      assert moves[0] in moves && forall m :: m in moves[1..] ==> m in moves;
      PlainStep(s, moves[0]);
      StepKeepsInv(s, moves[0]);
      PlainRun(Step(s, moves[0]), moves[1..]);
    }
  }

  /** A consumer that only calls read receives exactly what was written, in order. */
  lemma ReadsReceiveEverything<T>(s0: State<T>, moves: seq<Move<T>>)
    requires Init(s0) && IsRun(s0, moves) && PlainMoves(moves)
    ensures
      var s := Exec(s0, moves);
      && |s.exits| <= |s.puts|
      && forall i :: 0 <= i < |s.exits| ==> s.exits[i] == Delivered(s.puts[i])
  {
    ItemsLeaveInOrder(s0, moves);
    assert Inv(s0) by { ReachableInv(s0, []); }
    PlainRun(s0, moves);
    var s := Exec(s0, moves);
    forall i | 0 <= i < |s.exits|
      ensures s.exits[i] == Delivered(s.puts[i])
    {
      assert s.exits[i] in s.exits;
    }
  }

  // ---------------------------------------------------------------- skipping reads

  function ConsumerMoves<T>(moves: seq<Move<T>>): nat {
    if moves == [] then 0 else (if moves[0].Consumer? then 1 else 0) + ConsumerMoves(moves[1..])
  }

  /** `exits` began with `before`, and what followed was skipped. */
  ghost predicate SkippedSince<T>(before: seq<Exit<T>>, exits: seq<Exit<T>>) {
    before <= exits && forall j :: |before| <= j < |exits| ==> exits[j].Dropped?
  }

  /** Inside read_latest, with n items written and these exits at its load of tail, and so
      many of the consumer's own steps to go before the item is in hand and checked. */
  ghost predicate InLatest<T>(s: State<T>, n: nat, before: seq<Exit<T>>, stepsToGo: nat) {
    && s.kind.Latest? && s.seen == n && SkippedSince(before, s.exits)
    && match stepsToGo
       case 0 => s.cpc.CChecked?
       case 1 => s.cpc.CCopied?
       case 2 => s.cpc.CHasItem?
       case 3 => s.cpc.CLatestStore?
       case _ => false
  }

  lemma {:induction false} LatestRunsThrough<T>(
    s: State<T>, moves: seq<Move<T>>, n: nat, before: seq<Exit<T>>, stepsToGo: nat)
    requires Inv(s) && IsRun(s, moves) && InLatest(s, n, before, stepsToGo) && ConsumerMoves(moves) == stepsToGo
    ensures Inv(Exec(s, moves)) && InLatest(Exec(s, moves), n, before, 0)
    decreases |moves|
  {
    hide Inv;
    if moves != [] {
      StepKeepsInv(s, moves[0]);
      LatestStep(s, moves[0], n, before, stepsToGo);
      var left := if moves[0].Consumer? then stepsToGo - 1 else stepsToGo;
      LatestRunsThrough(Step(s, moves[0]), moves[1..], n, before, left);
    }
  }

  lemma LatestStep<T>(s: State<T>, move: Move<T>, n: nat, before: seq<Exit<T>>, stepsToGo: nat)
    requires Inv(s) && Enabled(s, move) && InLatest(s, n, before, stepsToGo) && (move.Consumer? ==> 0 < stepsToGo)
    ensures InLatest(Step(s, move), n, before, if move.Consumer? then stepsToGo - 1 else stepsToGo)
  {
    CheckedHand(s);
  }

  /** What is in hand after the CHECKs was the head item. */
  lemma CheckedHand<T>(s: State<T>)
    requires Inv(s)
    ensures s.cpc.CCopied? ==> s.cpc.slot == s.sh.head && !s.sh.Empty()
    ensures s.cpc.CChecked? && s.kind.Latest? ==>
              0 < s.seen <= |s.puts| && |s.exits| == s.seen - 1 && s.hand == s.puts[s.seen - 1]
  {
    if s.cpc.CChecked? && s.kind.Latest? {
      FirstItemIsAtHead(s.sh);
      assert (Items(s.exits) + s.sh.Contents())[|s.exits|] == s.sh.Contents()[0];
    }
  }

  /** From its load of tail, read_latest skips exactly the items older than the newest of
      that moment and takes that one in hand, whatever the other threads do meanwhile and
      however far the tail moves. */
  lemma LatestIsNewestAtItsLoad<T>(s0: State<T>, before: seq<Move<T>>, meanwhile: seq<Move<T>>)
    requires Init(s0) && IsRun(s0, before) && Exec(s0, before).cpc.CLatestLoad?
    requires
      var s := Exec(s0, before);
      WellFormed(s) && IsRun(ConsumerStep(s), meanwhile) && ConsumerMoves(meanwhile) == 3
    ensures
      var s := Exec(s0, before);
      var t := Exec(ConsumerStep(s), meanwhile);
      && t.cpc.CChecked? && s.puts != []
      && t.hand == s.puts[|s.puts| - 1] && |t.exits| == |s.puts| - 1
      && s.puts <= t.puts
      && s.exits <= t.exits
      && forall j :: |s.exits| <= j < |t.exits| ==> t.exits[j] == Dropped(s.puts[j])
  {
    hide Inv, IsRun, Exec, InLatest, ConsumerStep, ConsumerMoves;
    ReachableInv(s0, before);
    var s := Exec(s0, before);
    LatestLoads(s);
    var u := ConsumerStep(s);
    LatestRunsThrough(u, meanwhile, |s.puts|, s.exits, 3);
    LatestArrives(Exec(u, meanwhile), |s.puts|, s.exits);
    PutsOnlyGrow(u, meanwhile);
  }

  lemma LatestLoads<T>(s: State<T>)
    requires Inv(s) && s.cpc.CLatestLoad?
    ensures
      var t := ConsumerStep(s);
      Inv(t) && InLatest(t, |s.puts|, s.exits, 3) && t.puts == s.puts
  {
    LatestLoadKeepsInv(s);
  }

  lemma LatestArrives<T>(t: State<T>, n: nat, before: seq<Exit<T>>)
    requires Inv(t) && InLatest(t, n, before, 0)
    ensures t.cpc.CChecked? && 0 < n <= |t.puts| && t.hand == t.puts[n - 1] && |t.exits| == n - 1
    ensures before <= t.exits && forall j :: |before| <= j < |t.exits| ==> t.exits[j] == Dropped(t.puts[j])
  {
    CheckedHand(t);
    ExitsWerePut(t);
  }

  lemma ExitsWerePut<T>(s: State<T>)
    requires Inv(s)
    ensures |s.exits| <= |s.puts| && forall i :: 0 <= i < |s.exits| ==> s.exits[i].item == s.puts[i]
  {
    forall i | 0 <= i < |s.exits|
      ensures s.exits[i].item == s.puts[i]
    {
      assert (Items(s.exits) + s.sh.Contents())[i] == Items(s.exits)[i];
    }
  }

  lemma {:induction false} PutsOnlyGrow<T>(s: State<T>, moves: seq<Move<T>>)
    requires IsRun(s, moves)
    ensures s.puts <= Exec(s, moves).puts
    decreases |moves|
  {
    if moves != [] {
      PutsOnlyGrow(Step(s, moves[0]), moves[1..]);
    }
  }

  /** clear drops exactly the items written before it loaded tail. */
  lemma ClearKeepsLaterItems<T>(s0: State<T>, moves: seq<Move<T>>)
    requires Init(s0) && IsRun(s0, moves)
    ensures
      var s := Exec(s0, moves);
      s.cpc.CClearStore? ==>
        && WellFormed(s) && s.seen <= |s.puts|
        && var t := ConsumerStep(s);
           && WellFormed(t) && |t.exits| == s.seen && t.sh.Contents() == s.puts[s.seen..]
           && s.exits <= t.exits
           && forall j :: |s.exits| <= j < |t.exits| ==> t.exits[j] == Dropped(s.puts[j])
  {
    ReachableInv(s0, moves);
    var s := Exec(s0, moves);
    if s.cpc.CClearStore? {
      ClearStoreKeepsInv(s);
      ExitsWerePut(ConsumerStep(s));
      SkipKeepsLedger(s, s.cpc.slot, s.seen, CIdle);
      var t := ConsumerStep(s);
      assert (Items(t.exits) + t.sh.Contents())[|t.exits|..] == t.sh.Contents();
    }
  }

  // ---------------------------------------------------------------- honest answers

  /** A call gives up exactly when it sees, at a deciding load, a full queue, an empty one or
      a stop. */
  lemma RefusalsAreTrue<T>(s0: State<T>, moves: seq<Move<T>>)
    requires Init(s0) && IsRun(s0, moves)
    ensures
      var s := Exec(s0, moves);
      && WellFormed(s)
      && (s.ppc.PFullTest? ==> (ProducerStep(s).ppc.PIdle? <==> |s.puts| - |s.exits| == |s.sh.data| - 1))
      && (s.cpc.CReadEmptyTest? ==> (ConsumerStep(s).cpc.CIdle? <==> |s.puts| == |s.exits|))
      && (s.cpc.CLatestEmptyTest? ==> (ConsumerStep(s).cpc.CIdle? <==> |s.puts| == |s.exits|))
      && (s.cpc.CReadStopTest? || s.cpc.CLatestStopTest? ==> (ConsumerStep(s).cpc.CIdle? <==> s.sh.stopped))
  {
    ReachableInv(s0, moves);
    FullAndEmpty(Exec(s0, moves).sh);
  }

  // ---------------------------------------------------------------- no lost wakeup

  ghost predicate MustWake<T>(s: State<T>) {
    s.cpc.CParked? && (!s.sh.Empty() || s.sh.stopped)
  }

  lemma NoLostWakeup<T>(s0: State<T>, moves: seq<Move<T>>)
    requires Init(s0) && IsRun(s0, moves)
    ensures
      var s := Exec(s0, moves);
      MustWake(s) ==>
        || (s.cpc.k != s.sh.counter && (s.ppc.PNotifying? || s.spc.SNotifying?))
        || s.ppc.PPublished?
        || s.spc.SFlagged?
  {
    ReachableInv(s0, moves);
  }

  /** What remains of the call that will wake the consumer. */
  function Rescue<T>(s: State<T>): seq<Move<T>> {
    if s.ppc.PPublished? then [Producer, Producer]
    else if s.spc.SFlagged? then [Stopper, Stopper]
    else if s.ppc.PNotifying? then [Producer]
    else [Stopper]
  }

  lemma RunOfOne<T>(s: State<T>, a: Move<T>)
    requires Inv(s) && Enabled(s, a)
    ensures IsRun(s, [a]) && Exec(s, [a]) == Step(s, a)
  {
    StepKeepsInv(s, a);
    assert [a][1..] == [];
    assert IsRun(Step(s, a), []);
  }

  lemma RunOfTwo<T>(s: State<T>, a: Move<T>, b: Move<T>)
    requires Inv(s) && Enabled(s, a) && Inv(Step(s, a)) && Enabled(Step(s, a), b)
    ensures IsRun(s, [a, b]) && Exec(s, [a, b]) == Step(Step(s, a), b)
  {
    RunOfOne(Step(s, a), b);
    assert [a, b][1..] == [b];
  }

  /** The thread that made something available wakes the consumer by finishing its own
      call, and the consumer then finds the counter changed instead of parking again. */
  lemma FinishingTheCallWakes<T>(s0: State<T>, moves: seq<Move<T>>)
    requires Init(s0) && IsRun(s0, moves)
    ensures
      var s := Exec(s0, moves);
      MustWake(s) ==>
        && IsRun(s, Rescue(s))
        && Exec(s, Rescue(s)).cpc == CWaiting(s.cpc.k)
        && s.cpc.k != Exec(s, Rescue(s)).sh.counter
  {
    ReachableInv(s0, moves);
    var s := Exec(s0, moves);
    if MustWake(s) {
      var m := Rescue(s)[0];
      StepKeepsInv(s, m);
      if s.ppc.PPublished? || s.spc.SFlagged? {
        RunOfTwo(s, m, m);
      } else {
        RunOfOne(s, m);
      }
    }
  }
}
