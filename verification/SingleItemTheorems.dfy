/**
 What SingleItem promises its callers, for every interleaving: exclusive slots,
 an atomic register with a fresh bit, in-order delivery without repetition,
 conserved buffers, and no lost wakeup.
 */
module SingleItemTheorems {
  import opened Options
  import opened SingleItemProtocol

  lemma ReachableInv<T>(s0: State<T>, moves: seq<Move<T>>)
    requires Init(s0) && IsRun(s0, moves)
    ensures Inv(Exec(s0, moves))
  {
    RunKeepsInv(s0, moves);
  }

  // ---------------------------------------------------------------- exclusive slots

  /** The slot whose contents or mark a thread may be touching. */
  function WriterSlot(pc: WriterPc): Option<nat> {
    match pc
    case WSlot(slot) => Some(slot)
    case WFilled(slot) => Some(slot)
    case _ => None
  }

  function ReaderSlot(pc: ReaderPc): Option<nat> {
    match pc
    case RHasSlot(_, slot) => Some(slot)
    case RReading(slot) => Some(slot)
    case RCopied(slot) => Some(slot)
    case _ => None
  }

  lemma SlotsAreExclusive<T>(s0: State<T>, moves: seq<Move<T>>)
    requires Init(s0) && IsRun(s0, moves)
    ensures
      var s := Exec(s0, moves);
      WriterSlot(s.wpc).Some? && ReaderSlot(s.rpc).Some? ==> WriterSlot(s.wpc) != ReaderSlot(s.rpc)
  {
    ReachableInv(s0, moves);
  }

  // ---------------------------------------------------------------- the atomic register

  /** Every run's log is a history of the atomic register with a fresh bit. */
  lemma RunsAreLegal<T>(s0: State<T>, moves: seq<Move<T>>)
    requires Init(s0) && IsRun(s0, moves)
    ensures Legal(Exec(s0, moves).log)
  {
    ReachableInv(s0, moves);
  }

  function Commits<T>(log: seq<Event<T>>): seq<T> {
    if log == [] then []
    else
      var before := Commits(log[..|log| - 1]);
      match log[|log| - 1]
      case Commit(item) => before + [item]
      case _ => before
  }

  /** The items that reads returned. */
  function Received<T>(log: seq<Event<T>>): seq<T> {
    if log == [] then []
    else
      var before := Received(log[..|log| - 1]);
      match log[|log| - 1]
      case Return(result) => if result.Some? then before + [result.value] else before
      case _ => before
  }

  /** How many commits preceded the newest Take. */
  function SeenByTake<T>(log: seq<Event<T>>): nat {
    if log == [] then 0
    else if log[|log| - 1].Take? then |Commits(log[..|log| - 1])|
    else SeenByTake(log[..|log| - 1])
  }

  /** For each item received, the number of the write that committed it, from 1. */
  function Deliveries<T>(log: seq<Event<T>>): seq<nat> {
    if log == [] then []
    else
      var before := log[..|log| - 1];
      match log[|log| - 1]
      case Return(result) =>
        if result.Some? then Deliveries(before) + [SeenByTake(before)] else Deliveries(before)
      case _ => Deliveries(before)
  }

  function LastDelivery<T>(log: seq<Event<T>>): nat {
    var d := Deliveries(log);
    if d == [] then 0 else d[|d| - 1]
  }

  ghost predicate StrictlyIncreasing(d: seq<nat>) {
    forall i, j :: 0 <= i < j < |d| ==> d[i] < d[j]
  }

  /** The bookkeeping that a legal log keeps: the write that a Take saw, the register
      and the item in hand all name the newest commit of their moment. */
  ghost predicate Accounted<T>(log: seq<Event<T>>) {
    var commits, seen := Commits(log), SeenByTake(log);
    && LastDelivery(log) <= seen <= |commits|
    && (Fresh(log).Some? <==> seen < |commits|)
    && (Fresh(log).Some? ==> Fresh(log).value == commits[|commits| - 1])
    && (Taken(log).Some? && Taken(log).value.Some? <==> LastDelivery(log) < seen)
    && (Taken(log).Some? && Taken(log).value.Some? ==> Taken(log).value.value == commits[seen - 1])
  }

  lemma {:induction false} LegalIsAccounted<T>(log: seq<Event<T>>)
    requires Legal(log)
    ensures Accounted(log)
  {
    if log != [] {
      LegalIsAccounted(log[..|log| - 1]);
    }
  }

  lemma {:induction false} DeliveriesIncrease<T>(log: seq<Event<T>>)
    requires Legal(log)
    ensures StrictlyIncreasing(Deliveries(log))
    ensures forall d :: d in Deliveries(log) ==> 0 < d <= LastDelivery(log)
  {
    if log != [] {
      DeliveriesIncrease(log[..|log| - 1]);
      LegalIsAccounted(log[..|log| - 1]);
    }
  }

  lemma {:induction false} ReceivedWereCommitted<T>(log: seq<Event<T>>)
    requires Legal(log)
    ensures |Received(log)| == |Deliveries(log)|
    ensures forall i :: 0 <= i < |Deliveries(log)| ==>
              0 < Deliveries(log)[i] <= |Commits(log)| && Received(log)[i] == Commits(log)[Deliveries(log)[i] - 1]
  {
    if log != [] {
      ReceivedWereCommitted(log[..|log| - 1]);
      LegalIsAccounted(log[..|log| - 1]);
    }
  }

  /** Reads receive committed writes in commit order, none of them twice. */
  lemma DeliveredInOrderOnce<T>(s0: State<T>, moves: seq<Move<T>>)
    requires Init(s0) && IsRun(s0, moves)
    ensures
      var log := Exec(s0, moves).log;
      && StrictlyIncreasing(Deliveries(log))
      && |Received(log)| == |Deliveries(log)|
      && forall i :: 0 <= i < |Deliveries(log)| ==>
           0 < Deliveries(log)[i] <= |Commits(log)| && Received(log)[i] == Commits(log)[Deliveries(log)[i] - 1]
  {
    RunsAreLegal(s0, moves);
    DeliveriesIncrease(Exec(s0, moves).log);
    ReceivedWereCommitted(Exec(s0, moves).log);
  }

  /** A read that returns succeeds if and only if some write committed after the last
      item delivered and before the read's Take, and then it returns the newest one. */
  lemma ReadReturnsNewest<T>(log: seq<Event<T>>, result: Option<T>)
    requires Legal(log + [Return(result)])
    ensures result.Some? <==> LastDelivery(log) < SeenByTake(log)
    ensures result.Some? ==> SeenByTake(log) <= |Commits(log)| && result.value == Commits(log)[SeenByTake(log) - 1]
  {
    Append(log, Return(result));
    LegalIsAccounted(log);
  }

  lemma {:induction false} LegalPrefix<T>(log: seq<Event<T>>, n: nat)
    requires Legal(log) && n <= |log|
    ensures Legal(log[..n])
    decreases |log|
  {
    if n < |log| {
      LegalPrefix(log[..|log| - 1], n);
      assert log[..|log| - 1][..n] == log[..n];
    } else {
      assert log[..n] == log;
    }
  }

  /** So for every read that returns in any run. */
  lemma EveryReadReturnsNewest<T>(s0: State<T>, moves: seq<Move<T>>, i: nat)
    requires Init(s0) && IsRun(s0, moves)
    requires i < |Exec(s0, moves).log| && Exec(s0, moves).log[i].Return?
    ensures
      var before, result := Exec(s0, moves).log[..i], Exec(s0, moves).log[i].result;
      && (result.Some? <==> LastDelivery(before) < SeenByTake(before))
      && (result.Some? ==>
            SeenByTake(before) <= |Commits(before)| && result.value == Commits(before)[SeenByTake(before) - 1])
  {
    var log := Exec(s0, moves).log;
    RunsAreLegal(s0, moves);
    LegalPrefix(log, i + 1);
    assert log[..i + 1] == log[..i] + [Return(log[i].result)];
    ReadReturnsNewest(log[..i], log[i].result);
  }

  // ---------------------------------------------------------------- conserved buffers

  ghost function Pool<T>(slots: seq<T>, a: T, b: T): multiset<T> {
    multiset(slots) + multiset{a} + multiset{b}
  }

  /** Every buffer that the slots and the two callers hold. */
  ghost function Buffers<T>(s: State<T>): multiset<T> {
    Pool(s.sh.slots, s.writeHand, s.readHand)
  }

  /** A client that only uses swap_write and swap_read, always with the same two objects. */
  ghost predicate SwapsOnly<T>(moves: seq<Move<T>>) {
    forall m :: m in moves ==>
      && !m.SetWriteItem? && !m.SetReadItem?
      && (m.WriteCall? || m.ReadCall? ==> m.swap)
  }

  ghost predicate Swapping<T>(s: State<T>) {
    && (s.wpc.WSlot? ==> s.writeSwap && s.writeItem == s.writeHand)
    && (s.rpc.RIdle? || s.readSwap)
  }

  lemma ExchangeConserves<T>(slots: seq<T>, i: nat, a: T, b: T)
    requires i < |slots|
    ensures Pool(slots[i := a], slots[i], b) == Pool(slots, a, b)
    ensures Pool(slots[i := b], a, slots[i]) == Pool(slots, a, b)
  {
  }

  lemma WriterSwapConserves<T>(s: State<T>, spurious: bool)
    requires WellFormed(s) && !s.wpc.WIdle? && Swapping(s)
    ensures Swapping(WriterStep(s, spurious)) && Buffers(WriterStep(s, spurious)) == Buffers(s)
  {
    var t := WriterStep(s, spurious);
    if s.wpc.WSlot? {
      ExchangeConserves(s.sh.slots, s.wpc.slot, s.writeHand, s.readHand);
    } else {
      assert t.sh.slots == s.sh.slots && t.writeHand == s.writeHand && t.readHand == s.readHand;
    }
  }

  /** Only the step out of RReading touches a buffer. */
  lemma ReaderKeepsContents<T>(s: State<T>, spurious: bool)
    requires WellFormed(s) && !s.rpc.RIdle? && !s.rpc.RReading?
    ensures
      var t := ReaderStep(s, spurious);
      && t.sh.slots == s.sh.slots && t.writeHand == s.writeHand && t.readHand == s.readHand
      && t.wpc == s.wpc && t.writeSwap == s.writeSwap && t.writeItem == s.writeItem && t.readSwap == s.readSwap
  {
  }

  lemma ReaderSwapConserves<T>(s: State<T>, spurious: bool)
    requires WellFormed(s) && !s.rpc.RIdle? && Swapping(s)
    ensures Swapping(ReaderStep(s, spurious)) && Buffers(ReaderStep(s, spurious)) == Buffers(s)
  {
    if s.rpc.RReading? {
      ExchangeConserves(s.sh.slots, s.rpc.slot, s.writeHand, s.readHand);
    } else {
      ReaderKeepsContents(s, spurious);
    }
  }

  lemma StopperConserves<T>(s: State<T>)
    requires WellFormed(s) && Swapping(s)
    ensures Swapping(StopperStep(s)) && Buffers(StopperStep(s)) == Buffers(s)
  {
    var t := StopperStep(s);
    assert t.sh.slots == s.sh.slots && t.wpc == s.wpc && t.writeHand == s.writeHand && t.readHand == s.readHand;
    assert t.rpc == s.rpc || t.rpc == Notified(s.rpc, s.sh.counter);
  }

  lemma SwapStepConserves<T>(s: State<T>, move: Move<T>)
    requires WellFormed(s) && Enabled(s, move) && SwapsOnly([move]) && Swapping(s)
    ensures Swapping(Step(s, move)) && Buffers(Step(s, move)) == Buffers(s)
  {
    assert move in [move];
    match move
    case Writer(spurious) => WriterSwapConserves(s, spurious);
    case Reader(spurious) => ReaderSwapConserves(s, spurious);
    case Stopper => StopperConserves(s);
    case WriteCall(swap) => assert Step(s, move).sh == s.sh;
    case ReadCall(swap, blocking) => assert Step(s, move).sh == s.sh;
  }

  lemma {:induction false} SwapsConserveBuffers<T>(s: State<T>, moves: seq<Move<T>>)
    requires Swapping(s) && IsRun(s, moves) && SwapsOnly(moves)
    ensures Buffers(Exec(s, moves)) == Buffers(s)
    decreases |moves|
  {
    if moves != [] {
      assert moves[0] in moves && forall m :: m in moves[1..] ==> m in moves;
      SwapStepConserves(s, moves[0]);
      SwapsConserveBuffers(Step(s, moves[0]), moves[1..]);
    }
  }

  /** No buffer is lost or duplicated: slots and callers' objects are permuted. */
  lemma BuffersAreConserved<T>(s0: State<T>, moves: seq<Move<T>>)
    requires Init(s0) && IsRun(s0, moves) && SwapsOnly(moves)
    ensures Buffers(Exec(s0, moves)) == Buffers(s0)
  {
    SwapsConserveBuffers(s0, moves);
  }

  // ---------------------------------------------------------------- no lost wakeup

  ghost predicate MustWake<T>(s: State<T>)
    requires WellFormed(s)
  {
    s.rpc.RParked? && (s.sh.haveUnread[s.sh.M()] || s.sh.stop)
  }

  /** A parked reader that has something to wake for is never forgotten. */
  lemma NoLostWakeup<T>(s0: State<T>, moves: seq<Move<T>>)
    requires Init(s0) && IsRun(s0, moves)
    ensures
      var s := Exec(s0, moves);
      && WellFormed(s)
      && (MustWake(s) ==>
            || (s.rpc.k != s.sh.counter && (s.wpc.WNotifying? || s.spc.SNotifying?))
            || s.wpc.WCommitted?
            || s.spc.SFlagged?)
  {
    ReachableInv(s0, moves);
  }

  /** What remains of the call that will wake the reader. */
  function Rescue<T>(s: State<T>): seq<Move<T>> {
    if s.wpc.WCommitted? then [Writer(false), Writer(false)]
    else if s.spc.SFlagged? then [Stopper, Stopper]
    else if s.wpc.WNotifying? then [Writer(false)]
    else [Stopper]
  }

  lemma RunOfOne<T>(s: State<T>, a: Move<T>)
    requires Inv(s) && Enabled(s, a)
    ensures IsRun(s, [a]) && Exec(s, [a]) == Step(s, a)
  {
    StepKeepsInv(s, a);
    assert [a][1..] == [];
    assert IsRun(Step(s, a), []);
  }

  lemma RunOfTwo<T>(s: State<T>, a: Move<T>, b: Move<T>)
    requires Inv(s) && Enabled(s, a) && Inv(Step(s, a)) && Enabled(Step(s, a), b)
    ensures IsRun(s, [a, b]) && Exec(s, [a, b]) == Step(Step(s, a), b)
  {
    RunOfOne(Step(s, a), b);
    assert [a, b][1..] == [b];
  }

  /** The thread that made something available wakes the reader by finishing its own
      call, and the reader then finds the counter changed instead of parking again. */
  lemma FinishingTheCallWakes<T>(s0: State<T>, moves: seq<Move<T>>)
    requires Init(s0) && IsRun(s0, moves)
    ensures
      var s := Exec(s0, moves);
      && WellFormed(s)
      && (MustWake(s) ==>
            && IsRun(s, Rescue(s))
            && Exec(s, Rescue(s)).rpc == RWaiting(s.rpc.k)
            && s.rpc.k != Exec(s, Rescue(s)).sh.counter)
  {
    ReachableInv(s0, moves);
    var s := Exec(s0, moves);
    if MustWake(s) {
      var m := Rescue(s)[0];
      StepKeepsInv(s, m);
      if s.wpc.WCommitted? || s.spc.SFlagged? {
        RunOfTwo(s, m, m);
      } else {
        RunOfOne(s, m);
      }
    }
  }
}
