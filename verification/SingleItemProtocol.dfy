/**
 The triple buffer of concurrency/single_item.h as a machine of atomic steps:
 one writer, one reader and one stopper, interleaved in any order. Atomic
 operations are sequentially consistent, compare_exchange_weak may fail
 spuriously, and wait/notify_one follow section 31.6 of ISO/IEC 14882:2020.
 */
module SingleItemProtocol {
  import opened Options

  // ---------------------------------------------------------------- shared memory

  datatype SlotIdxs = SlotIdxs(readHead: nat, writeHead: nat)

  const TRANSITION_TABLE: seq<SlotIdxs> := [
    SlotIdxs(1, 2),  // 0_R_W
    SlotIdxs(0, 2),  // R_0_W
    SlotIdxs(0, 1),  // R_W_0
    SlotIdxs(2, 1),  // 0_W_R
    SlotIdxs(2, 0),  // W_0_R
    SlotIdxs(1, 0)   // W_R_0
  ]

  /** The successor that the compare-and-swap loop asks for. */
  function Desired(expected: nat, isWrite: bool): (desired: nat)
    ensures desired < 6
  {
    if expected % 2 == (if isWrite then 1 else 0) then (expected + 1) % 6 else (expected + 5) % 6
  }

  /** The members of the object, and the single stores that its methods make. */
  datatype Shared<T> =
    Shared(slots: seq<T>, haveUnread: seq<bool>, stateIdx: nat, counter: nat, stop: bool)
  {
    predicate Valid() {
      |slots| == 3 && |haveUnread| == 3 && stateIdx < 6
    }

    function R(): (slot: nat)
      requires Valid()
      ensures slot < 3
    {
      TRANSITION_TABLE[stateIdx].readHead
    }

    function W(): (slot: nat)
      requires Valid()
      ensures slot < 3 && slot != R()
    {
      TRANSITION_TABLE[stateIdx].writeHead
    }

    /** The slot in neither hand: the "0" slot, through which items pass. */
    function M(): (slot: nat)
      requires Valid()
      ensures slot < 3 && slot != R() && slot != W()
    {
      3 - R() - W()
    }

    function Fill(slot: nat, item: T): Shared<T>
      requires Valid() && slot < 3
    {
      this.(slots := slots[slot := item])
    }

    function Mark(slot: nat, unread: bool): Shared<T>
      requires Valid() && slot < 3
    {
      this.(haveUnread := haveUnread[slot := unread])
    }

    function Flip(isWrite: bool): Shared<T> {
      this.(stateIdx := Desired(stateIdx, isWrite))
    }

    function Bump(): Shared<T> {
      this.(counter := counter + 1)
    }

    /** What the slot holds for its next owner, if it is marked unread. */
    function Unread(slot: nat): Option<T>
      requires Valid() && slot < 3
    {
      if haveUnread[slot] then Some(slots[slot]) else None
    }
  }

  /** A write exchanges the roles of the W and 0 slots, a read those of the R and
      0 slots, and each leaves the other side's slot alone. */
  lemma FlipExchangesRoles<T>(sh: Shared<T>, isWrite: bool)
    requires sh.Valid()
    ensures sh.Flip(isWrite).Valid()
    ensures isWrite ==> sh.Flip(true).W() == sh.M() && sh.Flip(true).M() == sh.W() && sh.Flip(true).R() == sh.R()
    ensures !isWrite ==> sh.Flip(false).R() == sh.M() && sh.Flip(false).M() == sh.R() && sh.Flip(false).W() == sh.W()
  {
    var i := sh.stateIdx;
    assert i == 0 || i == 1 || i == 2 || i == 3 || i == 4 || i == 5;
  }

  // ---------------------------------------------------------------- the machine

  datatype WriterPc =
    | WIdle
    | WSlot(slot: nat)        // get_write_slot has returned
    | WFilled(slot: nat)      // the item is in the slot
    | WMarked                 // have_unread_ is set
    | WLoaded(expected: nat)  // inside the compare-and-swap loop
    | WCommitted              // the swap succeeded; update_counter_ not yet increased
    | WNotifying              // update_counter_ increased; notify_one still to come

  /** `mode` is Some(k) in a blocking read that loaded k from update_counter_. */
  datatype ReaderPc =
    | RIdle
    | RStopCheck(k: nat)                          // about to test stop_
    | RBegin(mode: Option<nat>)                   // about to load state_idx_
    | RLoaded(mode: Option<nat>, expected: nat)   // inside the compare-and-swap loop
    | RSwapped(mode: Option<nat>)                 // about to call get_read_slot
    | RHasSlot(mode: Option<nat>, slot: nat)      // about to read have_unread_
    | RWaiting(k: nat)                            // about to compare inside wait(k)
    | RParked(k: nat)                             // blocked inside wait(k)
    | RReload                                     // wait returned; about to reload update_counter_
    | RFresh                                      // begin_read returned true
    | RReading(slot: nat)                         // about to copy or swap the item out
    | RCopied(slot: nat)                          // about to clear have_unread_

  datatype StopperPc = SIdle | SFlagged | SNotifying

  /** The linearization points and the results of read calls. */
  datatype Event<T> =
    | Commit(item: T)            // a writer's compare-and-swap succeeded
    | Take                       // a reader's compare-and-swap succeeded
    | Return(result: Option<T>)  // a read returned true with an item, or false for want of one
    | ReturnStopped              // a blocking read returned false because of stop_

  datatype State<T> = State(
    sh: Shared<T>,
    wpc: WriterPc,
    writeItem: T,    // the argument of the write in progress
    writeHand: T,    // the caller's object (exchanged by swap_write)
    writeSwap: bool,
    rpc: ReaderPc,
    readHand: T,     // the caller's object (overwritten by read, exchanged by swap_read)
    readSwap: bool,
    spc: StopperPc,
    log: seq<Event<T>>
  )

  datatype Move<T> =
    | SetWriteItem(item: T)                      // the writer's client, between calls
    | SetReadItem(item: T)                       // the reader's client, between calls
    | WriteCall(swap: bool)
    | Writer(spurious: bool)
    | ReadCall(swap: bool, blocking: bool)
    | Reader(spurious: bool)
    | Stopper

  predicate Enabled<T>(s: State<T>, move: Move<T>) {
    match move
    case SetWriteItem(_) => s.wpc.WIdle?
    case SetReadItem(_) => s.rpc.RIdle?
    case WriteCall(_) => s.wpc.WIdle?
    case Writer(_) => !s.wpc.WIdle?
    case ReadCall(_, _) => s.rpc.RIdle?
    case Reader(spurious) => !s.rpc.RIdle? && (s.rpc.RParked? ==> spurious)
    case Stopper => true
  }

  /** notify_one unblocks a reader that is parked on a value that has been replaced. */
  function Notified(rpc: ReaderPc, counter: nat): ReaderPc {
    if rpc.RParked? && rpc.k != counter then RWaiting(rpc.k) else rpc
  }

  function WriterStep<T>(s: State<T>, spurious: bool): State<T>
    requires s.sh.Valid() && !s.wpc.WIdle?
    requires s.wpc.WSlot? || s.wpc.WFilled? ==> s.wpc.slot < 3
  {
    match s.wpc
    case WSlot(slot) =>
      s.(sh := s.sh.Fill(slot, s.writeItem), wpc := WFilled(slot),
         writeHand := if s.writeSwap then s.sh.slots[slot] else s.writeHand)
    case WFilled(slot) => s.(sh := s.sh.Mark(slot, true), wpc := WMarked)
    case WMarked => s.(wpc := WLoaded(s.sh.stateIdx))
    case WLoaded(expected) =>
      if expected == s.sh.stateIdx && !spurious then
        s.(sh := s.sh.(stateIdx := Desired(expected, true)), wpc := WCommitted, log := s.log + [Commit(s.writeItem)])
      else
        s.(wpc := WLoaded(s.sh.stateIdx))
    case WCommitted => s.(sh := s.sh.Bump(), wpc := WNotifying)
    case WNotifying => s.(wpc := WIdle, rpc := Notified(s.rpc, s.sh.counter))
  }

  function ReaderStep<T>(s: State<T>, spurious: bool): State<T>
    requires s.sh.Valid() && !s.rpc.RIdle?
    requires s.rpc.RHasSlot? || s.rpc.RReading? || s.rpc.RCopied? ==> s.rpc.slot < 3
  {
    match s.rpc
    case RStopCheck(k) =>
      if s.sh.stop then s.(rpc := RIdle, log := s.log + [ReturnStopped])
      else s.(rpc := RBegin(Some(k)))
    case RBegin(mode) => s.(rpc := RLoaded(mode, s.sh.stateIdx))
    case RLoaded(mode, expected) =>
      if expected == s.sh.stateIdx && !spurious then
        s.(sh := s.sh.(stateIdx := Desired(expected, false)), rpc := RSwapped(mode), log := s.log + [Take])
      else
        s.(rpc := RLoaded(mode, s.sh.stateIdx))
    case RSwapped(mode) => s.(rpc := RHasSlot(mode, s.sh.R()))
    case RHasSlot(mode, slot) =>
      if s.sh.haveUnread[slot] then s.(rpc := RFresh)
      else if mode.Some? then s.(rpc := RWaiting(mode.value))
      else s.(rpc := RIdle, log := s.log + [Return(None)])
    case RWaiting(k) => s.(rpc := if s.sh.counter == k then RParked(k) else RReload)
    case RParked(k) => s.(rpc := RWaiting(k))
    case RReload => s.(rpc := RStopCheck(s.sh.counter))
    case RFresh => s.(rpc := RReading(s.sh.R()))
    case RReading(slot) =>
      s.(rpc := RCopied(slot), readHand := s.sh.slots[slot],
         sh := if s.readSwap then s.sh.Fill(slot, s.readHand) else s.sh)
    case RCopied(slot) =>
      s.(sh := s.sh.Mark(slot, false), rpc := RIdle, log := s.log + [Return(Some(s.readHand))])
  }

  function StopperStep<T>(s: State<T>): State<T> {
    match s.spc
    case SIdle => s.(sh := s.sh.(stop := true), spc := SFlagged)
    case SFlagged => s.(sh := s.sh.Bump(), spc := SNotifying)
    case SNotifying => s.(spc := SIdle, rpc := Notified(s.rpc, s.sh.counter))
  }

  function Step<T>(s: State<T>, move: Move<T>): State<T>
    requires WellFormed(s) && Enabled(s, move)
  {
    match move
    case SetWriteItem(item) => s.(writeHand := item)
    case SetReadItem(item) => s.(readHand := item)
    case WriteCall(swap) => s.(wpc := WSlot(s.sh.W()), writeItem := s.writeHand, writeSwap := swap)
    case Writer(spurious) => WriterStep(s, spurious)
    case ReadCall(swap, blocking) =>
      s.(rpc := if blocking then RStopCheck(s.sh.counter) else RBegin(None), readSwap := swap)
    case Reader(spurious) => ReaderStep(s, spurious)
    case Stopper => StopperStep(s)
  }

  predicate WellFormed<T>(s: State<T>) {
    && s.sh.Valid()
    && (s.wpc.WSlot? || s.wpc.WFilled? ==> s.wpc.slot < 3)
    && (s.rpc.RHasSlot? || s.rpc.RReading? || s.rpc.RCopied? ==> s.rpc.slot < 3)
  }

  ghost predicate Init<T>(s: State<T>) {
    && s.sh.Valid() && s.sh.haveUnread == [false, false, false]
    && s.sh.stateIdx == 0 && s.sh.counter == 0 && !s.sh.stop
    && s.wpc == WIdle && s.rpc == RIdle && s.spc == SIdle && s.log == []
  }

  // ---------------------------------------------------------------- the specification

  /** The register with a fresh bit, read off a log of events: the newest item
      committed since the last Take. */
  function Fresh<T>(log: seq<Event<T>>): Option<T> {
    if log == [] then None
    else
      match log[|log| - 1]
      case Commit(item) => Some(item)
      case Take => None
      case _ => Fresh(log[..|log| - 1])
  }

  /** What the read in progress has taken: None before its Take and after it returned. */
  function Taken<T>(log: seq<Event<T>>): Option<Option<T>> {
    if log == [] then None
    else
      match log[|log| - 1]
      case Commit(_) => Taken(log[..|log| - 1])
      case Take => Some(Fresh(log[..|log| - 1]))
      case _ => None
  }

  /** The atomic register's histories: every read returns what its Take found there,
      and no item once taken is dropped. */
  predicate Legal<T(==)>(log: seq<Event<T>>) {
    log == [] ||
    var before := log[..|log| - 1];
    && Legal(before)
    && match log[|log| - 1]
       case Commit(_) => true
       case Return(result) => Taken(before) == Some(result)
       case _ => Taken(before).None? || Taken(before).value.None?
  }

  // ---------------------------------------------------------------- the invariant

  ghost predicate WriterInv<T>(s: State<T>)
    requires WellFormed(s)
  {
    match s.wpc
    case WSlot(slot) => slot == s.sh.W()
    case WFilled(slot) => slot == s.sh.W() && s.sh.slots[slot] == s.writeItem
    case WMarked => s.sh.Unread(s.sh.W()) == Some(s.writeItem)
    case WLoaded(_) => s.sh.Unread(s.sh.W()) == Some(s.writeItem)
    case _ => true
  }

  ghost predicate ReaderInv<T>(s: State<T>)
    requires WellFormed(s)
  {
    var r := s.sh.R();
    match s.rpc
    case RIdle => !s.sh.haveUnread[r] && Taken(s.log).None?
    case RSwapped(_) => Taken(s.log) == Some(s.sh.Unread(r))
    case RHasSlot(_, slot) => slot == r && Taken(s.log) == Some(s.sh.Unread(r))
    case RFresh => s.sh.haveUnread[r] && Taken(s.log) == Some(s.sh.Unread(r))
    case RReading(slot) => slot == r && s.sh.haveUnread[r] && Taken(s.log) == Some(s.sh.Unread(r))
    case RCopied(slot) => slot == r && Taken(s.log) == Some(Some(s.readHand))
    case _ => !s.sh.haveUnread[r] && (Taken(s.log).None? || Taken(s.log).value.None?)
  }

  /** The counter value that a blocking read will wait on. */
  function WaitValue(rpc: ReaderPc): Option<nat> {
    match rpc
    case RStopCheck(k) => Some(k)
    case RBegin(mode) => mode
    case RLoaded(mode, _) => mode
    case RSwapped(mode) => mode
    case RHasSlot(mode, _) => mode
    case RWaiting(k) => Some(k)
    case RParked(k) => Some(k)
    case _ => None
  }

  ghost predicate WakeInv<T>(s: State<T>)
    requires WellFormed(s)
  {
    WaitValue(s.rpc).Some? ==>
      var k := WaitValue(s.rpc).value;
      && k <= s.sh.counter
      && (!s.rpc.RStopCheck? && s.sh.stop ==> k < s.sh.counter || s.spc.SFlagged?)
      && (s.rpc.RSwapped? || s.rpc.RHasSlot? || s.rpc.RWaiting? || s.rpc.RParked? ==>
            s.sh.haveUnread[s.sh.M()] ==> k < s.sh.counter || s.wpc.WCommitted?)
      && (s.rpc.RParked? && k < s.sh.counter ==> s.wpc.WNotifying? || s.spc.SNotifying?)
  }

  ghost predicate Inv<T>(s: State<T>) {
    && WellFormed(s)
    && WriterInv(s)
    && ReaderInv(s)
    && WakeInv(s)
    && Fresh(s.log) == s.sh.Unread(s.sh.M())
    && Legal(s.log)
  }

  lemma Append<T>(log: seq<Event<T>>, e: Event<T>)
    ensures (log + [e])[..|log + [e]| - 1] == log && (log + [e])[|log + [e]| - 1] == e
  {
  }

  lemma CommitKeepsInv<T>(s: State<T>)
    requires Inv(s) && s.wpc == WLoaded(s.sh.stateIdx)
    ensures Inv(WriterStep(s, false))
  {
    FlipExchangesRoles(s.sh, true);
    Append(s.log, Commit(s.writeItem));
  }

  lemma FillKeepsInv<T>(s: State<T>)
    requires Inv(s) && s.wpc.WSlot?
    ensures Inv(WriterStep(s, true))
  {
  }

  lemma MarkKeepsInv<T>(s: State<T>)
    requires Inv(s) && s.wpc.WFilled?
    ensures Inv(WriterStep(s, true))
  {
  }

  lemma BumpKeepsInv<T>(s: State<T>)
    requires Inv(s) && s.wpc.WCommitted?
    ensures Inv(WriterStep(s, true))
  {
  }

  /** A notification leaves at most one thing changed: a parked reader re-tests. */
  lemma NotifyKeepsInv<T>(s: State<T>, wpc: WriterPc, spc: StopperPc)
    requires Inv(s)
    requires (s.wpc.WNotifying? && wpc == WIdle && spc == s.spc) || (s.spc.SNotifying? && spc == SIdle && wpc == s.wpc)
    ensures Inv(s.(wpc := wpc, spc := spc, rpc := Notified(s.rpc, s.sh.counter)))
  {
    if Notified(s.rpc, s.sh.counter) != s.rpc {
      assert WaitValue(Notified(s.rpc, s.sh.counter)) == WaitValue(s.rpc);
    } else {
      assert WaitValue(s.rpc).Some? && s.rpc.RParked? ==> s.rpc.k == s.sh.counter;
    }
  }

  lemma WriterLoadKeepsInv<T>(s: State<T>)
    requires Inv(s) && (s.wpc.WMarked? || s.wpc.WLoaded?)
    ensures Inv(WriterStep(s, true))
  {
  }

  lemma WriterKeepsInv<T>(s: State<T>, spurious: bool)
    requires Inv(s) && !s.wpc.WIdle?
    ensures Inv(WriterStep(s, spurious))
  {
    match s.wpc
    case WSlot(_) => FillKeepsInv(s);
    case WFilled(_) => MarkKeepsInv(s);
    case WMarked => WriterLoadKeepsInv(s);
    case WLoaded(expected) =>
      WriterLoadKeepsInv(s);
      if expected == s.sh.stateIdx && !spurious {
        CommitKeepsInv(s);
      }
    case WCommitted => BumpKeepsInv(s);
    case WNotifying => NotifyKeepsInv(s, WIdle, s.spc);
  }

  lemma TakeKeepsInv<T>(s: State<T>)
    requires Inv(s) && s.rpc.RLoaded? && s.rpc.expected == s.sh.stateIdx
    ensures Inv(ReaderStep(s, false))
  {
    FlipExchangesRoles(s.sh, false);
    Append(s.log, Take);
  }

  lemma ReturnKeepsInv<T>(s: State<T>)
    requires Inv(s) && s.rpc.RCopied?
    ensures Inv(ReaderStep(s, false))
  {
    Append(s.log, Return(Some(s.readHand)));
  }

  lemma ReturnEmptyKeepsInv<T>(s: State<T>)
    requires Inv(s) && s.rpc.RHasSlot?
    ensures Inv(ReaderStep(s, false))
  {
    Append(s.log, Return(None));
  }

  lemma StopCheckKeepsInv<T>(s: State<T>)
    requires Inv(s) && s.rpc.RStopCheck?
    ensures Inv(ReaderStep(s, false))
  {
    Append(s.log, ReturnStopped);
  }

  lemma CopyKeepsInv<T>(s: State<T>)
    requires Inv(s) && s.rpc.RReading?
    ensures Inv(ReaderStep(s, false))
  {
  }

  lemma WaitKeepsInv<T>(s: State<T>)
    requires Inv(s) && (s.rpc.RWaiting? || s.rpc.RParked? || s.rpc.RReload?)
    ensures Inv(ReaderStep(s, true))
  {
  }

  lemma ReaderLoadKeepsInv<T>(s: State<T>)
    requires Inv(s) && (s.rpc.RBegin? || s.rpc.RLoaded? || s.rpc.RSwapped? || s.rpc.RFresh?)
    ensures Inv(ReaderStep(s, true))
  {
  }

  lemma ReaderKeepsInv<T>(s: State<T>, spurious: bool)
    requires Inv(s) && !s.rpc.RIdle?
    ensures Inv(ReaderStep(s, spurious))
  {
    match s.rpc
    case RStopCheck(_) => StopCheckKeepsInv(s);
    case RLoaded(_, expected) =>
      ReaderLoadKeepsInv(s);
      if expected == s.sh.stateIdx && !spurious {
        TakeKeepsInv(s);
      }
    case RHasSlot(_, _) => ReturnEmptyKeepsInv(s);
    case RReading(_) => CopyKeepsInv(s);
    case RCopied(_) => ReturnKeepsInv(s);
    case RBegin(_) => ReaderLoadKeepsInv(s);
    case RSwapped(_) => ReaderLoadKeepsInv(s);
    case RFresh => ReaderLoadKeepsInv(s);
    case _ => WaitKeepsInv(s);
  }

  lemma StopKeepsInv<T>(s: State<T>)
    requires Inv(s) && s.spc.SIdle?
    ensures Inv(StopperStep(s))
  {
  }

  lemma StopBumpKeepsInv<T>(s: State<T>)
    requires Inv(s) && s.spc.SFlagged?
    ensures Inv(StopperStep(s))
  {
  }

  lemma StepKeepsInv<T>(s: State<T>, move: Move<T>)
    requires Inv(s) && Enabled(s, move)
    ensures Inv(Step(s, move))
  {
    match move
    case Writer(spurious) => WriterKeepsInv(s, spurious);
    case Reader(spurious) => ReaderKeepsInv(s, spurious);
    case Stopper =>
      match s.spc {
        case SIdle => StopKeepsInv(s);
        case SFlagged => StopBumpKeepsInv(s);
        case SNotifying => NotifyKeepsInv(s, s.wpc, SIdle);
      }
    case _ =>
  }

  // ---------------------------------------------------------------- runs

  /** Every interleaving: each move is enabled in the state that the earlier ones lead to. */
  ghost predicate IsRun<T>(s: State<T>, moves: seq<Move<T>>)
    decreases |moves|
  {
    WellFormed(s) &&
    (moves == [] || (Enabled(s, moves[0]) && IsRun(Step(s, moves[0]), moves[1..])))
  }

  ghost function Exec<T>(s: State<T>, moves: seq<Move<T>>): State<T>
    requires IsRun(s, moves)
    decreases |moves|
  {
    if moves == [] then s else Exec(Step(s, moves[0]), moves[1..])
  }

  lemma {:induction false} RunKeepsInv<T>(s: State<T>, moves: seq<Move<T>>)
    requires Inv(s) && IsRun(s, moves)
    ensures Inv(Exec(s, moves))
    decreases |moves|
  {
    if moves != [] {
      StepKeepsInv(s, moves[0]);
      RunKeepsInv(Step(s, moves[0]), moves[1..]);
    }
  }
}
