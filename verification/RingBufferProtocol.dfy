/**
 The queue of concurrency/ring_buffer.h as a machine of atomic steps: one
 producer, one consumer and one stopper, interleaved in any order, with
 sequentially consistent atomics and the wait/notify_one of section 31.6 of
 ISO/IEC 14882:2020. A thread's load of a counter that only it stores is folded
 into its neighbouring step.
 */
module RingBufferProtocol {
  import opened Options

  // ---------------------------------------------------------------- the circular array

  /** Reduction of an index that is less than two laps ahead. */
  lemma ModOfOneLap(x: nat, n: nat)
    requires 0 < n && x < 2 * n
    ensures x % n == if x < n then x else x - n
  {
    if x >= n {
      assert x % n == (x - n) % n;
    }
  }

  datatype Shared<T> = Shared(data: seq<T>, head: nat, tail: nat, stopped: bool, counter: nat) {
    predicate Valid() {
      head < |data| && tail < |data|
    }

    predicate Full()
      requires Valid()
    {
      (tail + 1) % |data| == head
    }

    predicate Empty() {
      head == tail
    }

    /** num_slots_filled */
    function Filled(): (n: nat)
      requires Valid()
      ensures n < |data|
    {
      if tail - head < 0 then tail - head + |data| else tail - head
    }

    /** The slot `i` places after the head. */
    function At(i: nat): (slot: nat)
      requires Valid() && i < |data|
      ensures slot < |data|
    {
      if head + i < |data| then head + i else head + i - |data|
    }

    /** The queue that the array stands for, oldest item first. */
    function Contents(): (items: seq<T>)
      requires Valid()
      ensures |items| == Filled()
    {
      seq(Filled(), i requires 0 <= i < Filled() => data[At(i)])
    }
  }

  lemma FullAndEmpty<T>(sh: Shared<T>)
    requires sh.Valid()
    ensures sh.Full() <==> |sh.Contents()| == |sh.data| - 1
    ensures sh.Empty() <==> sh.Contents() == []
  {
    ModOfOneLap(sh.tail + 1, |sh.data|);
  }

  /** Filling the tail slot of a queue does not touch the queue. */
  lemma FillKeepsContents<T>(sh: Shared<T>, item: T)
    requires sh.Valid()
    ensures sh.(data := sh.data[sh.tail := item]).Contents() == sh.Contents()
  {
  }

  lemma AdvanceTailAppends<T>(sh: Shared<T>)
    requires sh.Valid() && !sh.Full()
    ensures
      var next := sh.(tail := (sh.tail + 1) % |sh.data|);
      next.Valid() && next.Contents() == sh.Contents() + [sh.data[sh.tail]]
  {
    ModOfOneLap(sh.tail + 1, |sh.data|);
  }

  lemma MoveHeadDrops<T>(sh: Shared<T>, d: nat)
    requires sh.Valid() && d <= sh.Filled()
    ensures
      var next := sh.(head := sh.At(d));
      next.Valid() && next.Contents() == sh.Contents()[d..]
  {
  }

  lemma StepIndices<T>(sh: Shared<T>)
    requires sh.Valid()
    ensures !sh.Empty() ==> (sh.head + 1) % |sh.data| == sh.At(1)
    ensures !sh.Empty() ==> (sh.tail + |sh.data| - 1) % |sh.data| == sh.At(sh.Filled() - 1)
    ensures sh.tail == sh.At(sh.Filled())
  {
    ModOfOneLap(sh.head + 1, |sh.data|);
    ModOfOneLap(sh.tail + |sh.data| - 1, |sh.data|);
  }

  // ---------------------------------------------------------------- the machine

  datatype ProducerPc =
    | PIdle
    | PFullTest              // begin_write: about to load head for full()
    | PHasSlot(slot: nat)    // begin_write returned &data[slot]
    | PFilled(slot: nat)     // end_write: about to run its CHECKs
    | PChecked               // end_write: about to store tail
    | PPublished             // about to increase update_counter
    | PNotifying             // about to notify_one
    | PAborted               // a CHECK failed

  datatype ReadKind = Oldest | Latest

  datatype ConsumerPc =
    | CIdle
    | CStopTest(k: nat)       // block_until...: about to load stopped, having loaded k
    | CEmptyTest(k: nat)      // block_until...: about to load tail for empty()
    | CWaiting(k: nat)        // about to compare inside wait(k)
    | CParked(k: nat)         // blocked inside wait(k)
    | CReload                 // wait returned; about to load update_counter
    | CAssertStopped          // block_until...: the CHECK loads stopped
    | CAssertNonempty         // block_until...: the CHECK loads tail
    | CReadStopTest           // begin_read: about to load stopped
    | CReadEmptyTest          // begin_read: about to load tail for empty()
    | CLatestEmptyTest        // begin_read_latest: about to load tail for empty()
    | CLatestStopTest         // begin_read_latest: about to load stopped
    | CLatestLoad             // begin_read_latest: about to load tail again
    | CLatestStore(slot: nat) // begin_read_latest: about to store head
    | CHasItem(slot: nat)     // begin_read returned &data[slot]
    | CCopied(slot: nat)      // end_read: about to run its CHECKs
    | CChecked                // end_read: about to store head
    | CClearStore(slot: nat)  // clear: about to store head
    | CAborted                // a CHECK failed

  datatype StopperPc = SIdle | SFlagged | SNotifying

  /** How an item left the queue. */
  datatype Exit<T> = Delivered(item: T) | Dropped(item: T)

  /** `puts` and `exits` are the ledger: items in order of the tail stores, and of the
      head stores. `seen` is |puts| at the newest load of tail by read_latest or clear. */
  datatype State<T> = State(
    sh: Shared<T>,
    ppc: ProducerPc,
    item: T,          // the argument of the write in progress
    cpc: ConsumerPc,
    kind: ReadKind,
    hand: T,          // the consumer's copy of the item read
    spc: StopperPc,
    puts: seq<T>,
    exits: seq<Exit<T>>,
    seen: nat
  )

  datatype Move<T> =
    | WriteCall(item: T)
    | Producer
    | ReadCall(kind: ReadKind, blocking: bool)
    | ClearCall
    | Consumer(spurious: bool)
    | Stopper

  predicate WellFormed<T>(s: State<T>) {
    && s.sh.Valid()
    && (s.ppc.PHasSlot? || s.ppc.PFilled? ==> s.ppc.slot < |s.sh.data|)
    && (s.cpc.CHasItem? || s.cpc.CCopied? || s.cpc.CLatestStore? || s.cpc.CClearStore? ==> s.cpc.slot < |s.sh.data|)
  }

  predicate Enabled<T>(s: State<T>, move: Move<T>) {
    match move
    case WriteCall(_) => s.ppc.PIdle?
    case Producer => !s.ppc.PIdle? && !s.ppc.PAborted?
    case ReadCall(_, _) => s.cpc.CIdle?
    case ClearCall => s.cpc.CIdle?
    case Consumer(spurious) => !s.cpc.CIdle? && !s.cpc.CAborted? && (s.cpc.CParked? ==> spurious)
    case Stopper => true
  }

  function Notified(cpc: ConsumerPc, counter: nat): ConsumerPc {
    if cpc.CParked? && cpc.k != counter then CWaiting(cpc.k) else cpc
  }

  function Bumped<T>(sh: Shared<T>): Shared<T> {
    sh.(counter := sh.counter + 1)
  }

  function ProducerStep<T>(s: State<T>): State<T>
    requires WellFormed(s) && !s.ppc.PIdle? && !s.ppc.PAborted?
  {
    match s.ppc
    case PFullTest => s.(ppc := if s.sh.Full() then PIdle else PHasSlot(s.sh.tail))
    case PHasSlot(slot) => s.(sh := s.sh.(data := s.sh.data[slot := s.item]), ppc := PFilled(slot))
    case PFilled(slot) => s.(ppc := if s.sh.Full() || slot != s.sh.tail then PAborted else PChecked)
    case PChecked =>
      s.(sh := s.sh.(tail := (s.sh.tail + 1) % |s.sh.data|), ppc := PPublished, puts := s.puts + [s.item])
    case PPublished => s.(sh := Bumped(s.sh), ppc := PNotifying)
    case PNotifying => s.(ppc := PIdle, cpc := Notified(s.cpc, s.sh.counter))
  }

  /** block_until_stopped_or_nonempty, and the tests that begin_read and
      begin_read_latest make on their own. */
  function TestStep<T>(s: State<T>): State<T>
    requires WellFormed(s) && Testing(s.cpc)
  {
    match s.cpc
    case CStopTest(k) => s.(cpc := if s.sh.stopped then CAssertStopped else CEmptyTest(k))
    case CEmptyTest(k) => s.(cpc := if s.sh.Empty() then CWaiting(k) else CAssertStopped)
    case CWaiting(k) => s.(cpc := if s.sh.counter == k then CParked(k) else CReload)
    case CParked(k) => s.(cpc := CWaiting(k))
    case CReload => s.(cpc := CStopTest(s.sh.counter))
    case CAssertStopped => s.(cpc := if s.sh.stopped then Begin(s.kind) else CAssertNonempty)
    case CAssertNonempty => s.(cpc := if s.sh.Empty() then CAborted else Begin(s.kind))
    case CReadStopTest => s.(cpc := if s.sh.stopped then CIdle else CReadEmptyTest)
    case CReadEmptyTest => s.(cpc := if s.sh.Empty() then CIdle else CHasItem(s.sh.head))
    case CLatestEmptyTest => s.(cpc := if s.sh.Empty() then CIdle else CLatestStopTest)
    case CLatestStopTest => s.(cpc := if s.sh.stopped then CIdle else CLatestLoad)
  }

  predicate Testing(cpc: ConsumerPc) {
    || cpc.CStopTest? || cpc.CEmptyTest? || cpc.CWaiting? || cpc.CParked? || cpc.CReload?
    || cpc.CAssertStopped? || cpc.CAssertNonempty? || cpc.CReadStopTest? || cpc.CReadEmptyTest?
    || cpc.CLatestEmptyTest? || cpc.CLatestStopTest?
  }

  function Begin(kind: ReadKind): ConsumerPc {
    if kind.Oldest? then CReadStopTest else CLatestEmptyTest
  }

  /** How many items a store of `slot` to head takes off the queue. */
  function Distance<T>(sh: Shared<T>, slot: nat): (d: nat)
    requires sh.Valid() && slot < |sh.data|
  {
    if slot < sh.head then slot + |sh.data| - sh.head else slot - sh.head
  }

  function Drops<T>(items: seq<T>): (exits: seq<Exit<T>>)
    ensures |exits| == |items|
  {
    seq(|items|, i requires 0 <= i < |items| => Dropped(items[i]))
  }

  /** A store to head that skips items without reading them. */
  function SkipTo<T>(s: State<T>, slot: nat): State<T>
    requires WellFormed(s) && slot < |s.sh.data|
  {
    var d := Distance(s.sh, slot);
    s.(sh := s.sh.(head := slot),
       exits := s.exits + Drops(if d <= s.sh.Filled() then s.sh.Contents()[..d] else s.sh.Contents()))
  }

  function ConsumerStep<T>(s: State<T>): State<T>
    requires WellFormed(s) && !s.cpc.CIdle? && !s.cpc.CAborted?
  {
    if Testing(s.cpc) then TestStep(s) else
    match s.cpc
    case CLatestLoad =>
      s.(cpc := CLatestStore((s.sh.tail + |s.sh.data| - 1) % |s.sh.data|), seen := |s.puts|)
    case CLatestStore(slot) => SkipTo(s, slot).(cpc := CHasItem(slot))
    case CHasItem(slot) => s.(cpc := CCopied(slot), hand := s.sh.data[slot])
    case CCopied(slot) => s.(cpc := if slot != s.sh.head || s.sh.Empty() then CAborted else CChecked)
    case CChecked =>
      s.(sh := s.sh.(head := (s.sh.head + 1) % |s.sh.data|), cpc := CIdle, exits := s.exits + [Delivered(s.hand)])
    case CClearStore(slot) => SkipTo(s, slot).(cpc := CIdle)
  }

  function StopperStep<T>(s: State<T>): State<T> {
    match s.spc
    case SIdle => s.(sh := s.sh.(stopped := true), spc := SFlagged)
    case SFlagged => s.(sh := Bumped(s.sh), spc := SNotifying)
    case SNotifying => s.(spc := SIdle, cpc := Notified(s.cpc, s.sh.counter))
  }

  function Step<T>(s: State<T>, move: Move<T>): State<T>
    requires WellFormed(s) && Enabled(s, move)
  {
    match move
    case WriteCall(item) => s.(ppc := PFullTest, item := item)
    case Producer => ProducerStep(s)
    case ReadCall(kind, blocking) =>
      s.(cpc := if blocking then CStopTest(s.sh.counter) else Begin(kind), kind := kind)
    case ClearCall => s.(cpc := CClearStore(s.sh.tail), seen := |s.puts|)
    case Consumer(_) => ConsumerStep(s)
    case Stopper => StopperStep(s)
  }

  ghost predicate Init<T>(s: State<T>) {
    && s.sh.Valid() && s.sh.head == 0 && s.sh.tail == 0 && s.sh.counter == 0 && !s.sh.stopped
    && s.ppc == PIdle && s.cpc == CIdle && s.spc == SIdle && s.puts == [] && s.exits == []
  }

  // ---------------------------------------------------------------- the invariant

  function Items<T>(exits: seq<Exit<T>>): (items: seq<T>)
    ensures |items| == |exits|
  {
    seq(|exits|, i requires 0 <= i < |exits| => exits[i].item)
  }

  /** Every item written has left the queue or is in it, in the order written. */
  ghost predicate Ledger<T>(s: State<T>)
    requires WellFormed(s)
  {
    Items(s.exits) + s.sh.Contents() == s.puts
  }

  ghost predicate ProducerInv<T>(s: State<T>)
    requires WellFormed(s)
  {
    match s.ppc
    case PHasSlot(slot) => slot == s.sh.tail && !s.sh.Full()
    case PFilled(slot) => slot == s.sh.tail && !s.sh.Full() && s.sh.data[slot] == s.item
    case PChecked => !s.sh.Full() && s.sh.data[s.sh.tail] == s.item
    case PAborted => false
    case _ => true
  }

  ghost predicate ConsumerInv<T>(s: State<T>)
    requires WellFormed(s)
  {
    match s.cpc
    case CAssertStopped => s.sh.stopped || !s.sh.Empty()
    case CAssertNonempty => !s.sh.Empty()
    case CLatestStopTest => s.kind.Latest? && !s.sh.Empty()
    case CLatestLoad => s.kind.Latest? && !s.sh.Empty()
    case CReadStopTest => s.kind.Oldest?
    case CReadEmptyTest => s.kind.Oldest?
    case CLatestEmptyTest => s.kind.Latest?
    case CLatestStore(slot) => s.kind.Latest? && s.seen <= |s.puts| && SkipInv(s, slot, s.seen - 1)
    case CHasItem(slot) => slot == s.sh.head && !s.sh.Empty() && LatestInv(s)
    case CCopied(slot) => slot == s.sh.head && !s.sh.Empty() && s.hand == s.sh.data[slot] && LatestInv(s)
    case CChecked => !s.sh.Empty() && s.hand == s.sh.data[s.sh.head] && LatestInv(s)
    case CClearStore(slot) => SkipInv(s, slot, s.seen)
    case CAborted => false
    case _ => true
  }

  /** The slot to be stored in head is where the write after the first `keepFrom` went. */
  ghost predicate SkipInv<T>(s: State<T>, slot: nat, keepFrom: int)
    requires WellFormed(s)
  {
    && |s.exits| <= keepFrom <= |s.puts|
    && keepFrom - |s.exits| <= s.sh.Filled()
    && slot == s.sh.At(keepFrom - |s.exits|)
  }

  ghost predicate LatestInv<T>(s: State<T>) {
    s.kind.Latest? ==> |s.exits| == s.seen - 1
  }

  function WaitValue(cpc: ConsumerPc): Option<nat> {
    match cpc
    case CStopTest(k) => Some(k)
    case CEmptyTest(k) => Some(k)
    case CWaiting(k) => Some(k)
    case CParked(k) => Some(k)
    case _ => None
  }

  ghost predicate WakeInv<T>(s: State<T>) {
    WaitValue(s.cpc).Some? ==>
      var k := WaitValue(s.cpc).value;
      && k <= s.sh.counter
      && (!s.cpc.CStopTest? && s.sh.stopped ==> k < s.sh.counter || s.spc.SFlagged?)
      && ((s.cpc.CWaiting? || s.cpc.CParked?) && !s.sh.Empty() ==> k < s.sh.counter || s.ppc.PPublished?)
      && (s.cpc.CParked? && k < s.sh.counter ==> s.ppc.PNotifying? || s.spc.SNotifying?)
  }

  ghost predicate Inv<T>(s: State<T>) {
    && WellFormed(s)
    && Ledger(s)
    && ProducerInv(s)
    && ConsumerInv(s)
    && WakeInv(s)
  }

  lemma FillKeepsInv<T>(s: State<T>)
    requires Inv(s) && s.ppc.PHasSlot?
    ensures Inv(ProducerStep(s))
  {
    FillKeepsContents(s.sh, s.item);
  }

  lemma PublishKeepsInv<T>(s: State<T>)
    requires Inv(s) && s.ppc.PChecked?
    ensures Inv(ProducerStep(s))
  {
    AdvanceTailAppends(s.sh);
    ModOfOneLap(s.sh.tail + 1, |s.sh.data|);
  }

  lemma NotifyKeepsInv<T>(s: State<T>, ppc: ProducerPc, spc: StopperPc)
    requires Inv(s)
    requires (s.ppc.PNotifying? && ppc == PIdle && spc == s.spc) || (s.spc.SNotifying? && spc == SIdle && ppc == s.ppc)
    ensures Inv(s.(ppc := ppc, spc := spc, cpc := Notified(s.cpc, s.sh.counter)))
  {
  }

  /** In particular the CHECKs of end_write hold. */
  lemma ProducerTestKeepsInv<T>(s: State<T>)
    requires Inv(s) && (s.ppc.PFullTest? || s.ppc.PFilled?)
    ensures Inv(ProducerStep(s))
  {
  }

  lemma BumpKeepsInv<T>(s: State<T>)
    requires Inv(s) && s.ppc.PPublished?
    ensures Inv(ProducerStep(s))
  {
  }

  lemma ProducerKeepsInv<T>(s: State<T>)
    requires Inv(s) && !s.ppc.PIdle?
    ensures Inv(ProducerStep(s))
  {
    match s.ppc
    case PFullTest => ProducerTestKeepsInv(s);
    case PHasSlot(_) => FillKeepsInv(s);
    case PFilled(_) => ProducerTestKeepsInv(s);
    case PChecked => PublishKeepsInv(s);
    case PPublished => BumpKeepsInv(s);
    case PNotifying => NotifyKeepsInv(s, PIdle, s.spc);
  }

  lemma TestKeepsInv<T>(s: State<T>)
    requires Inv(s) && Testing(s.cpc)
    ensures Inv(TestStep(s))
  {
  }

  lemma ItemsOfDrops<T>(exits: seq<Exit<T>>, items: seq<T>)
    ensures Items(exits + Drops(items)) == Items(exits) + items
  {
  }

  lemma DistanceOfAt<T>(sh: Shared<T>, d: nat)
    requires sh.Valid() && d < |sh.data|
    ensures Distance(sh, sh.At(d)) == d
  {
  }

  /** A skip moves just a prefix of the contents to the exits. */
  lemma SkipMovesPrefix<T>(s: State<T>, slot: nat, keepFrom: int)
    requires WellFormed(s) && slot < |s.sh.data| && SkipInv(s, slot, keepFrom)
    ensures
      var t, d := SkipTo(s, slot), keepFrom - |s.exits|;
      && t == s.(sh := s.sh.(head := slot), exits := s.exits + Drops(s.sh.Contents()[..d]))
      && t.sh.Valid() && t.sh.Contents() == s.sh.Contents()[d..]
  {
    hide Drops;
    var d := keepFrom - |s.exits|;
    DistanceOfAt(s.sh, d);
    MoveHeadDrops(s.sh, d);
  }

  /** A queue that has only lost items is full only if it was. */
  lemma ProducerSurvivesSkip<T>(s: State<T>, t: State<T>)
    requires WellFormed(s) && WellFormed(t) && ProducerInv(s)
    requires t.ppc == s.ppc && t.item == s.item && t.sh == s.sh.(head := t.sh.head)
    requires |t.sh.Contents()| <= |s.sh.Contents()|
    ensures ProducerInv(t)
  {
    FullAndEmpty(s.sh);
    FullAndEmpty(t.sh);
  }

  lemma SkipKeepsLedger<T>(s: State<T>, slot: nat, keepFrom: int, cpc: ConsumerPc)
    requires Inv(s) && slot < |s.sh.data| && SkipInv(s, slot, keepFrom) && WellFormed(s.(cpc := cpc))
    ensures
      var t := SkipTo(s, slot).(cpc := cpc);
      && WellFormed(t) && Ledger(t) && |t.exits| == keepFrom
      && t.sh.Contents() == s.sh.Contents()[keepFrom - |s.exits|..]
      && ProducerInv(t)
      && t.sh.head == slot && t.kind == s.kind && t.seen == s.seen && t.puts == s.puts
  {
    hide SkipTo, ProducerInv, ConsumerInv, WakeInv, Items, Drops, Shared.Contents;
    var d := keepFrom - |s.exits|;
    var t := SkipTo(s, slot).(cpc := cpc);
    var items := s.sh.Contents();
    SkipMovesPrefix(s, slot, keepFrom);
    ItemsOfDrops(s.exits, items[..d]);
    assert items[..d] + items[d..] == items;
    assert (Items(s.exits) + items[..d]) + items[d..] == Items(s.exits) + items;
    ProducerSurvivesSkip(s, t);
  }

  lemma ItemsWaiting<T>(s: State<T>)
    requires WellFormed(s) && Ledger(s)
    ensures |s.sh.Contents()| == |s.puts| - |s.exits|
  {
    assert |Items(s.exits)| == |s.exits|;
  }

  lemma LatestLoadKeepsInv<T>(s: State<T>)
    requires Inv(s) && s.cpc.CLatestLoad?
    ensures Inv(ConsumerStep(s))
  {
    StepIndices(s.sh);
  }

  lemma LatestStoreKeepsInv<T>(s: State<T>)
    requires Inv(s) && s.cpc.CLatestStore?
    ensures Inv(ConsumerStep(s))
  {
    hide SkipTo, ProducerInv, Ledger, Shared.Contents, Shared.At;
    ItemsWaiting(s);
    SkipKeepsLedger(s, s.cpc.slot, s.seen - 1, CHasItem(s.cpc.slot));
    FullAndEmpty(ConsumerStep(s).sh);
  }

  lemma ClearStoreKeepsInv<T>(s: State<T>)
    requires Inv(s) && s.cpc.CClearStore?
    ensures Inv(ConsumerStep(s))
  {
    hide SkipTo, ProducerInv, Ledger, Shared.Contents, Shared.At;
    SkipKeepsLedger(s, s.cpc.slot, s.seen, CIdle);
  }

  lemma EndReadKeepsInv<T>(s: State<T>)
    requires Inv(s) && s.cpc.CChecked?
    ensures Inv(ConsumerStep(s))
  {
    hide ProducerInv, Items, Shared.Contents, Shared.At;
    var t, items := ConsumerStep(s), s.sh.Contents();
    StepIndices(s.sh);
    MoveHeadDrops(s.sh, 1);
    FullAndEmpty(s.sh);
    FirstItemIsAtHead(s.sh);
    ItemsOfDelivery(s.exits, s.hand);
    assert [items[0]] + items[1..] == items;
    assert (Items(s.exits) + [items[0]]) + items[1..] == Items(s.exits) + items;
    ProducerSurvivesSkip(s, t);
  }

  lemma FirstItemIsAtHead<T>(sh: Shared<T>)
    requires sh.Valid() && !sh.Empty()
    ensures sh.Contents() != [] && sh.Contents()[0] == sh.data[sh.head]
  {
  }

  lemma ItemsOfDelivery<T>(exits: seq<Exit<T>>, item: T)
    ensures Items(exits + [Delivered(item)]) == Items(exits) + [item]
  {
  }

  /** In particular the CHECKs of end_read hold. */
  lemma CopyKeepsInv<T>(s: State<T>)
    requires Inv(s) && (s.cpc.CHasItem? || s.cpc.CCopied?)
    ensures Inv(ConsumerStep(s))
  {
  }

  lemma ConsumerKeepsInv<T>(s: State<T>)
    requires Inv(s) && !s.cpc.CIdle?
    ensures Inv(ConsumerStep(s))
  {
    match s.cpc
    case CLatestLoad => LatestLoadKeepsInv(s);
    case CLatestStore(_) => LatestStoreKeepsInv(s);
    case CHasItem(_) => CopyKeepsInv(s);
    case CCopied(_) => CopyKeepsInv(s);
    case CChecked => EndReadKeepsInv(s);
    case CClearStore(_) => ClearStoreKeepsInv(s);
    case _ => TestKeepsInv(s);
  }

  lemma StopKeepsInv<T>(s: State<T>)
    requires Inv(s) && s.spc.SIdle?
    ensures Inv(StopperStep(s))
  {
  }

  lemma StopBumpKeepsInv<T>(s: State<T>)
    requires Inv(s) && s.spc.SFlagged?
    ensures Inv(StopperStep(s))
  {
  }

  lemma ClearCallKeepsInv<T>(s: State<T>)
    requires Inv(s) && s.cpc.CIdle?
    ensures Inv(Step(s, ClearCall))
  {
    StepIndices(s.sh);
  }

  lemma StepKeepsInv<T>(s: State<T>, move: Move<T>)
    requires Inv(s) && Enabled(s, move)
    ensures Inv(Step(s, move))
  {
    match move
    case Producer => ProducerKeepsInv(s);
    case Consumer(_) => ConsumerKeepsInv(s);
    case ClearCall => ClearCallKeepsInv(s);
    case Stopper =>
      match s.spc {
        case SIdle => StopKeepsInv(s);
        case SFlagged => StopBumpKeepsInv(s);
        case SNotifying => NotifyKeepsInv(s, s.ppc, SIdle);
      }
    case _ =>
  }

  // ---------------------------------------------------------------- runs

  ghost predicate IsRun<T>(s: State<T>, moves: seq<Move<T>>)
    decreases |moves|
  {
    WellFormed(s) &&
    (moves == [] || (Enabled(s, moves[0]) && IsRun(Step(s, moves[0]), moves[1..])))
  }

  ghost function Exec<T>(s: State<T>, moves: seq<Move<T>>): State<T>
    requires IsRun(s, moves)
    decreases |moves|
  {
    if moves == [] then s else Exec(Step(s, moves[0]), moves[1..])
  }

  lemma {:induction false} RunKeepsInv<T>(s: State<T>, moves: seq<Move<T>>)
    requires Inv(s) && IsRun(s, moves)
    ensures Inv(Exec(s, moves))
    decreases |moves|
  {
    if moves != [] {
      StepKeepsInv(s, moves[0]);
      RunKeepsInv(Step(s, moves[0]), moves[1..]);
    }
  }
}
