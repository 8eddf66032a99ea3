/**
 The class SingleItem with the fields of concurrency/single_item.h. Its methods
 are what one thread does without interference; SoloWrite and SoloRead tie them
 to the interleaved machine of SingleItemProtocol.
 */
module SingleItem {
  import opened Options
  import opened SingleItemProtocol

  function AfterWrite<T>(sh: Shared<T>, item: T): Shared<T>
    requires sh.Valid()
  {
    sh.Fill(sh.W(), item).Mark(sh.W(), true).Flip(true).Bump()
  }

  /** `left` is what the read leaves in the slot: the old item, or the caller's in a swap. */
  function AfterRead<T>(sh: Shared<T>, left: T): Shared<T>
    requires sh.Valid()
  {
    var swapped := sh.Flip(false);
    if swapped.haveUnread[sh.M()] then swapped.Fill(sh.M(), left).Mark(sh.M(), false) else swapped
  }

  /** A write makes its item the register's, whatever was there, and leaves the
      reader's slot as it was. */
  lemma WritePublishes<T>(sh: Shared<T>, item: T)
    requires sh.Valid()
    ensures
      var after := AfterWrite(sh, item);
      && after.Valid() && after.Unread(after.M()) == Some(item)
      && after.R() == sh.R() && after.Unread(after.R()) == sh.Unread(sh.R())
      && after.counter == sh.counter + 1
  {
    FlipExchangesRoles(sh, true);
  }

  /** A read empties the register and leaves the writer's slot as it was. */
  lemma ReadConsumes<T>(sh: Shared<T>, left: T)
    requires sh.Valid() && !sh.haveUnread[sh.R()]
    ensures
      var after := AfterRead(sh, left);
      && after.Valid() && after.Unread(after.M()).None? && !after.haveUnread[after.R()]
      && after.W() == sh.W() && after.Unread(after.W()) == sh.Unread(sh.W())
  {
    FlipExchangesRoles(sh, false);
  }

  // ---------------------------------------------------------------- the machine run alone

  lemma RunCons<T>(s: State<T>, m: Move<T>, rest: seq<Move<T>>)
    requires WellFormed(s) && Enabled(s, m) && IsRun(Step(s, m), rest)
    ensures IsRun(s, [m] + rest) && Exec(s, [m] + rest) == Exec(Step(s, m), rest)
  {
    assert ([m] + rest)[1..] == rest;
  }

  ghost function Times<T>(m: Move<T>, n: nat): seq<Move<T>> {
    if n == 0 then [] else [m] + Times(m, n - 1)
  }

  lemma OneMoreTime<T>(m: Move<T>, n: nat, rest: seq<Move<T>>)
    ensures Times(m, n + 1) + rest == [m] + (Times(m, n) + rest)
    ensures Times(m, 0) + rest == rest
  {
  }

  /** The part of a write after its slot is filled and marked. */
  lemma SoloCommit<T>(s: State<T>)
    requires WellFormed(s) && s.wpc.WMarked?
    ensures IsRun(s, Times(Writer(false), 4))
    ensures
      var t := Exec(s, Times(Writer(false), 4));
      && t.sh == s.sh.Flip(true).Bump() && t.wpc == WIdle
      && t.writeHand == s.writeHand && t.log == s.log + [Commit(s.writeItem)]
  {
    var m: Move<T> := Writer(false);
    FlipExchangesRoles(s.sh, true);
    var s1 := Step(s, m);
    var s2 := Step(s1, m);
    var s3 := Step(s2, m);
    var s4 := Step(s3, m);
    assert IsRun(s4, []);
    RunCons(s3, m, Times(m, 0));
    RunCons(s2, m, Times(m, 1));
    RunCons(s1, m, Times(m, 2));
    RunCons(s, m, Times(m, 3));
  }

  /** Run alone from an idle writer, the machine's write has the effect of the method. */
  lemma SoloWrite<T>(s: State<T>, swap: bool)
    requires WellFormed(s) && s.wpc.WIdle?
    ensures
      var moves := [WriteCall(swap)] + Times(Writer(false), 6);
      && IsRun(s, moves)
      && Exec(s, moves).sh == AfterWrite(s.sh, s.writeHand)
      && Exec(s, moves).wpc == WIdle
      && Exec(s, moves).log == s.log + [Commit(s.writeHand)]
      && Exec(s, moves).writeHand == (if swap then s.sh.slots[s.sh.W()] else s.writeHand)
  {
    var m: Move<T> := Writer(false);
    var s1 := Step(s, WriteCall(swap));
    var s2 := Step(s1, m);
    var s3 := Step(s2, m);
    SoloCommit(s3);
    RunCons(s2, m, Times(m, 4));
    RunCons(s1, m, Times(m, 5));
    RunCons(s, WriteCall(swap), Times(m, 6));
  }

  /** What the reader's first three steps after begin_read has started make of the state. */
  ghost function Looked<T>(s: State<T>): State<T>
    requires WellFormed(s) && s.rpc.RBegin?
  {
    s.(sh := s.sh.Flip(false), rpc := RHasSlot(s.rpc.mode, s.sh.M()), log := s.log + [Take])
  }

  /** The part of a read up to the point where it looks at the slot's mark. */
  lemma SoloTake<T>(s: State<T>, rest: seq<Move<T>>)
    requires WellFormed(s) && s.rpc.RBegin? && IsRun(Looked(s), rest)
    ensures IsRun(s, Times(Reader(false), 3) + rest)
    ensures Exec(s, Times(Reader(false), 3) + rest) == Exec(Looked(s), rest)
  {
    hide Times, IsRun, Exec;
    var m: Move<T> := Reader(false);
    FlipExchangesRoles(s.sh, false);
    var s1 := Step(s, m);
    var s2 := Step(s1, m);
    OneMoreTime(m, 0, rest);
    RunCons(s2, m, rest);
    OneMoreTime(m, 1, rest);
    RunCons(s1, m, Times(m, 1) + rest);
    OneMoreTime(m, 2, rest);
    RunCons(s, m, Times(m, 2) + rest);
  }

  /** The moves of a non-blocking read that finds the register full, or empty. */
  ghost function ReadMoves<T>(swap: bool, full: bool): seq<Move<T>> {
    var m: Move<T> := Reader(false);
    [ReadCall(swap, false)] + (Times(m, 3) + ([m] + if full then Times(m, 3) else []))
  }

  /** The part of a read after begin_read has returned true. */
  lemma SoloCopy<T>(s: State<T>)
    requires WellFormed(s) && s.rpc.RFresh?
    ensures IsRun(s, Times(Reader(false), 3))
    ensures
      var t := Exec(s, Times(Reader(false), 3));
      var r := s.sh.R();
      && t.sh == s.sh.Fill(r, if s.readSwap then s.readHand else s.sh.slots[r]).Mark(r, false)
      && t.rpc == RIdle && t.readHand == s.sh.slots[r]
      && t.log == s.log + [Return(Some(s.sh.slots[r]))]
  {
    var m: Move<T> := Reader(false);
    var s1 := Step(s, m);
    var s2 := Step(s1, m);
    var s3 := Step(s2, m);
    assert IsRun(s3, []);
    RunCons(s2, m, Times(m, 0));
    RunCons(s1, m, Times(m, 1));
    RunCons(s, m, Times(m, 2));
  }

  /** The part of a non-blocking read from its look at the slot's mark. */
  lemma SoloFinish<T>(s: State<T>)
    requires WellFormed(s) && s.rpc == RHasSlot(None, s.sh.R())
    ensures
      var r := s.sh.R();
      var moves := [Reader(false)] + if s.sh.haveUnread[r] then Times(Reader(false), 3) else [];
      && IsRun(s, moves)
      && var t := Exec(s, moves);
         && t.rpc == RIdle && t.log == s.log + [Return(s.sh.Unread(r))]
         && (s.sh.haveUnread[r] ==>
               && t.sh == s.sh.Fill(r, if s.readSwap then s.readHand else s.sh.slots[r]).Mark(r, false)
               && t.readHand == s.sh.slots[r])
         && (!s.sh.haveUnread[r] ==> t.sh == s.sh && t.readHand == s.readHand)
  {
    var t := Step(s, Reader(false));
    if s.sh.haveUnread[s.sh.R()] {
      SoloCopy(t);
      RunCons(s, Reader(false), Times(Reader(false), 3));
    } else {
      assert IsRun(t, []);
      RunCons(s, Reader(false), []);
    }
  }

  /** Run alone from an idle reader, a non-blocking read has the effect of the method. */
  lemma SoloRead<T>(s: State<T>, swap: bool)
    requires WellFormed(s) && s.rpc.RIdle?
    ensures
      var moves := ReadMoves<T>(swap, s.sh.haveUnread[s.sh.M()]);
      && IsRun(s, moves)
      && var t := Exec(s, moves);
         && t.sh == AfterRead(s.sh, if swap then s.readHand else s.sh.slots[s.sh.M()])
         && t.rpc == RIdle
         && t.readHand == (if s.sh.haveUnread[s.sh.M()] then s.sh.slots[s.sh.M()] else s.readHand)
         && t.log == s.log + [Take, Return(s.sh.Unread(s.sh.M()))]
  {
    var m: Move<T> := Reader(false);
    FlipExchangesRoles(s.sh, false);
    var s1 := Step(s, ReadCall(swap, false));
    var s4 := s1.(sh := s.sh.Flip(false), rpc := RHasSlot(None, s.sh.M()), log := s.log + [Take]);
    var rest := [m] + if s.sh.haveUnread[s.sh.M()] then Times(m, 3) else [];
    SoloFinish(s4);
    SoloTake(s1, rest);
    RunCons(s, ReadCall(swap, false), Times(m, 3) + rest);
  }

  // ---------------------------------------------------------------- the class

  class SingleItem<T(0)> {
    const slots: array<T>
    const haveUnread: array<bool>
    var stateIdx: nat
    var updateCounter: nat
    var stopped: bool

    /** Between calls, nothing unread is left in the reader's slot. */
    ghost predicate Valid()
      reads this, haveUnread
    {
      slots.Length == 3 && haveUnread.Length == 3 && stateIdx < 6
      && slots as object != haveUnread as object
      && !haveUnread[TRANSITION_TABLE[stateIdx].readHead]
    }

    ghost function View(): (sh: Shared<T>)
      reads this, slots, haveUnread
    {
      Shared(slots[..], haveUnread[..], stateIdx, updateCounter, stopped)
    }

    constructor ()
      ensures Valid() && fresh(slots) && fresh(haveUnread)
      ensures View().Valid() && View().Unread(View().M()).None? && updateCounter == 0 && !stopped
    {
      slots := new T[3];
      haveUnread := new bool[3](_ => false);
      stateIdx, updateCounter, stopped := 0, 0, false;
    }

    method GetReadSlot() returns (slot: nat)
      requires View().Valid()
      ensures slot == View().R()
    {
      slot := TRANSITION_TABLE[stateIdx].readHead;
    }

    method GetWriteSlot() returns (slot: nat)
      requires View().Valid()
      ensures slot == View().W()
    {
      slot := TRANSITION_TABLE[stateIdx].writeHead;
    }

    /** The compare-and-swap loop; its weak exchange fails `spuriousFailures` times. */
    method BeginReadOrFinishWrite(isWrite: bool, spuriousFailures: nat)
      requires View().Valid()
      modifies this`stateIdx
      ensures View() == old(View()).Flip(isWrite)
    {
      var expected := stateIdx;
      var exchanged := false;
      var failures := spuriousFailures;
      while !exchanged
        invariant exchanged ==> stateIdx == Desired(old(stateIdx), isWrite)
        invariant !exchanged ==> stateIdx == expected == old(stateIdx)
        decreases !exchanged, failures
      {
        var desired :=
          if expected % 2 == (if isWrite then 1 else 0) then (expected + 1) % 6 else (expected + 5) % 6;
        if stateIdx == expected && failures == 0 {
          stateIdx, exchanged := desired, true;
        } else {
          expected, failures := stateIdx, failures - 1;
        }
      }
    }

    method FinishWrite(spuriousFailures: nat)
      requires View().Valid()
      modifies this`stateIdx, this`updateCounter
      ensures View() == old(View()).Flip(true).Bump()
    {
      BeginReadOrFinishWrite(true, spuriousFailures);
      updateCounter := updateCounter + 1;
    }

    method Write(item: T, spuriousFailures: nat)
      requires Valid()
      modifies this`stateIdx, this`updateCounter, slots, haveUnread
      ensures Valid()
      ensures View() == AfterWrite(old(View()), item)
    {
      WritePublishes(View(), item);
      var slot := GetWriteSlot();
      slots[slot] := item;
      haveUnread[slot] := true;
      assert slots[..] == old(slots[..])[slot := item];
      assert haveUnread[..] == old(haveUnread[..])[slot := true];
      FinishWrite(spuriousFailures);
    }

    method SwapWrite(item: T, spuriousFailures: nat) returns (previous: T)
      requires Valid()
      modifies this`stateIdx, this`updateCounter, slots, haveUnread
      ensures Valid()
      ensures View() == AfterWrite(old(View()), item) && previous == old(View().slots[View().W()])
    {
      WritePublishes(View(), item);
      var slot := GetWriteSlot();
      previous := slots[slot];
      slots[slot] := item;
      haveUnread[slot] := true;
      assert slots[..] == old(slots[..])[slot := item];
      assert haveUnread[..] == old(haveUnread[..])[slot := true];
      FinishWrite(spuriousFailures);
    }

    method BeginRead(spuriousFailures: nat) returns (unread: bool)
      requires Valid()
      modifies this`stateIdx
      ensures View() == old(View()).Flip(false)
      ensures unread == old(View().haveUnread[View().M()])
    {
      FlipExchangesRoles(View(), false);
      BeginReadOrFinishWrite(false, spuriousFailures);
      var slot := GetReadSlot();
      unread := haveUnread[slot];
    }

    /** A non-blocking read returns what the register holds, once. */
    method Read(item: T, spuriousFailures: nat) returns (ok: bool, result: T)
      requires Valid()
      modifies this`stateIdx, haveUnread
      ensures Valid()
      ensures ok == old(View().Unread(View().M())).Some?
      ensures result == if ok then old(View().Unread(View().M())).value else item
      ensures View() == AfterRead(old(View()), old(View().slots[View().M()]))
    {
      ReadConsumes(View(), item);
      FlipExchangesRoles(View(), false);
      result := item;
      ok := BeginRead(spuriousFailures);
      if ok {
        var slot := GetReadSlot();
        result := slots[slot];
        haveUnread[slot] := false;
        assert slots[..] == old(slots[..])[slot := result];
        assert haveUnread[..] == old(haveUnread[..])[slot := false];
      }
    }

    method SwapRead(item: T, spuriousFailures: nat) returns (ok: bool, result: T)
      requires Valid()
      modifies this`stateIdx, haveUnread, slots
      ensures Valid()
      ensures ok == old(View().Unread(View().M())).Some?
      ensures result == if ok then old(View().Unread(View().M())).value else item
      ensures View() == AfterRead(old(View()), item)
    {
      ReadConsumes(View(), item);
      FlipExchangesRoles(View(), false);
      result := item;
      ok := BeginRead(spuriousFailures);
      if ok {
        var slot := GetReadSlot();
        result, slots[slot] := slots[slot], item;
        haveUnread[slot] := false;
        assert slots[..] == old(slots[..])[slot := item];
        assert haveUnread[..] == old(haveUnread[..])[slot := false];
      }
    }

    method Stop()
      requires Valid()
      modifies this`stopped, this`updateCounter
      ensures Valid()
      ensures View() == old(View()).(stop := true).Bump()
    {
      stopped := true;
      updateCounter := updateCounter + 1;
    }
  }
}
