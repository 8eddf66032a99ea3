/**
 The class RingBuffer with the fields of concurrency/ring_buffer.h. Its methods
 are what one thread does without interference; slots are named by index where
 the original hands out pointers.
 */
module RingBuffer {
  import opened Options
  import opened RingBufferProtocol

  // ---------------------------------------------------------------- the machine run alone

  ghost function Repeat<T>(m: Move<T>, n: nat): seq<Move<T>> {
    if n == 0 then [] else [m] + Repeat(m, n - 1)
  }

  lemma RunCons<T>(s: State<T>, m: Move<T>, rest: seq<Move<T>>)
    requires WellFormed(s) && Enabled(s, m) && IsRun(Step(s, m), rest)
    ensures IsRun(s, [m] + rest) && Exec(s, [m] + rest) == Exec(Step(s, m), rest)
  {
    assert ([m] + rest)[1..] == rest;
  }

  lemma EmptyRun<T>(s: State<T>)
    requires WellFormed(s)
    ensures IsRun(s, []) && Exec(s, []) == s
  {
  }

  /** The end of a write, from its store of tail. */
  lemma SoloStoreTail<T>(s: State<T>)
    requires WellFormed(s) && s.ppc == PChecked && !s.sh.Full()
    ensures IsRun(s, Repeat(Producer, 3))
    ensures
      var t := Exec(s, Repeat(Producer, 3));
      && WellFormed(t) && t.sh.Contents() == s.sh.Contents() + [s.sh.data[s.sh.tail]]
      && t.ppc == PIdle && t.puts == s.puts + [s.item]
  {
    hide IsRun, Exec, Shared.Contents, Shared.Full;
    AdvanceTailAppends(s.sh);
    var s1 := Step(s, Producer);
    var s2 := Step(s1, Producer);
    var s3 := Step(s2, Producer);
    EmptyRun(s3);
    RunCons(s2, Producer, Repeat(Producer, 0));
    RunCons(s1, Producer, Repeat(Producer, 1));
    RunCons(s, Producer, Repeat(Producer, 2));
    ContentsIgnoreCounter(s1.sh, s3.sh);
  }

  /** The part of a write after begin_write has returned a slot. */
  lemma SoloPublish<T>(s: State<T>)
    requires WellFormed(s) && s.ppc == PHasSlot(s.sh.tail) && !s.sh.Full()
    ensures IsRun(s, Repeat(Producer, 5))
    ensures
      var t := Exec(s, Repeat(Producer, 5));
      && WellFormed(t) && t.sh.Contents() == s.sh.Contents() + [s.item]
      && t.ppc == PIdle && t.puts == s.puts + [s.item]
  {
    hide IsRun, Exec, Shared.Contents;
    FillKeepsContents(s.sh, s.item);
    var s1 := Step(s, Producer);
    var s2 := Step(s1, Producer);
    SoloStoreTail(s2);
    RunCons(s1, Producer, Repeat(Producer, 3));
    RunCons(s, Producer, Repeat(Producer, 4));
  }

  lemma ContentsIgnoreCounter<T>(a: Shared<T>, b: Shared<T>)
    requires a.Valid() && b.Valid() && a.data == b.data && a.head == b.head && a.tail == b.tail
    ensures a.Contents() == b.Contents()
  {
  }

  /** Run alone from an idle producer, the machine's write has the effect of the method. */
  lemma SoloWrite<T>(s: State<T>, item: T)
    requires WellFormed(s) && s.ppc.PIdle?
    ensures
      var ok := |s.sh.Contents()| < |s.sh.data| - 1;
      var moves := [WriteCall(item)] + ([Producer] + Repeat(Producer, if ok then 5 else 0));
      && IsRun(s, moves)
      && var t := Exec(s, moves);
         && WellFormed(t) && t.ppc == PIdle
         && t.sh.Contents() == (if ok then s.sh.Contents() + [item] else s.sh.Contents())
         && t.puts == (if ok then s.puts + [item] else s.puts)
  {
    hide IsRun, Exec, Shared.Contents;
    FullAndEmpty(s.sh);
    var s1 := Step(s, WriteCall(item));
    var s2 := Step(s1, Producer);
    if s.sh.Full() {
      EmptyRun(s2);
      RunCons(s1, Producer, Repeat(Producer, 0));
      RunCons(s, WriteCall(item), [Producer] + Repeat(Producer, 0));
    } else {
      SoloPublish(s2);
      RunCons(s1, Producer, Repeat(Producer, 5));
      RunCons(s, WriteCall(item), [Producer] + Repeat(Producer, 5));
    }
  }

  /** The part of a read after begin_read or begin_read_latest has returned a slot. */
  lemma SoloTake<T>(s: State<T>)
    requires WellFormed(s) && s.cpc == CHasItem(s.sh.head) && !s.sh.Empty()
    ensures IsRun(s, Repeat(Consumer(false), 3))
    ensures
      var t := Exec(s, Repeat(Consumer(false), 3));
      && WellFormed(t) && s.sh.Contents() == [t.hand] + t.sh.Contents()
      && t.cpc == CIdle && t.exits == s.exits + [Delivered(t.hand)]
  {
    hide IsRun, Exec, Shared.Contents;
    var m: Move<T> := Consumer(false);
    FirstItemIsAtHead(s.sh);
    StepIndices(s.sh);
    MoveHeadDrops(s.sh, 1);
    var items := s.sh.Contents();
    assert [items[0]] + items[1..] == items;
    var s1 := Step(s, m);
    var s2 := Step(s1, m);
    var s3 := Step(s2, m);
    EmptyRun(s3);
    RunCons(s2, m, Repeat(m, 0));
    RunCons(s1, m, Repeat(m, 1));
    RunCons(s, m, Repeat(m, 2));
  }

  /** Run alone from an idle consumer, a non-blocking read has the effect of the method. */
  lemma SoloRead<T>(s: State<T>)
    requires WellFormed(s) && s.cpc.CIdle?
    ensures
      var steps := if s.sh.stopped then 1 else if s.sh.Contents() == [] then 2 else 5;
      var moves := [ReadCall(Oldest, false)] + Repeat(Consumer(false), steps);
      && IsRun(s, moves)
      && var t := Exec(s, moves);
         && WellFormed(t) && t.cpc == CIdle
         && (steps < 5 ==> t.sh == s.sh && t.hand == s.hand && t.exits == s.exits)
         && (steps == 5 ==>
               s.sh.Contents() == [t.hand] + t.sh.Contents() && t.exits == s.exits + [Delivered(t.hand)])
  {
    hide IsRun, Exec, Shared.Contents;
    var m: Move<T> := Consumer(false);
    FullAndEmpty(s.sh);
    var s1 := Step(s, ReadCall(Oldest, false));
    var s2 := Step(s1, m);
    if s.sh.stopped {
      EmptyRun(s2);
      RunCons(s1, m, Repeat(m, 0));
      RunCons(s, ReadCall(Oldest, false), Repeat(m, 1));
    } else {
      var s3 := Step(s2, m);
      if s.sh.Empty() {
        EmptyRun(s3);
        RunCons(s2, m, Repeat(m, 0));
        RunCons(s1, m, Repeat(m, 1));
        RunCons(s, ReadCall(Oldest, false), Repeat(m, 2));
      } else {
        SoloTake(s3);
        RunCons(s2, m, Repeat(m, 3));
        RunCons(s1, m, Repeat(m, 4));
        RunCons(s, ReadCall(Oldest, false), Repeat(m, 5));
      }
    }
  }

  /** The load of tail and the store of head in begin_read_latest. */
  lemma SoloSkip<T>(s: State<T>)
    requires WellFormed(s) && s.cpc.CLatestLoad? && !s.sh.Empty()
    ensures
      var t := Step(Step(s, Consumer(false)), Consumer(false));
      && WellFormed(t) && t.cpc == CHasItem(t.sh.head)
      && t.sh.Contents() == [s.sh.Contents()[|s.sh.Contents()| - 1]]
  {
    hide Shared.Contents, Drops;
    StepIndices(s.sh);
    var last := s.sh.Filled() - 1;
    MoveHeadDrops(s.sh, last);
  }

  /** And read_latest, on a queue that is neither stopped nor empty. */
  lemma SoloReadLatest<T>(s: State<T>)
    requires WellFormed(s) && s.cpc.CIdle? && !s.sh.stopped && s.sh.Contents() != []
    ensures
      var moves := [ReadCall(Latest, false)] + Repeat(Consumer(false), 7);
      && IsRun(s, moves)
      && var t := Exec(s, moves);
         && WellFormed(t) && t.cpc == CIdle && t.sh.Contents() == []
         && t.hand == s.sh.Contents()[|s.sh.Contents()| - 1]
  {
    hide IsRun, Exec, Shared.Contents, Step, Enabled;
    var m: Move<T> := Consumer(false);
    FullAndEmpty(s.sh);
    SoloReadLatestFrom(s.(cpc := CLatestLoad, kind := Latest));
    SoloTestLatest(s);
    var s1 := Step(s, ReadCall(Latest, false));
    RunCons(Step(s1, m), m, Repeat(m, 5));
    RunCons(s1, m, Repeat(m, 6));
    RunCons(s, ReadCall(Latest, false), Repeat(m, 7));
  }

  lemma SoloTestLatest<T>(s: State<T>)
    requires WellFormed(s) && s.cpc.CIdle? && !s.sh.stopped && !s.sh.Empty()
    ensures Enabled(s, ReadCall(Latest, false))
    ensures
      var s1 := Step(s, ReadCall(Latest, false));
      && WellFormed(s1) && Enabled(s1, Consumer(false))
      && WellFormed(Step(s1, Consumer(false))) && Enabled(Step(s1, Consumer(false)), Consumer(false))
      && Step(Step(s1, Consumer(false)), Consumer(false)) == s.(cpc := CLatestLoad, kind := Latest)
  {
  }

  lemma SoloReadLatestFrom<T>(s: State<T>)
    requires WellFormed(s) && s.cpc.CLatestLoad? && !s.sh.Empty()
    ensures IsRun(s, Repeat(Consumer(false), 5))
    ensures
      var t := Exec(s, Repeat(Consumer(false), 5));
      && WellFormed(t) && t.cpc == CIdle && t.sh.Contents() == []
      && t.hand == s.sh.Contents()[|s.sh.Contents()| - 1]
  {
    hide IsRun, Exec, Shared.Contents, Drops;
    var m: Move<T> := Consumer(false);
    var s1 := Step(s, m);
    var s2 := Step(s1, m);
    SoloSkip(s);
    FullAndEmpty(s2.sh);
    SoloTake(s2);
    var t := Exec(s2, Repeat(m, 3));
    assert ([t.hand] + t.sh.Contents())[0] == t.hand && |[t.hand] + t.sh.Contents()| == 1;
    RunCons(s1, m, Repeat(m, 3));
    RunCons(s, m, Repeat(m, 4));
  }

  lemma SoloClear<T>(s: State<T>)
    requires WellFormed(s) && s.cpc.CIdle?
    ensures
      var moves: seq<Move<T>> := [ClearCall] + [Consumer(false)];
      && IsRun(s, moves)
      && var t := Exec(s, moves);
         WellFormed(t) && t.cpc == CIdle && t.sh.Contents() == []
  {
    hide IsRun, Exec, Shared.Contents, Drops;
    var s1 := Step(s, ClearCall);
    var s2 := Step(s1, Consumer(false));
    FullAndEmpty(s2.sh);
    EmptyRun(s2);
    var last: seq<Move<T>> := [Consumer(false)];
    assert last + [] == last;
    RunCons(s1, Consumer(false), []);
    RunCons(s, ClearCall, last);
  }

  // ---------------------------------------------------------------- the class

  class RingBuffer<T(0)> {
    const data: array<T>
    var head: nat
    var tail: nat
    var stopped: bool
    var updateCounter: nat

    ghost predicate Valid()
      reads this
    {
      head < data.Length && tail < data.Length
    }

    ghost function View(): (sh: Shared<T>)
      reads this, data
    {
      Shared(data[..], head, tail, stopped, updateCounter)
    }

    ghost function Contents(): (items: seq<T>)
      requires Valid()
      reads this, data
      ensures |items| < data.Length
    {
      View().Contents()
    }

    constructor (size: nat)
      requires 0 < size
      ensures Valid() && fresh(data) && data.Length == size
      ensures Contents() == [] && !stopped && updateCounter == 0
    {
      data := new T[size];
      head, tail, stopped, updateCounter := 0, 0, false, 0;
    }

    method Stop()
      requires Valid()
      modifies this`stopped, this`updateCounter
      ensures Valid() && Contents() == old(Contents())
      ensures stopped && updateCounter == old(updateCounter) + 1
    {
      stopped := true;
      updateCounter := updateCounter + 1;
    }

    method IsFull() returns (full: bool)
      requires Valid()
      ensures full <==> |Contents()| == data.Length - 1
    {
      FullAndEmpty(View());
      full := (tail + 1) % data.Length == head;
    }

    method IsEmpty() returns (empty: bool)
      requires Valid()
      ensures empty <==> Contents() == []
    {
      FullAndEmpty(View());
      empty := head == tail;
    }

    method NumSlotsFilled() returns (result: int)
      requires Valid()
      ensures result == |Contents()|
    {
      result := tail - head;
      if result < 0 {
        result := result + data.Length;
      }
    }

    method BeginWrite() returns (slot: Option<nat>)
      requires Valid()
      ensures slot.None? <==> |Contents()| == data.Length - 1
      ensures slot.Some? ==> slot.value == tail
    {
      var full := IsFull();
      slot := if full then None else Some(tail);
    }

    /** The two CHECKs are what the caller owes. */
    method EndWrite(slot: nat)
      requires Valid() && |Contents()| < data.Length - 1 && slot == tail
      modifies this`tail, this`updateCounter
      ensures Valid() && Contents() == old(Contents()) + [data[slot]]
      ensures updateCounter == old(updateCounter) + 1
    {
      FullAndEmpty(View());
      AdvanceTailAppends(View());
      tail := (tail + 1) % data.Length;
      updateCounter := updateCounter + 1;
    }

    method Write(item: T) returns (ok: bool)
      requires Valid()
      modifies this`tail, this`updateCounter, data
      ensures Valid()
      ensures ok <==> |old(Contents())| < data.Length - 1
      ensures Contents() == if ok then old(Contents()) + [item] else old(Contents())
    {
      var slot := BeginWrite();
      if slot.None? {
        return false;
      }
      FillKeepsContents(View(), item);
      data[slot.value] := item;
      assert data[..] == old(data[..])[slot.value := item];
      EndWrite(slot.value);
      ok := true;
    }

    method BeginRead() returns (slot: Option<nat>)
      requires Valid()
      ensures slot.None? <==> stopped || Contents() == []
      ensures slot.Some? ==> slot.value == head && data[head] == Contents()[0]
    {
      var empty := IsEmpty();
      slot := if stopped || empty then None else Some(head);
    }

    /** Drops everything but the newest item. */
    method BeginReadLatest() returns (slot: Option<nat>)
      requires Valid()
      modifies this`head
      ensures Valid()
      ensures slot.None? <==> stopped || old(Contents()) == []
      ensures slot.None? ==> Contents() == old(Contents())
      ensures slot.Some? ==> slot.value == head && Contents() == [old(Contents())[|old(Contents())| - 1]]
    {
      var empty := IsEmpty();
      if empty || stopped {
        return None;
      }
      StepIndices(View());
      MoveHeadDrops(View(), View().Filled() - 1);
      head := (tail + data.Length - 1) % data.Length;
      slot := Some(head);
    }

    method EndRead(slot: nat)
      requires Valid() && slot == head && Contents() != []
      modifies this`head
      ensures Valid() && Contents() == old(Contents())[1..]
    {
      StepIndices(View());
      MoveHeadDrops(View(), 1);
      head := (head + 1) % data.Length;
    }

    method Read(was: T) returns (ok: bool, result: T)
      requires Valid()
      modifies this`head
      ensures Valid()
      ensures ok <==> !stopped && old(Contents()) != []
      ensures ok ==> old(Contents()) == [result] + Contents()
      ensures !ok ==> result == was && Contents() == old(Contents())
    {
      var slot := BeginRead();
      if slot.None? {
        return false, was;
      }
      result := data[slot.value];
      EndRead(slot.value);
      ok := true;
    }

    method ReadLatest(was: T) returns (ok: bool, result: T)
      requires Valid()
      modifies this`head
      ensures Valid()
      ensures ok <==> !stopped && old(Contents()) != []
      ensures ok ==> Contents() == [] && result == old(Contents())[|old(Contents())| - 1]
      ensures !ok ==> result == was && Contents() == old(Contents())
    {
      var slot := BeginReadLatest();
      if slot.None? {
        return false, was;
      }
      result := data[slot.value];
      assert result == Contents()[0];
      EndRead(slot.value);
      ok := true;
    }

    method PeekFront() returns (slot: Option<nat>)
      requires Valid()
      ensures slot.None? <==> Contents() == []
      ensures slot.Some? ==> slot.value < data.Length && data[slot.value] == Contents()[0]
    {
      var empty := IsEmpty();
      slot := if empty then None else Some(head);
    }

    method PeekBack() returns (slot: Option<nat>)
      requires Valid()
      ensures slot.None? <==> Contents() == []
      ensures slot.Some? ==> slot.value < data.Length && data[slot.value] == Contents()[|Contents()| - 1]
    {
      var empty := IsEmpty();
      if empty {
        return None;
      }
      StepIndices(View());
      slot := Some((tail + data.Length - 1) % data.Length);
    }

    method Clear()
      requires Valid()
      modifies this`head
      ensures Valid() && Contents() == []
    {
      var tailValue := tail;
      head := tailValue;
    }
  }
}
