/**
 Which messages the threads of realsense_streaming/client.cpp write out, told by the
 messages alone.
 */
module FrameOutputs {
  import opened Options
  import opened Words
  import opened Subsequences
  import opened FrameGate

  /** Message j is the latest of its serial number among the first n. */
  ghost predicate IsLatest<P>(messages: seq<Message<P>>, n: nat, serial: string, j: nat)
    requires n <= |messages|
  {
    && j < n && messages[j].serial == serial
    && forall i :: j < i < n ==> messages[i].serial != serial
  }

  /** Message k is flagged as a keyframe, or its id is one more than that of the message of
      its serial number before it, which was itself written. */
  ghost predicate Writes<P(!new)>(messages: seq<Message<P>>, k: nat)
    requires k < |messages|
    decreases k
  {
    || messages[k].isKeyframe
    || exists j: nat ::
         && IsLatest(messages, k, messages[k].serial, j)
         && messages[k].sequenceId == messages[j].sequenceId + 1
         && Writes(messages, j)
  }

  /** What a context remembers: the id of the last message, if that was written. */
  ghost predicate Remembers<D, P(!new)>(ctx: Context<D>, messages: seq<Message<P>>, n: nat, serial: string)
    requires n <= |messages|
  {
    && (ctx.lastSequenceId != INVALID_SEQUENCE_ID ==>
          exists j: nat :: IsLatest(messages, n, serial, j) && Writes(messages, j))
    && forall j: nat :: IsLatest(messages, n, serial, j) ==>
         ctx.lastSequenceId == if Writes(messages, j) then messages[j].sequenceId else INVALID_SEQUENCE_ID
  }

  lemma RememberedIsInSequence<D, P(!new)>(ctx: Context<D>, messages: seq<Message<P>>, k: nat)
    requires k < |messages| && Remembers(ctx, messages, k, messages[k].serial)
    requires forall m :: m in messages ==> m.sequenceId < INVALID_SEQUENCE_ID
    ensures Writes(messages, k) <==> messages[k].isKeyframe || InSequence(ctx, messages[k].sequenceId)
  {
    if ctx.lastSequenceId != INVALID_SEQUENCE_ID {
      var j: nat :| IsLatest(messages, k, messages[k].serial, j) && Writes(messages, j);
      assert messages[j] in messages;
    }
  }

  /** The next context holds the id of what was written, or none. */
  lemma GateRemembers<E(!new), D(!new), I(!new), P(!new)>(
    kind: Kind, enc: Encoder<E, I, P>, dec: Decoder<D, I, P>, sync: (E, D) -> bool,
    frames: seq<Frame<I>>, ctx: Context<D>, m: Message<P>)
    requires IsDeltaCodec(enc, dec, sync)
    requires InStep(ctx, enc, dec, sync, frames) && Genuine(m, kind, enc, dec, frames)
    ensures
      var (next, result) := Gate(kind, dec, ctx, m);
      next.lastSequenceId == if result.Written? then m.sequenceId else INVALID_SEQUENCE_ID
  {
    hide IsDeltaCodec, EncoderAfter, PacketOf;
    GateIsCorrect(kind, enc, dec, sync, frames, ctx, m);
  }

  lemma OtherSerialsRemember<D, P(!new)>(ctx: Context<D>, messages: seq<Message<P>>, k: nat, serial: string)
    requires k < |messages| && messages[k].serial != serial && Remembers(ctx, messages, k, serial)
    ensures Remembers(ctx, messages, k + 1, serial)
  {
    hide Writes;
    forall j: nat
      ensures IsLatest(messages, k + 1, serial, j) <==> IsLatest(messages, k, serial, j)
    {
    }
  }

  lemma OwnSerialRemembers<D, P(!new)>(ctx: Context<D>, messages: seq<Message<P>>, k: nat)
    requires k < |messages|
    requires ctx.lastSequenceId == if Writes(messages, k) then messages[k].sequenceId else INVALID_SEQUENCE_ID
    ensures Remembers(ctx, messages, k + 1, messages[k].serial)
  {
    hide Writes;
    var n := k + 1;
    assert IsLatest(messages, n, messages[k].serial, k);
    forall j: nat | IsLatest(messages, n, messages[k].serial, j)
      ensures j == k
    {
    }
  }

  /** One turn, with what it writes. */
  lemma TurnWrites<E(!new), D(!new), I(!new), P(!new)>(
    kind: Kind, enc: Encoder<E, I, P>, dec: Decoder<D, I, P>, sync: (E, D) -> bool,
    streams: map<string, seq<Frame<I>>>, earlier: seq<Message<P>>, m: Message<P>)
    requires IsDeltaCodec(enc, dec, sync) && AllGenuine(earlier + [m], kind, enc, dec, streams)
    ensures m.serial in streams && m.sequenceId < |streams[m.serial]|
    ensures
      var t, u := HandleAll(kind, dec, earlier), HandleAll(kind, dec, earlier + [m]);
      var writes := m.isKeyframe || InSequence(ContextOf(dec, t.contexts, m.serial), m.sequenceId);
      var picture := PictureOf(enc, streams[m.serial], m.sequenceId);
      && u.outputs == t.outputs + (if writes then [Output(m.serial, m.sequenceId, picture)] else [])
      && ContextOf(dec, u.contexts, m.serial).lastSequenceId ==
         (if writes then m.sequenceId else INVALID_SEQUENCE_ID)
      && forall serial :: serial != m.serial ==>
           ContextOf(dec, u.contexts, serial) == ContextOf(dec, t.contexts, serial)
  {
    hide IsDeltaCodec, Gate, PacketOf, PictureOf, EncoderAfter, HandleAll, InSequence;
    assert m in earlier + [m] && forall x :: x in earlier ==> x in earlier + [m];
    AllLast(kind, dec, earlier, m);
    EveryOutputIsTheSource(kind, enc, dec, sync, streams, earlier);
    var t := HandleAll(kind, dec, earlier);
    GateIsCorrect(kind, enc, dec, sync, streams[m.serial], ContextOf(dec, t.contexts, m.serial), m);
    GateRemembers(kind, enc, dec, sync, streams[m.serial], ContextOf(dec, t.contexts, m.serial), m);
  }

  lemma {:induction false} ContextsRemember<E(!new), D(!new), I(!new), P(!new)>(
    kind: Kind, enc: Encoder<E, I, P>, dec: Decoder<D, I, P>, sync: (E, D) -> bool,
    streams: map<string, seq<Frame<I>>>, messages: seq<Message<P>>, n: nat, serial: string)
    requires n <= |messages| && IsDeltaCodec(enc, dec, sync) && AllGenuine(messages, kind, enc, dec, streams)
    ensures Remembers(ContextOf(dec, HandleAll(kind, dec, messages[..n]).contexts, serial), messages, n, serial)
  {
    hide IsDeltaCodec, AllGenuine, PictureOf, Remembers, InSequence, HandleAll, Writes;
    if n == 0 {
      NothingRemembered(kind, dec, messages, serial);
    } else {
      var k := n - 1;
      var m := messages[k];
      assert messages[..n] == messages[..k] + [m];
      GenuineUpTo(messages, n, kind, enc, dec, streams);
      var ctx := ContextOf(dec, HandleAll(kind, dec, messages[..k]).contexts, serial);
      TurnWrites(kind, enc, dec, sync, streams, messages[..k], m);
      ContextsRemember(kind, enc, dec, sync, streams, messages, k, serial);
      if m.serial == serial {
        RememberedIsInSequence(ctx, messages, k);
        OwnSerialRemembers(ContextOf(dec, HandleAll(kind, dec, messages[..n]).contexts, serial), messages, k);
      } else {
        OtherSerialsRemember(ctx, messages, k, serial);
      }
    }
  }

  lemma NothingRemembered<D, I, P(!new)>(kind: Kind, dec: Decoder<D, I, P>, messages: seq<Message<P>>, serial: string)
    ensures Remembers(ContextOf(dec, HandleAll(kind, dec, messages[..0]).contexts, serial), messages, 0, serial)
  {
  }

  lemma GenuineUpTo<E(!new), D(!new), I(!new), P(!new)>(
    messages: seq<Message<P>>, n: nat, kind: Kind, enc: Encoder<E, I, P>, dec: Decoder<D, I, P>,
    streams: map<string, seq<Frame<I>>>)
    requires n <= |messages| && AllGenuine(messages, kind, enc, dec, streams)
    ensures AllGenuine(messages[..n], kind, enc, dec, streams)
    ensures forall m :: m in messages ==> m.sequenceId < INVALID_SEQUENCE_ID
  {
  }

  /** `outputs` are the pictures of the messages at the positions ps, in order, once each. */
  ghost predicate ArePicturesOf<E, I, P>(
    outputs: seq<Output<I>>, ps: seq<nat>, messages: seq<Message<P>>, enc: Encoder<E, I, P>,
    streams: map<string, seq<Frame<I>>>)
  {
    && Increasing(ps)
    && |outputs| == |ps|
    && forall i :: 0 <= i < |ps| ==>
         && ps[i] < |messages|
         && var m := messages[ps[i]];
            && m.serial in streams && m.sequenceId < |streams[m.serial]|
            && outputs[i] == Output(m.serial, m.sequenceId, PictureOf(enc, streams[m.serial], m.sequenceId))
  }

  lemma OnePictureMore<E, I, P>(
    outputs: seq<Output<I>>, ps: seq<nat>, messages: seq<Message<P>>, k: nat, enc: Encoder<E, I, P>,
    streams: map<string, seq<Frame<I>>>)
    requires ArePicturesOf(outputs, ps, messages, enc, streams)
    requires k < |messages| && forall p :: p in ps ==> p < k
    requires messages[k].serial in streams && messages[k].sequenceId < |streams[messages[k].serial]|
    ensures
      var m := messages[k];
      var picture := PictureOf(enc, streams[m.serial], m.sequenceId);
      ArePicturesOf(outputs + [Output(m.serial, m.sequenceId, picture)], ps + [k], messages, enc, streams)
  {
    assert forall i :: 0 <= i < |ps| ==> ps[i] in ps;
  }

  /** For any drops, duplicates and reordering of what the senders sent: the pictures
      written out are, in order and once each, the source pictures of exactly the messages
      that are flagged as keyframes or follow, by one, a message that was written. */
  lemma {:induction false} OutputsAreTheWrittenPictures<E(!new), D(!new), I(!new), P(!new)>(
    kind: Kind, enc: Encoder<E, I, P>, dec: Decoder<D, I, P>, sync: (E, D) -> bool,
    streams: map<string, seq<Frame<I>>>, messages: seq<Message<P>>, n: nat) returns (ps: seq<nat>)
    requires n <= |messages| && IsDeltaCodec(enc, dec, sync) && AllGenuine(messages, kind, enc, dec, streams)
    ensures forall p: nat :: p in ps <==> p < n && Writes(messages, p)
    ensures ArePicturesOf(HandleAll(kind, dec, messages[..n]).outputs, ps, messages, enc, streams)
  {
    hide IsDeltaCodec, AllGenuine, PictureOf, ArePicturesOf, InSequence, HandleAll, Writes, Remembers;
    if n == 0 {
      ps := [];
      NothingWritten(kind, enc, dec, streams, messages);
    } else {
      var k := n - 1;
      var m := messages[k];
      assert messages[..n] == messages[..k] + [m];
      var before := OutputsAreTheWrittenPictures(kind, enc, dec, sync, streams, messages, k);
      GenuineUpTo(messages, n, kind, enc, dec, streams);
      TurnWrites(kind, enc, dec, sync, streams, messages[..k], m);
      ContextsRemember(kind, enc, dec, sync, streams, messages, k, m.serial);
      var t := HandleAll(kind, dec, messages[..k]);
      RememberedIsInSequence(ContextOf(dec, t.contexts, m.serial), messages, k);
      OnePictureMore(t.outputs, before, messages, k, enc, streams);
      ps := if Writes(messages, k) then before + [k] else before;
      assert Writes(messages, k) || t.outputs + [] == t.outputs;
    }
  }

  lemma NothingWritten<E, D, I, P>(
    kind: Kind, enc: Encoder<E, I, P>, dec: Decoder<D, I, P>, streams: map<string, seq<Frame<I>>>,
    messages: seq<Message<P>>)
    ensures ArePicturesOf(HandleAll(kind, dec, messages[..0]).outputs, [], messages, enc, streams)
  {
  }

  // ---------------------------------------------------------------- messages that stop the thread

  lemma {:induction false} AbortedForGood<D, I, P>(kind: Kind, dec: Decoder<D, I, P>, messages: seq<Message<P>>, n: nat)
    requires n <= |messages| && HandleAll(kind, dec, messages[..n]).aborted
    ensures HandleAll(kind, dec, messages) == HandleAll(kind, dec, messages[..n])
  {
    if n < |messages| {
      var last := |messages| - 1;
      assert messages[..last][..n] == messages[..n];
      AbortedForGood(kind, dec, messages[..last], n);
    } else {
      assert messages[..n] == messages;
    }
  }

  /** A message of the wrong version or sizes stops the thread; nothing is written from there on. */
  lemma BrokenMessageStopsTheThread<D, I, P>(kind: Kind, dec: Decoder<D, I, P>, messages: seq<Message<P>>, k: nat)
    requires k < |messages| && !messages[k].intact
    ensures HandleAll(kind, dec, messages).aborted
    ensures HandleAll(kind, dec, messages).outputs == HandleAll(kind, dec, messages[..k]).outputs
  {
    AllLast(kind, dec, messages[..k], messages[k]);
    assert messages[..k + 1] == messages[..k] + [messages[k]];
    AbortedForGood(kind, dec, messages, k + 1);
  }

  lemma {:induction false} UnseenSerialHasNoContext<D, I, P>(
    kind: Kind, dec: Decoder<D, I, P>, messages: seq<Message<P>>, serial: string)
    requires forall m :: m in messages ==> m.serial != serial
    ensures serial !in HandleAll(kind, dec, messages).contexts
  {
    if messages != [] {
      assert messages[|messages| - 1] in messages;
      UnseenSerialHasNoContext(kind, dec, messages[..|messages| - 1], serial);
    }
  }

  /** So does, on the depth stream, a first message that is flagged as a keyframe and is not one. */
  lemma FalseKeyframeStopsTheThread<D, I, P>(dec: Decoder<D, I, P>, messages: seq<Message<P>>, k: nat)
    requires k < |messages| && messages[k].isKeyframe && !dec.isKey(messages[k].packet)
    requires forall i :: 0 <= i < k ==> messages[i].serial != messages[k].serial
    ensures HandleAll(Depth, dec, messages).aborted
    ensures HandleAll(Depth, dec, messages).outputs == HandleAll(Depth, dec, messages[..k]).outputs
  {
    AllLast(Depth, dec, messages[..k], messages[k]);
    assert messages[..k + 1] == messages[..k] + [messages[k]];
    UnseenSerialHasNoContext(Depth, dec, messages[..k], messages[k].serial);
    AbortedForGood(Depth, dec, messages, k + 1);
  }

  /** A first keyframe that does not decode is not written out; it stops the colour thread,
      and the depth thread goes on. */
  lemma UndecodableKeyframe<D, I, P>(kind: Kind, dec: Decoder<D, I, P>, messages: seq<Message<P>>, k: nat)
    requires k < |messages| && messages[k].intact && messages[k].isKeyframe && dec.isKey(messages[k].packet)
    requires dec.decode(dec.initial, messages[k].packet).None?
    requires forall i :: 0 <= i < k ==> messages[i].serial != messages[k].serial
    requires !HandleAll(kind, dec, messages[..k]).aborted
    ensures HandleAll(kind, dec, messages[..k + 1]).outputs == HandleAll(kind, dec, messages[..k]).outputs
    ensures HandleAll(kind, dec, messages[..k + 1]).aborted <==> kind.Color?
  {
    AllLast(kind, dec, messages[..k], messages[k]);
    assert messages[..k + 1] == messages[..k] + [messages[k]];
    UnseenSerialHasNoContext(kind, dec, messages[..k], messages[k].serial);
  }
}
