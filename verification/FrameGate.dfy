/**
 The keyframe gate of realsense_streaming/client.cpp (run_depth_thread and
 run_color_thread), end to end with the numbering of realsense_streaming/server.cpp,
 over an abstract delta codec.
 */
module FrameGate {
  import opened Options
  import opened Words

  const INVALID_SEQUENCE_ID := TWO_64 - 1

  // ---------------------------------------------------------------- the codec

  /** `encode(e, image, forceKey)` gives the next state, the packet, and the picture that
      the packet stands for (the image itself if the codec is lossless). */
  datatype Encoder<!E, !I, !P> = Encoder(initial: E, encode: (E, I, bool) -> (E, P, I))

  datatype Decoder<!D, !I, !P> = Decoder(initial: D, isKey: P -> bool, decode: (D, P) -> Option<(D, I)>)

  /** What a delta codec must do: `sync` relates an encoder's state to a decoder's. A keyframe
      decodes from a fresh decoder or one in sync, any other packet from one in sync; both give
      the packet's picture and leave the two in sync. A forced keyframe is a keyframe. */
  ghost predicate IsDeltaCodec<E(!new), D(!new), I(!new), P(!new)>(
    enc: Encoder<E, I, P>, dec: Decoder<D, I, P>, sync: (E, D) -> bool)
  {
    forall e: E, image: I, force: bool {:trigger enc.encode(e, image, force)} ::
      var (e', packet, picture) := enc.encode(e, image, force);
      && (force ==> dec.isKey(packet))
      && forall d: D ::
           (sync(e, d) || (d == dec.initial && dec.isKey(packet))) ==>
             && dec.decode(d, packet).Some?
             && dec.decode(d, packet).value.1 == picture
             && sync(e', dec.decode(d, packet).value.0)
  }

  /** The assumption can be met: differences of integers, with the value itself in keyframes. */
  datatype DiffPacket = Key(value: int) | Delta(change: int)

  const DiffEncoder: Encoder<int, int, DiffPacket> :=
    Encoder(0, (last, image, force) => (image, if force then Key(image) else Delta(image - last), image))

  const DiffDecoder: Decoder<Option<int>, int, DiffPacket> :=
    Decoder(None, (packet: DiffPacket) => packet.Key?,
            (state: Option<int>, packet: DiffPacket) =>
              if packet.Key? then Some((Some(packet.value), packet.value))
              else if state.Some? then Some((Some(state.value + packet.change), state.value + packet.change))
              else None)

  lemma DiffIsDeltaCodec()
    ensures IsDeltaCodec(DiffEncoder, DiffDecoder, (e: int, d: Option<int>) => d == Some(e))
  {
  }

  // ---------------------------------------------------------------- the sender

  datatype Frame<I> = Frame(image: I, forceKey: bool)

  /** `intact`: version 0, and frames of the sizes that the thread checks. */
  datatype Message<P> = Message(intact: bool, serial: string, sequenceId: nat, isKeyframe: bool, packet: P)

  /** The depth stream flags every keyframe, the colour stream those it forced. */
  datatype Kind = Depth | Color

  ghost function EncoderAfter<E, I, P>(enc: Encoder<E, I, P>, frames: seq<Frame<I>>, n: nat): E
    requires n <= |frames|
  {
    if n == 0 then enc.initial
    else enc.encode(EncoderAfter(enc, frames, n - 1), frames[n - 1].image, frames[n - 1].forceKey).0
  }

  ghost function PacketOf<E, I, P>(enc: Encoder<E, I, P>, frames: seq<Frame<I>>, id: nat): P
    requires id < |frames|
  {
    enc.encode(EncoderAfter(enc, frames, id), frames[id].image, frames[id].forceKey).1
  }

  /** The source picture encoded under a sequence id. */
  ghost function PictureOf<E, I, P>(enc: Encoder<E, I, P>, frames: seq<Frame<I>>, id: nat): I
    requires id < |frames|
  {
    enc.encode(EncoderAfter(enc, frames, id), frames[id].image, frames[id].forceKey).2
  }

  /** A message that the sender of its serial number did send, at some time. */
  ghost predicate Genuine<E, D, I, P>(
    m: Message<P>, kind: Kind, enc: Encoder<E, I, P>, dec: Decoder<D, I, P>, frames: seq<Frame<I>>)
  {
    && m.intact
    && m.sequenceId < |frames| < TWO_64
    && m.packet == PacketOf(enc, frames, m.sequenceId)
    && m.isKeyframe == (if kind.Depth? then dec.isKey(m.packet) else frames[m.sequenceId].forceKey)
  }

  // ---------------------------------------------------------------- the gate

  datatype Context<D> = Context(decompressor: D, lastSequenceId: nat, needKeyframe: bool)

  datatype Result<I> = Written(image: I) | WaitingForKeyframe | DecodeFailed | Aborted

  function Fresh<D, I, P>(dec: Decoder<D, I, P>): Context<D> {
    Context(dec.initial, INVALID_SEQUENCE_ID, true)
  }

  /** The frame-drop test on the sequence id. */
  predicate FrameDropped<D>(ctx: Context<D>, sequenceId: nat) {
    ctx.lastSequenceId != INVALID_SEQUENCE_ID && (ctx.lastSequenceId + 1) % TWO_64 != sequenceId
  }

  function Admit<D, I, P>(dec: Decoder<D, I, P>, ctx: Context<D>, sequenceId: nat): Context<D> {
    if FrameDropped(ctx, sequenceId) then Fresh(dec) else ctx
  }

  function Gate<D, I, P>(kind: Kind, dec: Decoder<D, I, P>, before: Context<D>, m: Message<P>)
    : (Context<D>, Result<I>)
  {
    var ctx := Admit(dec, before, m.sequenceId);
    if ctx.needKeyframe && !m.isKeyframe then (ctx, WaitingForKeyframe)
    else if ctx.needKeyframe && kind.Depth? && !dec.isKey(m.packet) then (ctx, Aborted)
    else
      match dec.decode(ctx.decompressor, m.packet)
      case None =>
        if kind.Depth? then (Fresh(dec), DecodeFailed)
        else (Context(ctx.decompressor, m.sequenceId, false), Aborted)
      case Some((next, image)) => (Context(next, m.sequenceId, false), Written(image))
  }

  // ---------------------------------------------------------------- correctness of one message

  /** Either nothing has been fed since the last reset, or the decoder is in sync with
      the encoder as it was after the last packet fed. */
  ghost predicate InStep<E, D, I, P>(
    ctx: Context<D>, enc: Encoder<E, I, P>, dec: Decoder<D, I, P>, sync: (E, D) -> bool, frames: seq<Frame<I>>)
  {
    if ctx.lastSequenceId == INVALID_SEQUENCE_ID then ctx == Fresh(dec)
    else
      && !ctx.needKeyframe
      && ctx.lastSequenceId < |frames|
      && sync(EncoderAfter(enc, frames, ctx.lastSequenceId + 1), ctx.decompressor)
  }

  ghost predicate InSequence<D>(ctx: Context<D>, sequenceId: nat) {
    ctx.lastSequenceId != INVALID_SEQUENCE_ID && ctx.lastSequenceId + 1 == sequenceId
  }

  /** A genuine message is written out if and only if it is flagged as a keyframe or
      follows the last one fed; what is written is the source picture of its id; no
      CHECK fires and no decode fails. */
  lemma GateIsCorrect<E(!new), D(!new), I(!new), P(!new)>(
    kind: Kind, enc: Encoder<E, I, P>, dec: Decoder<D, I, P>, sync: (E, D) -> bool,
    frames: seq<Frame<I>>, ctx: Context<D>, m: Message<P>)
    requires IsDeltaCodec(enc, dec, sync)
    requires InStep(ctx, enc, dec, sync, frames) && Genuine(m, kind, enc, dec, frames)
    ensures
      var (next, result) := Gate(kind, dec, ctx, m);
      && InStep(next, enc, dec, sync, frames)
      && (result.Written? <==> m.isKeyframe || InSequence(ctx, m.sequenceId))
      && (result.Written? ==> result.image == PictureOf(enc, frames, m.sequenceId))
      && (result.Written? || result.WaitingForKeyframe?)
  {
    var id := m.sequenceId;
    var e := EncoderAfter(enc, frames, id);
    var admitted := Admit(dec, ctx, id);
    assert enc.encode(e, frames[id].image, frames[id].forceKey).1 == m.packet;
    assert m.isKeyframe ==> dec.isKey(m.packet);
    assert EncoderAfter(enc, frames, id + 1) == enc.encode(e, frames[id].image, frames[id].forceKey).0;
    if !(admitted.needKeyframe && !m.isKeyframe) {
      assert sync(e, admitted.decompressor) || (admitted.decompressor == dec.initial && dec.isKey(m.packet));
    }
  }

  // ---------------------------------------------------------------- what is fed to a decoder

  /** A decoder's state after some packets, from the moment it is made. */
  function Feed<D, I, P>(dec: Decoder<D, I, P>, fed: seq<Message<P>>): Option<D> {
    if fed == [] then Some(dec.initial)
    else
      match Feed(dec, fed[..|fed| - 1])
      case None => None
      case Some(d) =>
        match dec.decode(d, fed[|fed| - 1].packet)
        case None => None
        case Some((next, _)) => Some(next)
  }

  lemma FeedOneMore<D, I, P>(dec: Decoder<D, I, P>, fed: seq<Message<P>>, m: Message<P>)
    requires Feed(dec, fed).Some? && dec.decode(Feed(dec, fed).value, m.packet).Some?
    ensures Feed(dec, fed + [m]) == Some(dec.decode(Feed(dec, fed).value, m.packet).value.0)
  {
    assert (fed + [m])[..|fed|] == fed;
  }

  /** The messages of one stream, followed one by one: `fed` holds those that its present
      decoder has decoded. It stops where the program would. */
  datatype Tracked<D, P> = Tracked(ctx: Context<D>, fed: seq<Message<P>>, aborted: bool)

  function Track<D, I, P>(kind: Kind, dec: Decoder<D, I, P>, t: Tracked<D, P>, m: Message<P>): Tracked<D, P> {
    var (next, result) := Gate(kind, dec, t.ctx, m);
    var kept := if FrameDropped(t.ctx, m.sequenceId) then [] else t.fed;
    if t.aborted then t
    else
      match result
      case Written(_) => Tracked(next, kept + [m], false)
      case WaitingForKeyframe => Tracked(next, kept, false)
      case DecodeFailed => Tracked(next, [], false)
      case Aborted => t.(aborted := true)
  }

  function TrackAll<D, I, P>(kind: Kind, dec: Decoder<D, I, P>, messages: seq<Message<P>>): Tracked<D, P> {
    if messages == [] then Tracked(Fresh(dec), [], false)
    else Track(kind, dec, TrackAll(kind, dec, messages[..|messages| - 1]), messages[|messages| - 1])
  }

  /** A keyframe, then consecutive sequence ids up to the last one remembered. */
  ghost predicate KeyThenConsecutive<D, P>(t: Tracked<D, P>) {
    if t.fed == [] then t.ctx.needKeyframe && t.ctx.lastSequenceId == INVALID_SEQUENCE_ID
    else
      && t.fed[0].isKeyframe
      && t.ctx.lastSequenceId == t.fed[|t.fed| - 1].sequenceId < INVALID_SEQUENCE_ID
      && !t.ctx.needKeyframe
      && forall i :: 0 < i < |t.fed| ==> t.fed[i].sequenceId == t.fed[i - 1].sequenceId + 1
  }

  /** And the decoder is what decoding just these packets from new makes of it. */
  ghost predicate FedExactly<D, I, P>(dec: Decoder<D, I, P>, t: Tracked<D, P>) {
    KeyThenConsecutive(t) && Feed(dec, t.fed) == Some(t.ctx.decompressor)
  }

  lemma TrackKeepsShape<D, I, P>(kind: Kind, dec: Decoder<D, I, P>, t: Tracked<D, P>, m: Message<P>)
    requires FedExactly(dec, t) && m.sequenceId < INVALID_SEQUENCE_ID
    ensures FedExactly(dec, Track(kind, dec, t, m))
  {
    hide Feed;
    NothingFed(dec);
    var kept := if FrameDropped(t.ctx, m.sequenceId) then [] else t.fed;
    if Gate(kind, dec, t.ctx, m).1.Written? {
      FeedOneMore(dec, kept, m);
      if kept != [] {
        assert (kept + [m])[|kept| - 1].sequenceId + 1 == m.sequenceId;
      }
    }
  }

  lemma NothingFed<D, I, P>(dec: Decoder<D, I, P>)
    ensures Feed(dec, []) == Some(dec.initial)
  {
  }

  // ---------------------------------------------------------------- the thread

  datatype Output<I> = Output(serial: string, sequenceId: nat, image: I)

  datatype Thread<D, I> = Thread(contexts: map<string, Context<D>>, outputs: seq<Output<I>>, aborted: bool)

  function ContextOf<D, I, P>(dec: Decoder<D, I, P>, contexts: map<string, Context<D>>, serial: string): Context<D> {
    if serial in contexts then contexts[serial] else Fresh(dec)
  }

  function Handle<D, I, P>(kind: Kind, dec: Decoder<D, I, P>, t: Thread<D, I>, m: Message<P>): Thread<D, I> {
    if t.aborted then t
    else if !m.intact then t.(aborted := true)
    else
      var (next, result) := Gate(kind, dec, ContextOf(dec, t.contexts, m.serial), m);
      Thread(t.contexts[m.serial := next],
             if result.Written? then t.outputs + [Output(m.serial, m.sequenceId, result.image)] else t.outputs,
             result.Aborted?)
  }

  function HandleAll<D, I, P>(kind: Kind, dec: Decoder<D, I, P>, messages: seq<Message<P>>): Thread<D, I> {
    if messages == [] then Thread(map[], [], false)
    else Handle(kind, dec, HandleAll(kind, dec, messages[..|messages| - 1]), messages[|messages| - 1])
  }

  /** The messages of one serial number. */
  function OfSerial<P>(messages: seq<Message<P>>, serial: string): (own: seq<Message<P>>)
    ensures forall m :: m in own ==> m in messages && m.serial == serial
  {
    if messages == [] then []
    else
      var n := |messages| - 1;
      OfSerial(messages[..n], serial) + if messages[n].serial == serial then [messages[n]] else []
  }

  lemma OfSerialLast<P>(messages: seq<Message<P>>, m: Message<P>, serial: string)
    ensures OfSerial(messages + [m], serial) ==
            OfSerial(messages, serial) + if m.serial == serial then [m] else []
  {
    assert (messages + [m])[..|messages|] == messages;
  }

  lemma AllLast<D, I, P>(kind: Kind, dec: Decoder<D, I, P>, messages: seq<Message<P>>, m: Message<P>)
    ensures TrackAll(kind, dec, messages + [m]) == Track(kind, dec, TrackAll(kind, dec, messages), m)
    ensures HandleAll(kind, dec, messages + [m]) == Handle(kind, dec, HandleAll(kind, dec, messages), m)
  {
    assert (messages + [m])[..|messages|] == messages;
  }

  /** One turn of the loop is one step of its message's stream and of no other. */
  lemma HandleTracks<D, I, P>(kind: Kind, dec: Decoder<D, I, P>, t: Thread<D, I>, m: Message<P>,
                              own: Tracked<D, P>, serial: string)
    requires !Handle(kind, dec, t, m).aborted
    requires t.aborted || (!own.aborted && ContextOf(dec, t.contexts, serial) == own.ctx)
    ensures !t.aborted
    ensures
      var after := if m.serial == serial then Track(kind, dec, own, m) else own;
      !after.aborted && ContextOf(dec, Handle(kind, dec, t, m).contexts, serial) == after.ctx
  {
  }

  lemma NothingHandled<D, I, P>(kind: Kind, dec: Decoder<D, I, P>, serial: string)
    ensures OfSerial<P>([], serial) == []
    ensures !TrackAll(kind, dec, []).aborted
    ensures ContextOf(dec, HandleAll(kind, dec, []).contexts, serial) == TrackAll(kind, dec, []).ctx
  {
  }

  lemma {:induction false} ContextIsOfItsMessages<D, I, P>(
    kind: Kind, dec: Decoder<D, I, P>, messages: seq<Message<P>>, serial: string)
    requires !HandleAll(kind, dec, messages).aborted
    ensures
      var t := TrackAll(kind, dec, OfSerial(messages, serial));
      !t.aborted && ContextOf(dec, HandleAll(kind, dec, messages).contexts, serial) == t.ctx
  {
    hide Handle, Track, TrackAll, HandleAll, OfSerial;
    if messages == [] {
      NothingHandled(kind, dec, serial);
    } else {
      var n := |messages| - 1;
      var earlier, m := messages[..n], messages[n];
      var t, own := HandleAll(kind, dec, earlier), TrackAll(kind, dec, OfSerial(earlier, serial));
      assert messages == earlier + [m];
      OfSerialLast(earlier, m, serial);
      AllLast(kind, dec, earlier, m);
      AllLast(kind, dec, OfSerial(earlier, serial), m);
      assert OfSerial(earlier, serial) + [] == OfSerial(earlier, serial);
      if !t.aborted {
        ContextIsOfItsMessages(kind, dec, earlier, serial);
      }
      HandleTracks(kind, dec, t, m, own, serial);
    }
  }

  lemma {:induction false} StreamIsFedExactly<D, I, P>(kind: Kind, dec: Decoder<D, I, P>, messages: seq<Message<P>>)
    requires forall m :: m in messages ==> m.sequenceId < INVALID_SEQUENCE_ID
    ensures
      var t := TrackAll(kind, dec, messages);
      FedExactly(dec, t) && forall m :: m in t.fed ==> m in messages
  {
    hide Gate, FedExactly;
    if messages == [] {
      FreshIsFedNothing(kind, dec);
    } else {
      var n := |messages| - 1;
      assert messages[n] in messages && forall x :: x in messages[..n] ==> x in messages;
      StreamIsFedExactly(kind, dec, messages[..n]);
      TrackKeepsShape(kind, dec, TrackAll(kind, dec, messages[..n]), messages[n]);
    }
  }

  /** For any messages at all, of any streams, genuine or not, with ids below the sentinel:
      unless the thread has aborted, a serial number's context is that of its own messages
      alone, and its decoder has been fed, since it was made, exactly a keyframe and then
      packets with consecutive ids. */
  lemma DecoderIsFedAKeyThenConsecutiveIds<D, I, P>(
    kind: Kind, dec: Decoder<D, I, P>, messages: seq<Message<P>>, serial: string)
    requires forall m :: m in messages ==> m.sequenceId < INVALID_SEQUENCE_ID
    requires !HandleAll(kind, dec, messages).aborted
    ensures
      var t := TrackAll(kind, dec, OfSerial(messages, serial));
      && ContextOf(dec, HandleAll(kind, dec, messages).contexts, serial) == t.ctx
      && KeyThenConsecutive(t)
      && Feed(dec, t.fed) == Some(t.ctx.decompressor)
      && forall m :: m in t.fed ==> m in messages && m.serial == serial
  {
    hide TrackAll, HandleAll, Feed, KeyThenConsecutive;
    ContextIsOfItsMessages(kind, dec, messages, serial);
    StreamIsFedExactly(kind, dec, OfSerial(messages, serial));
  }

  lemma FreshIsFedNothing<D, I, P>(kind: Kind, dec: Decoder<D, I, P>)
    ensures FedExactly(dec, TrackAll(kind, dec, []))
  {
  }

  ghost predicate AllGenuine<E, D, I, P>(
    messages: seq<Message<P>>, kind: Kind, enc: Encoder<E, I, P>, dec: Decoder<D, I, P>,
    streams: map<string, seq<Frame<I>>>)
  {
    forall m :: m in messages ==> m.serial in streams && Genuine(m, kind, enc, dec, streams[m.serial])
  }

  /** For any drops, duplicates and reordering of what the senders sent, one sender for
      each serial number: every image written out is the source picture of its id, and
      the thread never aborts. */
  lemma {:induction false} EveryOutputIsTheSource<E(!new), D(!new), I(!new), P(!new)>(
    kind: Kind, enc: Encoder<E, I, P>, dec: Decoder<D, I, P>, sync: (E, D) -> bool,
    streams: map<string, seq<Frame<I>>>, messages: seq<Message<P>>)
    requires IsDeltaCodec(enc, dec, sync) && AllGenuine(messages, kind, enc, dec, streams)
    ensures
      var t := HandleAll(kind, dec, messages);
      && !t.aborted
      && (forall serial :: serial in t.contexts ==>
            serial in streams && InStep(t.contexts[serial], enc, dec, sync, streams[serial]))
      && (forall o :: o in t.outputs ==>
            && o.serial in streams && o.sequenceId < |streams[o.serial]|
            && o.image == PictureOf(enc, streams[o.serial], o.sequenceId))
  {
    hide IsDeltaCodec, Gate, PacketOf, PictureOf, EncoderAfter;
    if messages != [] {
      var m := messages[|messages| - 1];
      assert m in messages && forall x :: x in messages[..|messages| - 1] ==> x in messages;
      EveryOutputIsTheSource(kind, enc, dec, sync, streams, messages[..|messages| - 1]);
      var t := HandleAll(kind, dec, messages[..|messages| - 1]);
      GateIsCorrect(kind, enc, dec, sync, streams[m.serial], ContextOf(dec, t.contexts, m.serial), m);
    }
  }

  /** `t` has written out all of `run`, in order, after `before`. */
  ghost predicate WroteRun<D, I, P>(t: Thread<D, I>, before: seq<Output<I>>, run: seq<Message<P>>) {
    && |t.outputs| == |before| + |run|
    && t.outputs[..|before|] == before
    && forall i :: 0 <= i < |run| ==>
         t.outputs[|before| + i].serial == run[i].serial && t.outputs[|before| + i].sequenceId == run[i].sequenceId
  }

  ghost predicate IsAt<D, I, P>(t: Thread<D, I>, m: Message<P>) {
    m.serial in t.contexts && t.contexts[m.serial].lastSequenceId == m.sequenceId
  }

  lemma HandleWrites<E(!new), D(!new), I(!new), P(!new)>(
    kind: Kind, enc: Encoder<E, I, P>, dec: Decoder<D, I, P>, sync: (E, D) -> bool,
    streams: map<string, seq<Frame<I>>>, earlier: seq<Message<P>>, m: Message<P>) returns (image: I)
    requires IsDeltaCodec(enc, dec, sync) && AllGenuine(earlier + [m], kind, enc, dec, streams)
    requires m.isKeyframe ||
             InSequence(ContextOf(dec, HandleAll(kind, dec, earlier).contexts, m.serial), m.sequenceId)
    ensures IsAt(HandleAll(kind, dec, earlier + [m]), m)
    ensures HandleAll(kind, dec, earlier + [m]).outputs ==
            HandleAll(kind, dec, earlier).outputs + [Output(m.serial, m.sequenceId, image)]
  {
    assert (earlier + [m])[..|earlier|] == earlier && m in earlier + [m];
    assert forall x :: x in earlier ==> x in earlier + [m];
    EveryOutputIsTheSource(kind, enc, dec, sync, streams, earlier);
    var t := HandleAll(kind, dec, earlier);
    GateIsCorrect(kind, enc, dec, sync, streams[m.serial], ContextOf(dec, t.contexts, m.serial), m);
    image := Gate(kind, dec, ContextOf(dec, t.contexts, m.serial), m).1.image;
  }

  lemma WriteOneMore<D, I, P>(t: Thread<D, I>, u: Thread<D, I>, before: seq<Output<I>>, run: seq<Message<P>>, image: I)
    requires run != []
    requires WroteRun(t, before, run[..|run| - 1])
    requires u.outputs == t.outputs + [Output(run[|run| - 1].serial, run[|run| - 1].sequenceId, image)]
    ensures WroteRun(u, before, run)
  {
  }

  lemma FollowerIsInSequence<D, I, P>(dec: Decoder<D, I, P>, t: Thread<D, I>, previous: Message<P>, m: Message<P>)
    requires IsAt(t, previous) && m.serial == previous.serial
    requires m.sequenceId == previous.sequenceId + 1 < TWO_64
    ensures InSequence(ContextOf(dec, t.contexts, m.serial), m.sequenceId)
  {
  }

  /** A keyframe, then messages of the same stream with consecutive ids. */
  ghost predicate IsKeyedRun<P>(run: seq<Message<P>>) {
    && run != [] && run[0].isKeyframe
    && forall i :: 0 < i < |run| ==>
         run[i].serial == run[i - 1].serial && run[i].sequenceId == run[i - 1].sequenceId + 1
  }

  /** Whatever came before, a keyframe is written out and the packets that follow it
      in order are too: one keyframe after any gap resynchronises. */
  lemma {:induction false} KeyframeResynchronises<E(!new), D(!new), I(!new), P(!new)>(
    kind: Kind, enc: Encoder<E, I, P>, dec: Decoder<D, I, P>, sync: (E, D) -> bool,
    streams: map<string, seq<Frame<I>>>, earlier: seq<Message<P>>, run: seq<Message<P>>)
    requires IsDeltaCodec(enc, dec, sync) && AllGenuine(earlier + run, kind, enc, dec, streams)
    requires IsKeyedRun(run)
    ensures WroteRun(HandleAll(kind, dec, earlier + run), HandleAll(kind, dec, earlier).outputs, run)
    ensures IsAt(HandleAll(kind, dec, earlier + run), run[|run| - 1])
    decreases |run|
  {
    hide IsDeltaCodec, AllGenuine, Handle, HandleAll, InSequence, IsAt;
    var n := |run| - 1;
    var m := run[n];
    var soFar := earlier + run[..n];
    assert earlier + run == soFar + [m];
    GenuinePrefix(soFar, m, kind, enc, dec, streams);
    var t, before := HandleAll(kind, dec, soFar), HandleAll(kind, dec, earlier).outputs;
    if n > 0 {
      KeyframeResynchronises(kind, enc, dec, sync, streams, earlier, run[..n]);
      FollowerIsInSequence(dec, t, run[n - 1], m);
    } else {
      assert soFar == earlier;
    }
    assert WroteRun(t, before, run[..n]);
    var image := HandleWrites(kind, enc, dec, sync, streams, soFar, m);
    WriteOneMore(t, HandleAll(kind, dec, earlier + run), before, run, image);
  }

  lemma GenuinePrefix<E(!new), D(!new), I(!new), P(!new)>(
    soFar: seq<Message<P>>, m: Message<P>, kind: Kind, enc: Encoder<E, I, P>, dec: Decoder<D, I, P>,
    streams: map<string, seq<Frame<I>>>)
    requires AllGenuine(soFar + [m], kind, enc, dec, streams)
    ensures AllGenuine(soFar, kind, enc, dec, streams) && m.sequenceId < TWO_64
  {
    assert m in soFar + [m] && forall x :: x in soFar ==> x in soFar + [m];
  }

  class StreamThread<D, I, P> {
    const kind: Kind
    const dec: Decoder<D, I, P>
    var serialToContext: map<string, Context<D>>
    var outputs: seq<Output<I>>
    var aborted: bool

    constructor (kind: Kind, dec: Decoder<D, I, P>)
      ensures this.kind == kind && this.dec == dec
      ensures Thread(serialToContext, outputs, aborted) == HandleAll(kind, dec, [])
    {
      this.kind, this.dec := kind, dec;
      serialToContext, outputs, aborted := map[], [], false;
    }

    method HandleMessage(m: Message<P>)
      requires !aborted
      modifies this
      ensures Thread(serialToContext, outputs, aborted) ==
              Handle(kind, dec, old(Thread(serialToContext, outputs, aborted)), m)
    {
      if !m.intact {
        aborted := true;
        return;
      }
      var ctx := Fresh(dec);
      if m.serial in serialToContext {
        ctx := serialToContext[m.serial];
      }
      if ctx.lastSequenceId != INVALID_SEQUENCE_ID {
        if (ctx.lastSequenceId + 1) % TWO_64 != m.sequenceId {
          ctx := Context(dec.initial, INVALID_SEQUENCE_ID, true);
        }
      }
      serialToContext := serialToContext[m.serial := ctx];
      if ctx.needKeyframe && !m.isKeyframe {
        return;
      }
      if ctx.needKeyframe && kind.Depth? && !dec.isKey(m.packet) {
        aborted := true;
        return;
      }
      var result := dec.decode(ctx.decompressor, m.packet);
      if result.None? {
        if kind.Depth? {
          serialToContext := serialToContext[m.serial := Context(dec.initial, INVALID_SEQUENCE_ID, true)];
        } else {
          serialToContext := serialToContext[m.serial := Context(ctx.decompressor, m.sequenceId, false)];
          aborted := true;
        }
        return;
      }
      serialToContext := serialToContext[m.serial := Context(result.value.0, m.sequenceId, false)];
      outputs := outputs + [Output(m.serial, m.sequenceId, result.value.1)];
    }

    /** The message loop, over all the messages that move_read delivers. */
    method Run(messages: seq<Message<P>>)
      requires Thread(serialToContext, outputs, aborted) == HandleAll(kind, dec, [])
      modifies this
      ensures Thread(serialToContext, outputs, aborted) == HandleAll(kind, dec, messages)
    {
      for i := 0 to |messages|
        invariant Thread(serialToContext, outputs, aborted) == HandleAll(kind, dec, messages[..i])
      {
        assert messages[..i + 1][..i] == messages[..i];
        if !aborted {
          HandleMessage(messages[i]);
        }
      }
      assert messages[..|messages|] == messages;
    }
  }
}
