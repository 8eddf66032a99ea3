/**
 The publisher and subscriber threads of app/pubsub.cpp: multipart framing,
 sequence numbers, parsing, and routing by topic prefix. A socket is the stream of
 its message parts, each with its "more" flag.
 */
module PubSub {
  import opened Options
  import opened Subsequences
  import opened Words

  const HEADER_SIZE := 32

  // ---------------------------------------------------------------- the header

  /** AXBY_PUBSUB_MessageHeader: three 64-bit and three 16-bit fields. */
  datatype Header = Header(
    senderProcessId: nat,
    senderSequenceId: nat,
    senderProcessTimeUs: nat,
    protocolVersion: nat,
    messageVersion: nat,
    flags: nat)
  {
    predicate Valid() {
      && senderProcessId < TWO_64 && senderSequenceId < TWO_64 && senderProcessTimeUs < TWO_64
      && protocolVersion < 0x1_0000 && messageVersion < 0x1_0000 && flags < 0x1_0000
    }
  }

  function LittleEndian(n: nat, k: nat): (b: seq<Byte>)
    ensures |b| == k
  {
    if k == 0 then [] else [n % 256] + LittleEndian(n / 256, k - 1)
  }

  function ReadLittleEndian(b: seq<Byte>): nat {
    if b == [] then 0 else b[0] + 256 * ReadLittleEndian(b[1..])
  }

  lemma {:induction false} LittleEndianRoundTrip(n: nat, k: nat)
    requires n < Pow256(k)
    ensures ReadLittleEndian(LittleEndian(n, k)) == n
  {
    if k > 0 {
      LittleEndianRoundTrip(n / 256, k - 1);
      assert LittleEndian(n, k)[1..] == LittleEndian(n / 256, k - 1);
    }
  }

  /** The bytes of the struct in memory; the last two are padding. */
  function HeaderBytes(h: Header): (b: seq<Byte>)
    ensures |b| == HEADER_SIZE
  {
    LittleEndian(h.senderProcessId, 8) + LittleEndian(h.senderSequenceId, 8) + LittleEndian(h.senderProcessTimeUs, 8)
    + LittleEndian(h.protocolVersion, 2) + LittleEndian(h.messageVersion, 2) + LittleEndian(h.flags, 2) + [0, 0]
  }

  function ReadHeader(b: seq<Byte>): Header
    requires |b| == HEADER_SIZE
  {
    Header(ReadLittleEndian(b[0..8]), ReadLittleEndian(b[8..16]), ReadLittleEndian(b[16..24]),
           ReadLittleEndian(b[24..26]), ReadLittleEndian(b[26..28]), ReadLittleEndian(b[28..30]))
  }

  lemma FieldLimits()
    ensures Pow256(2) == 0x1_0000 && Pow256(8) == TWO_64
  {
    assert Pow256(4) == 0x1_0000 * Pow256(2) && Pow256(6) == 0x1_0000 * Pow256(4);
  }

  lemma HeaderRoundTrip(h: Header)
    requires h.Valid()
    ensures ReadHeader(HeaderBytes(h)) == h
  {
    FieldLimits();
    var b := HeaderBytes(h);
    assert b[0..8] == LittleEndian(h.senderProcessId, 8);
    assert b[8..16] == LittleEndian(h.senderSequenceId, 8);
    assert b[16..24] == LittleEndian(h.senderProcessTimeUs, 8);
    assert b[24..26] == LittleEndian(h.protocolVersion, 2);
    assert b[26..28] == LittleEndian(h.messageVersion, 2);
    assert b[28..30] == LittleEndian(h.flags, 2);
    LittleEndianRoundTrip(h.senderProcessId, 8);
    LittleEndianRoundTrip(h.senderSequenceId, 8);
    LittleEndianRoundTrip(h.senderProcessTimeUs, 8);
    LittleEndianRoundTrip(h.protocolVersion, 2);
    LittleEndianRoundTrip(h.messageVersion, 2);
    LittleEndianRoundTrip(h.flags, 2);
  }

  /** The i-th lowest byte of a number. */
  function Digit(n: nat, i: nat): (d: Byte) {
    n / Pow256(i) % 256
  }

  lemma {:induction false} LittleEndianDigit(n: nat, k: nat, i: nat)
    requires i < k
    ensures LittleEndian(n, k)[i] == Digit(n, i)
  {
    if i > 0 {
      LittleEndianDigit(n / 256, k - 1, i - 1);
      DivideTwice(n, Pow256(i - 1));
    }
  }

  lemma DivideTwice(n: nat, d: nat)
    requires d >= 1
    ensures n / 256 / d == n / (256 * d)
  {
    var q := n / (256 * d);
    var r := n % (256 * d);
    assert n == 256 * (d * q) + r;
    assert n / 256 == d * q + r / 256;
    assert 0 <= r / 256 < d;
    QuotientIs(d, q, r / 256);
  }

  lemma QuotientIs(d: int, q: int, r: int)
    requires 0 <= r < d
    ensures (d * q + r) / d == q
  {
    var p := (d * q + r) / d;
    var e := p - q;
    assert d * p <= d * q + r < d * p + d;
    assert d * e == d * p - d * q;
    assert -d < d * e < d;
    SmallMultiple(d, e);
  }

  lemma SmallMultiple(d: int, e: int)
    requires -d < d * e < d
    ensures e == 0
  {
  }

  /** Where each byte of a header stands: three 64-bit and three 16-bit little-endian
      fields at their C offsets. */
  lemma HeaderLayout(h: Header, i: nat)
    requires i < HEADER_SIZE
    ensures i < 8 ==> HeaderBytes(h)[i] == Digit(h.senderProcessId, i)
    ensures 8 <= i < 16 ==> HeaderBytes(h)[i] == Digit(h.senderSequenceId, i - 8)
    ensures 16 <= i < 24 ==> HeaderBytes(h)[i] == Digit(h.senderProcessTimeUs, i - 16)
    ensures 24 <= i < 26 ==> HeaderBytes(h)[i] == Digit(h.protocolVersion, i - 24)
    ensures 26 <= i < 28 ==> HeaderBytes(h)[i] == Digit(h.messageVersion, i - 26)
    ensures 28 <= i < 30 ==> HeaderBytes(h)[i] == Digit(h.flags, i - 28)
    ensures 30 <= i ==> HeaderBytes(h)[i] == 0
  {
    hide Digit;
    if i < 8 { LittleEndianDigit(h.senderProcessId, 8, i); }
    else if i < 16 { LittleEndianDigit(h.senderSequenceId, 8, i - 8); }
    else if i < 24 { LittleEndianDigit(h.senderProcessTimeUs, 8, i - 16); }
    else if i < 26 { LittleEndianDigit(h.protocolVersion, 2, i - 24); }
    else if i < 28 { LittleEndianDigit(h.messageVersion, 2, i - 26); }
    else if i < 30 { LittleEndianDigit(h.flags, 2, i - 28); }
  }

  // ---------------------------------------------------------------- publishing

  type Frame = seq<Byte>

  datatype Part = Part(payload: seq<Byte>, more: bool)

  datatype Message = Message(topic: seq<Byte>, header: Header, frames: seq<Frame>)

  /** A publisher request with the clock reading made while it is served. */
  datatype Request = Request(
    bindAddress: string,
    topic: seq<Byte>,
    messageVersion: nat,
    flags: nat,
    frames: seq<Frame>,
    headerOverride: Option<Header>,
    processTimeUs: nat)
  {
    predicate Valid() {
      && messageVersion < 0x1_0000 && flags < 0x1_0000 && processTimeUs < TWO_64
      && (headerOverride.Some? ==> headerOverride.value.Valid())
    }

    /** A request without a topic only binds the socket. */
    predicate Publishes() { topic != [] }

    /** A CHECK allows an address to bind or a topic, not both. */
    predicate Conflicts() { bindAddress != "" && topic != [] }

    predicate TakesId() { Publishes() && headerOverride.None? }

    function HeaderFor(processId: nat, sequenceId: nat): Header {
      if headerOverride.Some? then headerOverride.value
      else Header(processId, sequenceId, processTimeUs, 0, messageVersion, flags)
    }
  }

  predicate AllValid(requests: seq<Request>) {
    forall r :: r in requests ==> r.Valid()
  }

  function FrameParts(frames: seq<Frame>): (parts: seq<Part>)
    ensures |parts| == |frames|
  {
    seq(|frames|, i requires 0 <= i < |frames| => Part(frames[i], i + 1 != |frames|))
  }

  /** Topic and header always announce more. */
  function MessageParts(m: Message): (parts: seq<Part>) {
    [Part(m.topic, true), Part(HeaderBytes(m.header), true)] + FrameParts(m.frames)
  }

  function NextId(id: nat, r: Request): (next: nat) {
    if r.TakesId() then (id + 1) % TWO_64 else id
  }

  /** The messages that a list of requests stands for. */
  function Messages(requests: seq<Request>, processId: nat, id: nat): (ms: seq<Message>) {
    if requests == [] then []
    else
      Own(requests[0], processId, id) + Messages(requests[1..], processId, NextId(id, requests[0]))
  }

  /** The message of one request, if it publishes. */
  function Own(r: Request, processId: nat, id: nat): (ms: seq<Message>) {
    if r.Publishes() then [Message(r.topic, r.HeaderFor(processId, id), r.frames)] else []
  }

  function Stream(ms: seq<Message>): (parts: seq<Part>) {
    if ms == [] then [] else MessageParts(ms[0]) + Stream(ms[1..])
  }

  lemma {:induction false} StreamAppend(a: seq<Message>, b: seq<Message>)
    ensures Stream(a + b) == Stream(a) + Stream(b)
  {
    if a == [] {
      assert a + b == b;
    } else {
      assert (a + b)[1..] == a[1..] + b;
      StreamAppend(a[1..], b);
    }
  }

  // ---------------------------------------------------------------- parsing

  datatype Received = Complete(message: Message, rest: seq<Part>) | Waiting | Aborted

  /** The do-while loop over the remaining frames. */
  function TakeFrames(parts: seq<Part>): (r: Option<(seq<Frame>, seq<Part>)>)
    ensures r.Some? ==> r.value.0 != [] && |r.value.1| < |parts|
  {
    if parts == [] then None
    else if !parts[0].more then Some(([parts[0].payload], parts[1..]))
    else
      match TakeFrames(parts[1..])
      case None => None
      case Some((frames, rest)) => Some(([parts[0].payload] + frames, rest))
  }

  /** One turn of the subscriber's receive loop. Waiting is a blocked or timed-out recv. */
  function Receive(parts: seq<Part>): (r: Received)
    ensures r.Complete? ==> |r.rest| < |parts|
  {
    if parts == [] then Waiting
    else if !parts[0].more then Aborted
    else if |parts| == 1 then Waiting
    else
      var taken := if parts[1].more then TakeFrames(parts[2..]) else Some(([], parts[2..]));
      match taken
      case None => Waiting
      case Some((frames, rest)) =>
        if |parts[1].payload| != HEADER_SIZE then Aborted
        else Complete(Message(parts[0].payload, ReadHeader(parts[1].payload), frames), rest)
  }

  /** Everything received from a stream, if it ends with a complete message. */
  function ReceiveAll(parts: seq<Part>): (r: Option<seq<Message>>)
    decreases |parts|
  {
    if parts == [] then Some([])
    else
      match Receive(parts)
      case Complete(message, rest) =>
        (match ReceiveAll(rest) case None => None case Some(ms) => Some([message] + ms))
      case _ => None
  }

  /** The parts up to and including the first that does not announce more, if there is one. */
  ghost predicate EndsAt(parts: seq<Part>, end: nat) {
    end < |parts| && !parts[end].more && forall j :: 0 <= j < end ==> parts[j].more
  }

  /** Only a message with a frame has an end: its last frame. */
  lemma PartsOfMessage(m: Message, i: nat)
    requires i < |MessageParts(m)|
    ensures |MessageParts(m)| == 2 + |m.frames|
    ensures
      var part := MessageParts(m)[i];
      && part.payload == (if i == 0 then m.topic else if i == 1 then HeaderBytes(m.header) else m.frames[i - 2])
      && (part.more <==> m.frames == [] || i < 1 + |m.frames|)
  {
  }

  lemma {:induction false} TakeFramesToTheEnd(parts: seq<Part>, end: nat)
    requires EndsAt(parts, end)
    ensures
      var taken := TakeFrames(parts);
      && taken.Some? && taken.value.1 == parts[end + 1..] && |taken.value.0| == end + 1
      && forall j :: 0 <= j <= end ==> taken.value.0[j] == parts[j].payload
  {
    if end > 0 {
      assert EndsAt(parts[1..], end - 1);
      TakeFramesToTheEnd(parts[1..], end - 1);
    }
  }

  lemma {:induction false} TakeFramesWaits(parts: seq<Part>)
    requires forall j :: 0 <= j < |parts| ==> parts[j].more
    ensures TakeFrames(parts).None?
  {
    if parts != [] {
      TakeFramesWaits(parts[1..]);
    }
  }

  /** Of any parts, genuine or not: the receive loop takes those up to the first that does
      not announce more, as topic, header and frames. It stops at a topic that announces
      nothing and at a header of the wrong size. */
  lemma ReceiveTakesToTheEnd(parts: seq<Part>, end: nat)
    requires EndsAt(parts, end)
    ensures
      var r := Receive(parts);
      if end == 0 || |parts[1].payload| != HEADER_SIZE then r.Aborted?
      else
        && r.Complete? && r.rest == parts[end + 1..]
        && r.message.topic == parts[0].payload && r.message.header == ReadHeader(parts[1].payload)
        && |r.message.frames| == end - 1
        && forall j :: 0 <= j < end - 1 ==> r.message.frames[j] == parts[j + 2].payload
  {
    hide ReadHeader;
    if end >= 2 {
      var frames := parts[2..];
      assert EndsAt(frames, end - 2) by {
        assert forall j :: 0 <= j < end - 2 ==> frames[j] == parts[j + 2];
      }
      TakeFramesToTheEnd(frames, end - 2);
    }
  }

  /** And it waits while every part so far announces more. */
  lemma ReceiveWaits(parts: seq<Part>)
    requires forall j :: 0 <= j < |parts| ==> parts[j].more
    ensures Receive(parts).Waiting?
  {
    if |parts| >= 2 {
      TakeFramesWaits(parts[2..]);
    }
  }

  lemma {:induction false} FramesParseBack(frames: seq<Frame>, rest: seq<Part>)
    requires frames != []
    ensures TakeFrames(FrameParts(frames) + rest) == Some((frames, rest))
  {
    var parts := FrameParts(frames) + rest;
    if |frames| == 1 {
      assert parts[1..] == rest && [frames[0]] == frames;
    } else {
      assert parts[1..] == FrameParts(frames[1..]) + rest;
      FramesParseBack(frames[1..], rest);
      assert [frames[0]] + frames[1..] == frames;
    }
  }

  lemma MessageParsesBack(m: Message, rest: seq<Part>)
    requires m.header.Valid() && m.frames != []
    ensures Receive(MessageParts(m) + rest) == Complete(m, rest)
  {
    var parts := MessageParts(m) + rest;
    assert parts[2..] == FrameParts(m.frames) + rest;
    FramesParseBack(m.frames, rest);
    HeaderRoundTrip(m.header);
  }

  ghost predicate AllHaveFrames(ms: seq<Message>) {
    forall m :: m in ms ==> m.frames != []
  }

  ghost predicate AllHeadersValid(ms: seq<Message>) {
    forall m :: m in ms ==> m.header.Valid()
  }

  lemma FramelessMessageIsNotParsed(m: Message, rest: seq<Part>)
    requires m.frames == []
    ensures Receive(MessageParts(m) + rest).Complete? ==> Receive(MessageParts(m) + rest).message.frames != []
  {
    var parts := MessageParts(m) + rest;
    assert parts[1].more;
  }

  /** The subscriber recovers exactly the published messages if and only if each of them
      has a frame: the parts of a frameless one run into the next message. */
  lemma {:induction false} StreamParsesBackIffFramed(ms: seq<Message>)
    requires AllHeadersValid(ms)
    ensures ReceiveAll(Stream(ms)) == Some(ms) <==> AllHaveFrames(ms)
  {
    if ms != [] {
      var m, others := ms[0], ms[1..];
      assert m in ms && (forall x :: x in ms <==> x == m || x in others) && ms == [m] + others;
      StreamParsesBackIffFramed(others);
      if m.frames == [] {
        FramelessMessageIsNotParsed(m, Stream(others));
      } else {
        MessageParsesBack(m, Stream(others));
        ReceiveAllCons(m, Stream(others));
      }
    }
  }

  lemma ReceiveAllCons(m: Message, rest: seq<Part>)
    requires Receive(MessageParts(m) + rest) == Complete(m, rest)
    ensures ReceiveAll(rest).None? ==> ReceiveAll(MessageParts(m) + rest).None?
    ensures ReceiveAll(rest).Some? ==> ReceiveAll(MessageParts(m) + rest) == Some([m] + ReceiveAll(rest).value)
  {
    assert MessageParts(m) + rest != [];
  }

  lemma {:induction false} MessagesAreValid(requests: seq<Request>, processId: nat, id: nat)
    requires AllValid(requests) && processId < TWO_64 && id < TWO_64
    ensures AllHeadersValid(Messages(requests, processId, id))
    ensures AllHaveFrames(Messages(requests, processId, id)) <==>
            forall r :: r in requests && r.Publishes() ==> r.frames != []
  {
    if requests != [] {
      var r, others := requests[0], requests[1..];
      assert r in requests && forall x :: x in requests <==> x == r || x in others;
      MessagesAreValid(others, processId, NextId(id, r));
      var first := Message(r.topic, r.HeaderFor(processId, id), r.frames);
      var rest := Messages(others, processId, NextId(id, r));
      if r.Publishes() {
        assert Messages(requests, processId, id) == [first] + rest;
        assert first in [first] + rest && forall m :: m in [first] + rest <==> m == first || m in rest;
      } else {
        assert Messages(requests, processId, id) == [] + rest == rest;
      }
    }
  }

  /** End to end, from requests to received messages. */
  lemma SubscriberRecoversRequests(requests: seq<Request>, processId: nat, id: nat)
    requires AllValid(requests) && processId < TWO_64 && id < TWO_64
    ensures ReceiveAll(Stream(Messages(requests, processId, id))) == Some(Messages(requests, processId, id)) <==>
            forall r :: r in requests && r.Publishes() ==> r.frames != []
  {
    MessagesAreValid(requests, processId, id);
    StreamParsesBackIffFramed(Messages(requests, processId, id));
  }

  // ---------------------------------------------------------------- sequence numbers

  function CountIds(requests: seq<Request>): (n: nat) {
    if requests == [] then 0 else (if requests[0].TakesId() then 1 else 0) + CountIds(requests[1..])
  }

  function CountPublished(requests: seq<Request>): (n: nat) {
    if requests == [] then 0 else (if requests[0].Publishes() then 1 else 0) + CountPublished(requests[1..])
  }

  lemma {:induction false} MessageOfRequest(requests: seq<Request>, processId: nat, id: nat, i: nat)
    requires i < |requests| && requests[i].Publishes() && id < TWO_64
    ensures
      var ms := Messages(requests, processId, id);
      var k := CountPublished(requests[..i]);
      && |ms| == CountPublished(requests)
      && k < |ms|
      && ms[k] == Message(requests[i].topic, ms[k].header, requests[i].frames)
      && ms[k].header == requests[i].HeaderFor(processId, (id + CountIds(requests[..i])) % TWO_64)
    decreases |requests|
  {
    hide Request.HeaderFor, NextId, CountIds;
    var r, others := requests[0], requests[1..];
    var next := NextId(id, r);
    NextIdIsAnId(id, r);
    MessageCount(others, processId, next);
    if i > 0 {
      MessageOfRequest(others, processId, next, i - 1);
      CountsShift(requests, id, i);
    } else {
      assert requests[..i] == [];
      NoIdsYet(id);
    }
  }

  lemma NextIdIsAnId(id: nat, r: Request)
    requires id < TWO_64
    ensures NextId(id, r) < TWO_64
  {
  }

  lemma CountsShift(requests: seq<Request>, id: nat, i: nat)
    requires 0 < i <= |requests| && id < TWO_64
    ensures
      var r, earlier := requests[0], requests[1..][..i - 1];
      && CountPublished(requests[..i]) == (if r.Publishes() then 1 else 0) + CountPublished(earlier)
      && (NextId(id, r) + CountIds(earlier)) % TWO_64 == (id + CountIds(requests[..i])) % TWO_64
  {
    var earlier := requests[1..][..i - 1];
    assert requests[..i][0] == requests[0] && requests[..i][1..] == earlier;
    WrapOnce(id, CountIds(earlier));
  }

  lemma NoIdsYet(id: nat)
    requires id < TWO_64
    ensures (id + CountIds([])) % TWO_64 == id
  {
  }

  /** The message of request i stands after those of the requests before it, and its id,
      unless overridden, counts the ids taken before it. */
  lemma IdsAreConsecutive(requests: seq<Request>, processId: nat, id: nat, i: nat)
    requires i < |requests| && requests[i].Publishes() && id < TWO_64
    ensures
      var ms := Messages(requests, processId, id);
      var k := CountPublished(requests[..i]);
      && |ms| == CountPublished(requests)
      && k < |ms|
      && ms[k].topic == requests[i].topic && ms[k].frames == requests[i].frames
      && var header := ms[k].header;
         if requests[i].headerOverride.Some? then header == requests[i].headerOverride.value
         else
           && header.senderProcessId == processId
           && header.senderSequenceId == (id + CountIds(requests[..i])) % TWO_64
           && header.senderProcessTimeUs == requests[i].processTimeUs
           && header.protocolVersion == 0
           && header.messageVersion == requests[i].messageVersion
           && header.flags == requests[i].flags
  {
    hide Messages, CountIds, CountPublished;
    MessageOfRequest(requests, processId, id, i);
  }

  lemma WrapOnce(id: nat, n: nat)
    ensures ((id + 1) % TWO_64 + n) % TWO_64 == (id + 1 + n) % TWO_64
  {
  }

  lemma {:induction false} MessageCount(requests: seq<Request>, processId: nat, id: nat)
    ensures |Messages(requests, processId, id)| == CountPublished(requests)
  {
    if requests != [] {
      MessageCount(requests[1..], processId, NextId(id, requests[0]));
    }
  }

  // ---------------------------------------------------------------- routing

  /** A subscription, and the messages that its buffer accepted. */
  datatype Output = Output(prefix: seq<Byte>, received: seq<Message>)

  /** `full` names the subscriptions whose buffer refuses the message. */
  datatype Event = Subscribe(prefix: seq<Byte>) | Arrive(message: Message, full: set<nat>)

  function Route(outputs: seq<Output>, m: Message, full: set<nat>): (r: seq<Output>)
    ensures |r| == |outputs|
  {
    seq(|outputs|, i requires 0 <= i < |outputs| =>
      if outputs[i].prefix <= m.topic && i !in full
      then outputs[i].(received := outputs[i].received + [m]) else outputs[i])
  }

  function Apply(outputs: seq<Output>, e: Event): seq<Output> {
    match e
    case Subscribe(prefix) => outputs + [Output(prefix, [])]
    case Arrive(m, full) => Route(outputs, m, full)
  }

  function ApplyAll(outputs: seq<Output>, events: seq<Event>): seq<Output> {
    if events == [] then outputs else Apply(ApplyAll(outputs, events[..|events| - 1]), events[|events| - 1])
  }

  /** What subscription i must have received: in order, the arrivals whose topic has its
      prefix, less those that found its buffer full. */
  function Wanted(events: seq<Event>, prefix: seq<Byte>, i: nat): (ms: seq<Message>) {
    if events == [] then []
    else
      var before := Wanted(events[..|events| - 1], prefix, i);
      match events[|events| - 1]
      case Subscribe(_) => before
      case Arrive(m, full) => if prefix <= m.topic && i !in full then before + [m] else before
  }

  /** Each subscription receives just its own topics, in order, from the moment it is made. */
  lemma {:induction false} SubscriptionsReceiveTheirTopics(outputs: seq<Output>, events: seq<Event>, i: nat)
    requires i < |outputs|
    ensures
      var after := ApplyAll(outputs, events);
      && |outputs| <= |after|
      && after[i] == Output(outputs[i].prefix, outputs[i].received + Wanted(events, outputs[i].prefix, i))
  {
    if events != [] {
      SubscriptionsReceiveTheirTopics(outputs, events[..|events| - 1], i);
    }
  }

  // ---------------------------------------------------------------- end to end

  /** Messages that arrive one after the other, each with the subscriptions then full. */
  function Arrivals(ms: seq<Message>, fulls: seq<set<nat>>): (events: seq<Event>)
    requires |fulls| == |ms|
    ensures |events| == |ms|
  {
    seq(|ms|, k requires 0 <= k < |ms| => Arrive(ms[k], fulls[k]))
  }

  /** Subscription i must get message k: its prefix fits the topic, its buffer has room. */
  predicate Takes(ms: seq<Message>, fulls: seq<set<nat>>, prefix: seq<Byte>, i: nat, k: nat)
    requires k < |ms| == |fulls|
  {
    prefix <= ms[k].topic && i !in fulls[k]
  }

  /** Which of the first n messages it must get. */
  ghost function Positions(ms: seq<Message>, fulls: seq<set<nat>>, prefix: seq<Byte>, i: nat, n: nat): (ps: seq<nat>)
    requires n <= |ms| == |fulls|
    ensures forall j :: 0 <= j < |ps| ==> ps[j] < n && Takes(ms, fulls, prefix, i, ps[j])
    ensures forall j, k :: 0 <= j < k < |ps| ==> ps[j] < ps[k]
    ensures forall k :: 0 <= k < n && Takes(ms, fulls, prefix, i, k) ==> k in ps
  {
    if n == 0 then []
    else
      Positions(ms, fulls, prefix, i, n - 1) + if Takes(ms, fulls, prefix, i, n - 1) then [n - 1] else []
  }

  ghost function Picked(ms: seq<Message>, ps: seq<nat>): (picked: seq<Message>)
    requires forall j :: 0 <= j < |ps| ==> ps[j] < |ms|
    ensures |picked| == |ps|
    ensures forall j :: 0 <= j < |ps| ==> picked[j] == ms[ps[j]]
  {
    seq(|ps|, j requires 0 <= j < |ps| => ms[ps[j]])
  }

  lemma PickedLast(ms: seq<Message>, ps: seq<nat>, k: nat)
    requires k < |ms| && forall j :: 0 <= j < |ps| ==> ps[j] < |ms|
    ensures Picked(ms, ps + [k]) == Picked(ms, ps) + [ms[k]]
  {
  }

  lemma {:induction false} WantedIsPicked(ms: seq<Message>, fulls: seq<set<nat>>, prefix: seq<Byte>, i: nat, n: nat)
    requires n <= |ms| == |fulls|
    ensures Wanted(Arrivals(ms, fulls)[..n], prefix, i) == Picked(ms, Positions(ms, fulls, prefix, i, n))
  {
    hide Picked;
    var events := Arrivals(ms, fulls);
    if n == 0 {
      PickedNothing(ms);
    } else {
      WantedIsPicked(ms, fulls, prefix, i, n - 1);
      assert events[..n][..n - 1] == events[..n - 1] && events[..n][n - 1] == Arrive(ms[n - 1], fulls[n - 1]);
      PickedLast(ms, Positions(ms, fulls, prefix, i, n - 1), n - 1);
      assert Positions(ms, fulls, prefix, i, n - 1) + [] == Positions(ms, fulls, prefix, i, n - 1);
    }
  }

  lemma PickedNothing(ms: seq<Message>)
    ensures Picked(ms, []) == []
  {
  }

  /** From requests to subscriptions: when every request that publishes has a frame, each
      subscription receives, in order and once each, just the published messages whose topic
      has its prefix and for which its buffer has room. */
  lemma RequestsReachSubscriptions(requests: seq<Request>, processId: nat, id: nat,
                                   outputs: seq<Output>, fulls: seq<set<nat>>, i: nat)
    requires AllValid(requests) && processId < TWO_64 && id < TWO_64 && i < |outputs|
    requires forall r :: r in requests && r.Publishes() ==> r.frames != []
    requires |fulls| == |Messages(requests, processId, id)|
    ensures
      var ms := Messages(requests, processId, id);
      var parsed := ReceiveAll(Stream(ms));
      && parsed == Some(ms)
      && var after := ApplyAll(outputs, Arrivals(parsed.value, fulls));
         && |outputs| <= |after|
         && after[i] == Output(outputs[i].prefix,
                               outputs[i].received + Picked(ms, Positions(ms, fulls, outputs[i].prefix, i, |ms|)))
  {
    hide Messages, Stream, ReceiveAll, ApplyAll, Wanted, Positions;
    var ms := Messages(requests, processId, id);
    SubscriberRecoversRequests(requests, processId, id);
    var events := Arrivals(ms, fulls);
    SubscriptionsReceiveTheirTopics(outputs, events, i);
    WantedIsPicked(ms, fulls, outputs[i].prefix, i, |ms|);
    assert events[..|ms|] == events;
  }

  // ---------------------------------------------------------------- the threads

  lemma MessagesOfOne(r: Request, processId: nat, id: nat)
    ensures Messages([r], processId, id) == Own(r, processId, id)
    ensures Stream(Own(r, processId, id)) ==
            if r.Publishes() then MessageParts(Message(r.topic, r.HeaderFor(processId, id), r.frames)) else []
  {
    assert [r][1..] == [];
    assert Messages([r][1..], processId, NextId(id, r)) == [];
    if r.Publishes() {
      var m := Message(r.topic, r.HeaderFor(processId, id), r.frames);
      assert Stream([m]) == MessageParts(m) + Stream([]);
    }
  }

  lemma {:induction false} MessagesOfMore(requests: seq<Request>, r: Request, processId: nat, id: nat)
    ensures Messages(requests + [r], processId, id) ==
            Messages(requests, processId, id) + Own(r, processId, IdAfter(requests, id))
    ensures IdAfter(requests + [r], id) == NextId(IdAfter(requests, id), r)
    decreases requests
  {
    hide Own, NextId;
    if requests == [] {
      assert [] + [r] == [r] && [r][1..] == [];
      MessagesOfOne(r, processId, id);
    } else {
      assert (requests + [r])[0] == requests[0] && (requests + [r])[1..] == requests[1..] + [r];
      MessagesOfMore(requests[1..], r, processId, NextId(id, requests[0]));
    }
  }

  function IdAfter(requests: seq<Request>, id: nat): (next: nat) {
    if requests == [] then id else IdAfter(requests[1..], NextId(id, requests[0]))
  }

  function Bound(requests: seq<Request>): (addresses: seq<string>) {
    if requests == [] then []
    else
      Bound(requests[..|requests| - 1])
      + if requests[|requests| - 1].bindAddress != "" then [requests[|requests| - 1].bindAddress] else []
  }

  class Publisher {
    const processId: nat
    var sequenceId: nat
    var sent: seq<Part>
    var bound: seq<string>

    constructor (processId: nat)
      requires processId < TWO_64
      ensures this.processId == processId && sequenceId == 0 && sent == [] && bound == []
    {
      this.processId := processId;
      sequenceId, sent, bound := 0, [], [];
    }

    /** Sends topic, header and frames, part by part. */
    method Send(m: Message)
      modifies this`sent
      ensures sent == old(sent) + MessageParts(m)
    {
      sent := sent + [Part(m.topic, true)];
      sent := sent + [Part(HeaderBytes(m.header), true)];
      ghost var parts := FrameParts(m.frames);
      for i := 0 to |m.frames|
        invariant sent == old(sent) + [Part(m.topic, true), Part(HeaderBytes(m.header), true)] + parts[..i]
      {
        var more := i + 1 != |m.frames|;
        sent := sent + [Part(m.frames[i], more)];
        assert parts[..i + 1] == parts[..i] + [Part(m.frames[i], more)];
      }
      assert parts[..|m.frames|] == parts;
    }

    /** Serves one request; false where a CHECK stops the program. */
    method Serve(request: Request) returns (ok: bool)
      modifies this
      ensures ok <==> !request.Conflicts()
      ensures !ok ==> sequenceId == old(sequenceId) && sent == old(sent) && bound == old(bound)
      ensures ok ==>
                && sequenceId == NextId(old(sequenceId), request)
                && sent == old(sent) + Stream(Own(request, processId, old(sequenceId)))
                && bound == old(bound) + if request.bindAddress != "" then [request.bindAddress] else []
    {
      hide Stream, MessageParts, Own;
      MessagesOfOne(request, processId, sequenceId);
      if request.bindAddress != "" {
        if request.topic != [] {
          return false;
        }
        bound := bound + [request.bindAddress];
      }
      if request.topic != [] {
        var header;
        if request.headerOverride.Some? {
          header := request.headerOverride.value;
        } else {
          header := Header(processId, sequenceId, request.processTimeUs, 0, request.messageVersion, request.flags);
          sequenceId := (sequenceId + 1) % TWO_64;
        }
        Send(Message(request.topic, header, request.frames));
      }
      ok := true;
    }

    /** The loop over the requests, up to the first that a CHECK refuses. */
    method Run(requests: seq<Request>) returns (served: nat)
      modifies this
      ensures served <= |requests| && (served < |requests| ==> requests[served].Conflicts())
      ensures forall j :: 0 <= j < served ==> !requests[j].Conflicts()
      ensures sent == old(sent) + Stream(Messages(requests[..served], processId, old(sequenceId)))
      ensures bound == old(bound) + Bound(requests[..served])
    {
      hide Messages, Stream, Own, NextId, IdAfter, Bound, Request.Conflicts;
      NothingServed(processId, sequenceId);
      assert requests[..0] == [];
      for i := 0 to |requests|
        invariant forall j :: 0 <= j < i ==> !requests[j].Conflicts()
        invariant sequenceId == IdAfter(requests[..i], old(sequenceId))
        invariant sent == old(sent) + Stream(Messages(requests[..i], processId, old(sequenceId)))
        invariant bound == old(bound) + Bound(requests[..i])
      {
        ghost var soFar, r := requests[..i], requests[i];
        assert requests[..i + 1] == soFar + [r];
        MessagesOfMore(soFar, r, processId, old(sequenceId));
        StreamAppend(Messages(soFar, processId, old(sequenceId)), Own(r, processId, sequenceId));
        BoundMore(soFar, r);
        var ok := Serve(requests[i]);
        if !ok {
          return i;
        }
      }
      served := |requests|;
    }
  }

  lemma NothingServed(processId: nat, id: nat)
    ensures Stream(Messages([], processId, id)) == [] && IdAfter([], id) == id && Bound([]) == []
  {
  }

  lemma BoundMore(requests: seq<Request>, r: Request)
    ensures Bound(requests + [r]) == Bound(requests) + if r.bindAddress != "" then [r.bindAddress] else []
  {
    assert (requests + [r])[..|requests|] == requests;
  }

  /** The positions of the requests that have an address to bind. */
  ghost predicate AreBinders(ps: seq<nat>, requests: seq<Request>) {
    forall p: nat :: p in ps <==> p < |requests| && requests[p].bindAddress != ""
  }

  ghost function Addresses(requests: seq<Request>): (addresses: seq<string>)
    ensures |addresses| == |requests|
    ensures forall i :: 0 <= i < |requests| ==> addresses[i] == requests[i].bindAddress
  {
    seq(|requests|, i requires 0 <= i < |requests| => requests[i].bindAddress)
  }

  lemma OneMoreBinder(ps: seq<nat>, requests: seq<Request>, r: Request)
    requires AreBinders(ps, requests)
    ensures AreBinders(if r.bindAddress != "" then ps + [|requests|] else ps, requests + [r])
  {
  }

  /** The addresses bound are those of the requests that have one, in order and once each. */
  lemma {:induction false} BoundAddresses(requests: seq<Request>) returns (ps: seq<nat>)
    ensures AreBinders(ps, requests) && Selects(Addresses(requests), ps, Bound(requests))
  {
    hide Selects, AreBinders, Bound;
    if requests == [] {
      ps := [];
      NothingBound();
    } else {
      var n := |requests| - 1;
      var earlier, r := requests[..n], requests[n];
      assert requests == earlier + [r];
      var before := BoundAddresses(earlier);
      OneMoreBinder(before, earlier, r);
      BoundMore(earlier, r);
      SelectOneMore(Addresses(earlier), before, Bound(earlier), r.bindAddress);
      assert Addresses(earlier) + [r.bindAddress] == Addresses(requests);
      assert Bound(earlier) + [] == Bound(earlier);
      ps := if r.bindAddress != "" then before + [n] else before;
    }
  }

  lemma NothingBound()
    ensures AreBinders([], []) && Selects(Addresses([]), [], Bound([]))
  {
  }

  class Subscriber {
    var outputs: seq<Output>

    constructor ()
      ensures outputs == []
    {
      outputs := [];
    }

    method AddSubscription(prefix: seq<Byte>)
      modifies this
      ensures outputs == Apply(old(outputs), Subscribe(prefix))
    {
      outputs := outputs + [Output(prefix, [])];
    }

    /** The routing loop over the subscriptions. */
    method RouteMessage(m: Message, full: set<nat>)
      modifies this
      ensures outputs == Apply(old(outputs), Arrive(m, full))
    {
      for i := 0 to |outputs|
        invariant |outputs| == |old(outputs)|
        invariant forall j :: i <= j < |outputs| ==> outputs[j] == old(outputs)[j]
        invariant forall j :: 0 <= j < i ==> outputs[j] == Route(old(outputs), m, full)[j]
      {
        if outputs[i].prefix <= m.topic && i !in full {
          outputs := outputs[i := outputs[i].(received := outputs[i].received + [m])];
        }
      }
    }

    /** The receive loop body on a stream of parts. */
    method ReceiveMessage(parts: seq<Part>) returns (r: Received)
      ensures r == Receive(parts)
    {
      if parts == [] {
        return Waiting;
      }
      if !parts[0].more {
        return Aborted;
      }
      if |parts| == 1 {
        return Waiting;
      }
      var frames: seq<Frame> := [];
      var next := 2;
      if parts[1].more {
        var haveNext := true;
        PrependNothing(TakeFrames(parts[2..]));
        while haveNext
          invariant 2 <= next <= |parts|
          invariant haveNext ==> TakeFrames(parts[2..]) == Prepend(frames, TakeFrames(parts[next..]))
          invariant !haveNext ==> TakeFrames(parts[2..]) == Some((frames, parts[next..]))
          decreases |parts| - next, haveNext
        {
          if next == |parts| {
            return Waiting;
          }
          assert parts[next..][1..] == parts[next + 1..];
          PrependTwice(frames, parts[next].payload, TakeFrames(parts[next + 1..]));
          haveNext := parts[next].more;
          frames := frames + [parts[next].payload];
          next := next + 1;
        }
      }
      if |parts[1].payload| != HEADER_SIZE {
        return Aborted;
      }
      r := Complete(Message(parts[0].payload, ReadHeader(parts[1].payload), frames), parts[next..]);
    }
  }

  function Prepend(frames: seq<Frame>, r: Option<(seq<Frame>, seq<Part>)>): Option<(seq<Frame>, seq<Part>)> {
    match r
    case None => None
    case Some((more, rest)) => Some((frames + more, rest))
  }

  lemma PrependNothing(r: Option<(seq<Frame>, seq<Part>)>)
    ensures Prepend([], r) == r
  {
    if r.Some? {
      assert [] + r.value.0 == r.value.0;
    }
  }

  lemma PrependTwice(frames: seq<Frame>, frame: Frame, r: Option<(seq<Frame>, seq<Part>)>)
    ensures Prepend(frames, Prepend([frame], r)) == Prepend(frames + [frame], r)
  {
    if r.Some? {
      assert frames + ([frame] + r.value.0) == (frames + [frame]) + r.value.0;
    }
  }
}
