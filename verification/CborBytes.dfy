/**
 The byte level of RFC 8949 (sections 3 and 3.1) for the item kinds that
 serialization/ produces: an encoder with shortest heads, a parser, and their
 round trip.
 */
module CborBytes {
  import opened Options
  import opened Words

  /** A map holds its keys and values alternately; floats are opaque bit patterns. */
  datatype Item =
    | UInt(n: nat)
    | NInt(n: nat)             // the integer -1 - n
    | Bytes(bytes: seq<Byte>)
    | Text(text: seq<Byte>)
    | Array(items: seq<Item>)
    | Map(pairs: seq<Item>)
    | Float32(bits: nat)
    | Float64(bits: nat)

  predicate Encodable(item: Item) {
    match item
    case UInt(n) => n < TWO_64
    case NInt(n) => n < TWO_64
    case Bytes(bytes) => |bytes| < TWO_64
    case Text(text) => |text| < TWO_64
    case Array(items) => |items| < TWO_64 && AllEncodable(items)
    case Map(pairs) => |pairs| / 2 < TWO_64 && |pairs| % 2 == 0 && AllEncodable(pairs)
    case Float32(bits) => bits < 0x1_0000_0000
    case Float64(bits) => bits < TWO_64
  }

  predicate AllEncodable(items: seq<Item>) {
    items == [] || (Encodable(items[0]) && AllEncodable(items[1..]))
  }

  // ---------------------------------------------------------------- big-endian numbers

  function BigEndian(n: nat, k: nat): (b: seq<Byte>)
    ensures |b| == k
  {
    if k == 0 then [] else BigEndian(n / 256, k - 1) + [n % 256]
  }

  function ReadBigEndian(b: seq<Byte>): nat {
    if b == [] then 0 else 256 * ReadBigEndian(b[..|b| - 1]) + b[|b| - 1]
  }

  lemma {:induction false} BigEndianRoundTrip(n: nat, k: nat)
    requires n < Pow256(k)
    ensures ReadBigEndian(BigEndian(n, k)) == n
  {
    if k > 0 {
      BigEndianRoundTrip(n / 256, k - 1);
      assert BigEndian(n, k)[..k - 1] == BigEndian(n / 256, k - 1);
    }
  }

  // ---------------------------------------------------------------- heads

  /** How many bytes follow the initial byte. */
  function Extra(n: nat): (k: nat)
    requires n < TWO_64
    ensures n >= 24 ==> n < Pow256(k)
  {
    assert Pow256(1) == 256 && Pow256(2) == 65536;
    assert Pow256(4) == 256 * Pow256(3) && Pow256(3) == 256 * Pow256(2);
    assert Pow256(8) == TWO_64 by {
      assert Pow256(6) == 256 * Pow256(5) && Pow256(5) == 256 * Pow256(4);
      assert Pow256(8) == 256 * Pow256(7) && Pow256(7) == 256 * Pow256(6);
    }
    if n < 24 then 0 else if n < 256 then 1 else if n < 65536 then 2 else if n < 0x1_0000_0000 then 4 else 8
  }

  /** The additional information that announces k following bytes. */
  function InfoOf(k: nat): (info: nat) {
    if k == 1 then 24 else if k == 2 then 25 else if k == 4 then 26 else 27
  }

  function Head(major: nat, n: nat): (b: seq<Byte>)
    requires major < 8 && n < TWO_64
    ensures |b| == 1 + Extra(n)
  {
    if n < 24 then [32 * major + n]
    else [32 * major + InfoOf(Extra(n))] + BigEndian(n, Extra(n))
  }

  datatype ParsedHead = ParsedHead(major: nat, info: nat, n: nat, rest: seq<Byte>)

  function ParseHead(b: seq<Byte>): (r: Option<ParsedHead>)
    ensures r.Some? ==> |r.value.rest| < |b|
  {
    if b == [] then None
    else
      var info := b[0] % 32;
      var k := if info < 24 then 0 else if info == 24 then 1 else if info == 25 then 2
               else if info == 26 then 4 else 8;
      if info > 27 || |b| < 1 + k then None
      else Some(ParsedHead(b[0] / 32, info, if info < 24 then info else ReadBigEndian(b[1..1 + k]), b[1 + k..]))
  }

  lemma InitialByte(major: nat, info: nat)
    requires major < 8 && info < 32
    ensures (32 * major + info) % 32 == info && (32 * major + info) / 32 == major
  {
  }

  lemma ShortHeadRoundTrip(major: nat, n: nat, rest: seq<Byte>)
    requires major < 8 && n < 24
    ensures ParseHead(Head(major, n) + rest) == Some(ParsedHead(major, n, n, rest))
  {
    InitialByte(major, n);
    assert (Head(major, n) + rest)[1..] == rest;
  }

  lemma LongHeadRoundTrip(major: nat, n: nat, k: nat, rest: seq<Byte>)
    requires major < 8 && (k == 1 || k == 2 || k == 4 || k == 8) && n < Pow256(k)
    ensures
      var b := [32 * major + InfoOf(k)] + BigEndian(n, k) + rest;
      ParseHead(b) == Some(ParsedHead(major, InfoOf(k), n, rest))
  {
    var b := [32 * major + InfoOf(k)] + BigEndian(n, k) + rest;
    InitialByte(major, InfoOf(k));
    BigEndianRoundTrip(n, k);
    assert b[1..1 + k] == BigEndian(n, k) && b[1 + k..] == rest;
  }

  lemma HeadRoundTrip(major: nat, n: nat, rest: seq<Byte>)
    requires major < 8 && n < TWO_64
    ensures
      var r := ParseHead(Head(major, n) + rest);
      r.Some? && r.value.major == major && r.value.n == n && r.value.rest == rest
  {
    if n < 24 {
      ShortHeadRoundTrip(major, n, rest);
    } else {
      LongHeadRoundTrip(major, n, Extra(n), rest);
    }
  }

  lemma {:induction false} ReadBigEndianBound(b: seq<Byte>)
    ensures ReadBigEndian(b) < Pow256(|b|)
  {
    if b != [] {
      ReadBigEndianBound(b[..|b| - 1]);
    }
  }

  lemma SmallPowers()
    ensures Pow256(1) == 256 && Pow256(2) == 65536 && Pow256(4) == 0x1_0000_0000 && Pow256(8) == TWO_64
  {
    assert Pow256(2) == 65536 && Pow256(4) == 65536 * Pow256(2);
    assert Pow256(6) == 65536 * Pow256(4) && Pow256(8) == 65536 * Pow256(6);
  }

  /** The five lengths of a head. */
  lemma HeadLength(major: nat, n: nat)
    requires major < 8 && n < TWO_64
    ensures |Head(major, n)| ==
            if n < 24 then 1
            else if n < 256 then 2
            else if n < 65536 then 3
            else if n < 0x1_0000_0000 then 5
            else 9
  {
  }

  /** No shorter bytes parse as the same head: it is in its shortest form. */
  lemma HeadIsShortest(b: seq<Byte>, head: ParsedHead)
    requires ParseHead(b) == Some(head)
    ensures head.major < 8 && head.n < TWO_64
    ensures |Head(head.major, head.n)| + |head.rest| <= |b|
  {
    hide Pow256, ReadBigEndian;
    SmallPowers();
    var k := |b| - |head.rest| - 1;
    if head.info >= 24 {
      ReadBigEndianBound(b[1..1 + k]);
    }
    HeadLength(head.major, head.n);
  }

  // ---------------------------------------------------------------- items

  function Encode(item: Item): (b: seq<Byte>)
    requires Encodable(item)
    decreases item
  {
    match item
    case UInt(n) => Head(0, n)
    case NInt(n) => Head(1, n)
    case Bytes(bytes) => Head(2, |bytes|) + bytes
    case Text(text) => Head(3, |text|) + text
    case Array(items) => Head(4, |items|) + EncodeAll(items)
    case Map(pairs) => Head(5, |pairs| / 2) + EncodeAll(pairs)
    case Float32(bits) => [0xFA] + BigEndian(bits, 4)
    case Float64(bits) => [0xFB] + BigEndian(bits, 8)
  }

  function EncodeAll(items: seq<Item>): (b: seq<Byte>)
    requires AllEncodable(items)
    decreases items
  {
    if items == [] then [] else Encode(items[0]) + EncodeAll(items[1..])
  }

  /** Parses one item and returns it with the bytes that follow it. */
  function Parse(b: seq<Byte>): (r: Option<(Item, seq<Byte>)>)
    ensures r.Some? ==> |r.value.1| < |b|
    decreases |b|, 0
  {
    match ParseHead(b)
    case None => None
    case Some(head) =>
      var n, rest := head.n, head.rest;
      if head.major == 0 then Some((UInt(n), rest))
      else if head.major == 1 then Some((NInt(n), rest))
      else if head.major == 2 then if n <= |rest| then Some((Bytes(rest[..n]), rest[n..])) else None
      else if head.major == 3 then if n <= |rest| then Some((Text(rest[..n]), rest[n..])) else None
      else if head.major == 4 then
        match ParseMany(rest, n)
        case None => None
        case Some((items, after)) => Some((Array(items), after))
      else if head.major == 5 then
        match ParseMany(rest, 2 * n)
        case None => None
        case Some((pairs, after)) => Some((Map(pairs), after))
      else if head.major == 7 && head.info == 26 then Some((Float32(n), rest))
      else if head.major == 7 && head.info == 27 then Some((Float64(n), rest))
      else None
  }

  function ParseMany(b: seq<Byte>, count: nat): (r: Option<(seq<Item>, seq<Byte>)>)
    ensures r.Some? ==> |r.value.1| <= |b|
    decreases |b|, count
  {
    if count == 0 then Some(([], b))
    else
      match Parse(b)
      case None => None
      case Some((item, rest)) =>
        match ParseMany(rest, count - 1)
        case None => None
        case Some((items, after)) => Some(([item] + items, after))
  }

  lemma HeadThenPayload(major: nat, n: nat, payload: seq<Byte>, rest: seq<Byte>)
    requires major < 8 && n < TWO_64
    ensures
      var r := ParseHead(Head(major, n) + payload + rest);
      r.Some? && r.value.major == major && r.value.n == n && r.value.rest == payload + rest
  {
    hide ParseHead, Head;
    HeadRoundTrip(major, n, payload + rest);
    assert Head(major, n) + payload + rest == Head(major, n) + (payload + rest);
  }

  lemma NumberRoundTrip(item: Item, rest: seq<Byte>)
    requires Encodable(item) && (item.UInt? || item.NInt?)
    ensures Parse(Encode(item) + rest) == Some((item, rest))
  {
    HeadRoundTrip(if item.UInt? then 0 else 1, item.n, rest);
  }

  lemma StringRoundTrip(item: Item, rest: seq<Byte>)
    requires Encodable(item) && (item.Bytes? || item.Text?)
    ensures Parse(Encode(item) + rest) == Some((item, rest))
  {
    match item
    case Bytes(bytes) => HeadThenPayload(2, |bytes|, bytes, rest);
    case Text(text) => HeadThenPayload(3, |text|, text, rest);
  }

  lemma FloatRoundTrip(item: Item, rest: seq<Byte>)
    requires Encodable(item) && (item.Float32? || item.Float64?)
    ensures Parse(Encode(item) + rest) == Some((item, rest))
  {
    hide Pow256, BigEndian, ReadBigEndian;
    SmallPowers();
    match item
    case Float32(bits) => LongHeadRoundTrip(7, bits, 4, rest);
    case Float64(bits) => LongHeadRoundTrip(7, bits, 8, rest);
  }

  lemma ParseContainer(item: Item, items: seq<Item>, payload: seq<Byte>, rest: seq<Byte>)
    requires (item == Array(items) && |items| < TWO_64) || (item == Map(items) && |items| % 2 == 0)
    requires |items| / 2 < TWO_64
    requires ParseMany(payload + rest, |items|) == Some((items, rest))
    ensures
      var head := if item.Array? then Head(4, |items|) else Head(5, |items| / 2);
      Parse(head + payload + rest) == Some((item, rest))
  {
    hide ParseHead, Head;
    if item.Array? {
      HeadThenPayload(4, |items|, payload, rest);
    } else {
      HeadThenPayload(5, |items| / 2, payload, rest);
    }
  }

  /** Parsing an encoding, whatever follows it, gives back the item and what follows. */
  lemma {:induction false} ItemRoundTrip(item: Item, rest: seq<Byte>)
    requires Encodable(item)
    ensures Parse(Encode(item) + rest) == Some((item, rest))
    decreases item
  {
    match item
    case UInt(_) => NumberRoundTrip(item, rest);
    case NInt(_) => NumberRoundTrip(item, rest);
    case Bytes(_) => StringRoundTrip(item, rest);
    case Text(_) => StringRoundTrip(item, rest);
    case Array(items) =>
      ItemsRoundTrip(items, rest);
      ParseContainer(item, items, EncodeAll(items), rest);
    case Map(pairs) =>
      ItemsRoundTrip(pairs, rest);
      ParseContainer(item, pairs, EncodeAll(pairs), rest);
    case Float32(_) => FloatRoundTrip(item, rest);
    case Float64(_) => FloatRoundTrip(item, rest);
  }

  lemma {:induction false} ItemsRoundTrip(items: seq<Item>, rest: seq<Byte>)
    requires AllEncodable(items)
    ensures ParseMany(EncodeAll(items) + rest, |items|) == Some((items, rest))
    decreases items
  {
    if items == [] {
      assert EncodeAll(items) + rest == rest;
    } else {
      var first, others := Encode(items[0]), EncodeAll(items[1..]);
      assert (first + others) + rest == first + (others + rest);
      ItemRoundTrip(items[0], others + rest);
      ItemsRoundTrip(items[1..], rest);
      assert [items[0]] + items[1..] == items;
    }
  }

  lemma FloatHead(b: seq<Byte>, head: ParsedHead)
    requires ParseHead(b) == Some(head) && (head.info == 26 || head.info == 27)
    ensures head.info == 26 ==> head.n < 0x1_0000_0000 && |b| == 5 + |head.rest|
    ensures head.info == 27 ==> head.n < TWO_64 && |b| == 9 + |head.rest|
  {
    hide Pow256, ReadBigEndian;
    SmallPowers();
    ReadBigEndianBound(b[1..if head.info == 26 then 5 else 9]);
  }

  lemma ParsedInteger(b: seq<Byte>, item: Item, rest: seq<Byte>)
    requires Parse(b) == Some((item, rest)) && (item.UInt? || item.NInt?)
    ensures
      var head := ParseHead(b);
      && head.Some? && head.value.rest == rest && item.n == head.value.n
      && head.value.major == if item.UInt? then 0 else 1
  {
    hide ParseHead, ParseMany;
  }

  lemma ParsedFloat(b: seq<Byte>, item: Item, rest: seq<Byte>)
    requires Parse(b) == Some((item, rest)) && (item.Float32? || item.Float64?)
    ensures
      var head := ParseHead(b);
      && head.Some? && head.value.rest == rest && item.bits == head.value.n
      && head.value.info == if item.Float32? then 26 else 27
  {
    hide ParseHead, ParseMany;
  }

  /** Of all the bytes that parse as an item, its encoding is the shortest. */
  lemma {:induction false} EncodingIsShortest(b: seq<Byte>, item: Item, rest: seq<Byte>)
    requires Parse(b) == Some((item, rest))
    ensures Encodable(item) && |Encode(item)| + |rest| <= |b|
    decreases |b|, 0
  {
    hide ParseHead, Head, BigEndian;
    var head := ParseHead(b).value;
    HeadIsShortest(b, head);
    match item
    case UInt(_) => ParsedInteger(b, item, rest);
    case NInt(_) => ParsedInteger(b, item, rest);
    case Float32(_) =>
      ParsedFloat(b, item, rest);
      FloatHead(b, head);
    case Float64(_) =>
      ParsedFloat(b, item, rest);
      FloatHead(b, head);
    case Bytes(_) =>
    case Text(_) =>
    case Array(items) => EncodingsAreShortest(head.rest, head.n, items, rest);
    case Map(pairs) => EncodingsAreShortest(head.rest, 2 * head.n, pairs, rest);
  }

  lemma {:induction false} EncodingsAreShortest(b: seq<Byte>, count: nat, items: seq<Item>, rest: seq<Byte>)
    requires ParseMany(b, count) == Some((items, rest))
    ensures |items| == count && AllEncodable(items) && |EncodeAll(items)| + |rest| <= |b|
    decreases |b|, count
  {
    if count > 0 {
      var (first, after) := Parse(b).value;
      EncodingIsShortest(b, first, after);
      EncodingsAreShortest(after, count - 1, items[1..], rest);
    }
  }
}
