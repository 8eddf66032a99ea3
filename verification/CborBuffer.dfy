/**
 serialize_cbor of serialization/make_serializable.hpp: the encoder writing into a
 buffer of fixed size, and the size estimate that chooses the buffer.
 */
module CborBuffer {
  import opened Options
  import opened CborBytes
  import opened Cbor
  import opened Words

  // ---------------------------------------------------------------- the encoder

  class CborEncoder {
    const buf: array<Byte>
    var used: nat

    ghost predicate Valid()
      reads this
    {
      used <= buf.Length
    }

    constructor (buf: array<Byte>)
      ensures Valid() && this.buf == buf && used == 0
    {
      this.buf, used := buf, 0;
    }

    /** Written so far. */
    ghost function Output(): (b: seq<Byte>)
      requires Valid()
      reads this, buf
    {
      buf[..used]
    }

    /** Appends bytes, or reports that they do not fit. */
    method Append(b: seq<Byte>) returns (ok: bool)
      requires Valid()
      modifies this`used, buf
      ensures Valid()
      ensures ok <==> old(used) + |b| <= buf.Length
      ensures ok ==> Output() == old(Output()) + b
      ensures !ok ==> used == old(used) && buf[..] == old(buf[..])
    {
      if used + |b| > buf.Length {
        return false;
      }
      for i := 0 to |b|
        invariant used == old(used)
        invariant buf[..used + i] == old(buf[..used]) + b[..i]
      {
        buf[used + i] := b[i];
        assert buf[..used + i + 1] == buf[..used + i] + [b[i]];
      }
      assert b[..|b|] == b;
      used := used + |b|;
      ok := true;
    }

    /** cbor_encode: recursion on the type, with a container opened by its length. */
    method EncodeValue(v: Value, ty: Type) returns (ok: bool)
      requires Valid() && HasType(v, ty)
      modifies this`used, buf
      ensures Valid()
      ensures ok <==> old(used) + |Serialize(v, ty)| <= buf.Length
      ensures ok ==> Output() == old(Output()) + Serialize(v, ty)
      decreases v, 0
    {
      ItemsAreEncodable(v, ty);
      match ty
      case Vector(elem) =>
        ok := EncodeList(v.elems, elem);
      case Fixed(elem, length) =>
        ok := EncodeList(v.elems, elem);
      case Struct(fields) =>
        ok := EncodeMembers(v.members, fields);
      case _ =>
        ok := Append(Encode(ToItem(v, ty)));
    }

    method EncodeList(elems: seq<Value>, elem: Type) returns (ok: bool)
      requires Valid() && AllHaveType(elems, elem) && |elems| < TWO_64
      modifies this`used, buf
      ensures Valid()
      ensures ListItemsEncodable(elems, elem)
      ensures ok <==> old(used) + |Encode(Array(ListItems(elems, elem)))| <= buf.Length
      ensures ok ==> Output() == old(Output()) + Encode(Array(ListItems(elems, elem)))
      decreases elems, 1
    {
      hide AllHaveType, ListItems, Head, EncodeAll, AllEncodable;
      ElementsEncode(elems, elem);
      ok := Append(Head(4, |elems|));
      if ok {
        ok := EncodeElements(elems, elem);
      }
    }

    method EncodeElements(elems: seq<Value>, elem: Type) returns (ok: bool)
      requires Valid() && AllHaveType(elems, elem)
      modifies this`used, buf
      ensures Valid()
      ensures ListItemsEncodable(elems, elem)
      ensures ok <==> old(used) + |EncodeAll(ListItems(elems, elem))| <= buf.Length
      ensures ok ==> Output() == old(Output()) + EncodeAll(ListItems(elems, elem))
      decreases elems, 0
    {
      hide AllHaveType, HasType, ListItems, AllEncodable, EncodeAll, Serialize;
      ElementsEncode(elems, elem);
      assert elems[0..] == elems;
      for i := 0 to |elems|
        invariant Valid() && AllHaveType(elems[i..], elem) && ListItemsEncodable(elems[i..], elem)
        invariant old(Output()) + EncodeAll(ListItems(elems, elem)) ==
                  Output() + EncodeAll(ListItems(elems[i..], elem))
      {
        EncodeFirstElement(elems[i..], elem);
        assert elems[i..][1..] == elems[i + 1..];
        ok := EncodeValue(elems[i], elem);
        if !ok {
          return;
        }
      }
      assert elems[|elems|..] == [];
      ElementsEncode([], elem);
      ok := true;
    }

    method EncodeMembers(members: seq<Value>, fields: seq<Field>) returns (ok: bool)
      requires Valid() && MembersHaveTypes(members, fields) && 2 * |fields| < TWO_64
      modifies this`used, buf
      ensures Valid()
      ensures MemberItemsEncodable(members, fields)
      ensures ok <==> old(used) + |Encode(Map(MemberItems(members, fields)))| <= buf.Length
      ensures ok ==> Output() == old(Output()) + Encode(Map(MemberItems(members, fields)))
      decreases members, 1
    {
      hide MembersHaveTypes, MemberItems, Head, EncodeAll, AllEncodable;
      MembersEncode(members, fields);
      ok := Append(Head(5, |fields|));
      if ok {
        ok := EncodeFields(members, fields);
      }
    }

    method EncodeFields(members: seq<Value>, fields: seq<Field>) returns (ok: bool)
      requires Valid() && MembersHaveTypes(members, fields)
      modifies this`used, buf
      ensures Valid()
      ensures MemberItemsEncodable(members, fields)
      ensures ok <==> old(used) + |EncodeAll(MemberItems(members, fields))| <= buf.Length
      ensures ok ==> Output() == old(Output()) + EncodeAll(MemberItems(members, fields))
      decreases members, 0
    {
      hide MembersHaveTypes, HasType, MemberItems, AllEncodable, EncodeAll, Serialize;
      MembersEncode(members, fields);
      assert members[0..] == members && fields[0..] == fields;
      for i := 0 to |fields|
        invariant Valid() && MembersHaveTypes(members[i..], fields[i..])
        invariant MemberItemsEncodable(members[i..], fields[i..])
        invariant old(Output()) + EncodeAll(MemberItems(members, fields)) ==
                  Output() + EncodeAll(MemberItems(members[i..], fields[i..]))
      {
        EncodeFirstMember(members[i..], fields[i..]);
        assert members[i..][1..] == members[i + 1..] && fields[i..][1..] == fields[i + 1..];
        ok := EncodeField(fields[i].name, members[i], fields[i].ty);
        if !ok {
          return;
        }
      }
      assert members[|fields|..] == [] && fields[|fields|..] == [];
      MembersEncode([], []);
      ok := true;
    }

    method EncodeField(name: seq<Byte>, v: Value, ty: Type) returns (ok: bool)
      requires Valid() && |name| < TWO_64 && HasType(v, ty)
      modifies this`used, buf
      ensures Valid()
      ensures ok <==> old(used) + |Encode(Text(name)) + Serialize(v, ty)| <= buf.Length
      ensures ok ==> Output() == old(Output()) + (Encode(Text(name)) + Serialize(v, ty))
      decreases v, 1
    {
      ok := Append(Encode(Text(name)));
      if ok {
        ok := EncodeValue(v, ty);
      }
    }
  }

  ghost predicate ListItemsEncodable(vs: seq<Value>, ty: Type)
    requires AllHaveType(vs, ty)
  {
    AllEncodable(ListItems(vs, ty))
  }

  ghost predicate MemberItemsEncodable(vs: seq<Value>, fields: seq<Field>)
    requires MembersHaveTypes(vs, fields)
  {
    AllEncodable(MemberItems(vs, fields))
  }

  lemma EncodePair(first: Item, second: Item, rest: seq<Item>)
    requires Encodable(first) && Encodable(second) && AllEncodable(rest)
    ensures AllEncodable([first, second] + rest)
    ensures EncodeAll([first, second] + rest) == Encode(first) + Encode(second) + EncodeAll(rest)
  {
    hide Encode, Encodable;
    var all, tail := [first, second] + rest, [second] + rest;
    assert all[1..] == tail && tail[1..] == rest;
    assert EncodeAll(tail) == Encode(second) + EncodeAll(rest);
  }

  lemma ElementsEncode(vs: seq<Value>, ty: Type)
    requires vs == [] || AllHaveType(vs, ty)
    ensures AllHaveType(vs, ty) && ListItemsEncodable(vs, ty)
    ensures vs == [] ==> EncodeAll(ListItems(vs, ty)) == []
  {
    ListItemsAreEncodable(vs, ty);
  }

  lemma MembersEncode(vs: seq<Value>, fields: seq<Field>)
    requires (vs == [] && fields == []) || MembersHaveTypes(vs, fields)
    ensures |vs| == |fields| && MembersHaveTypes(vs, fields) && MemberItemsEncodable(vs, fields)
    ensures vs == [] ==> EncodeAll(MemberItems(vs, fields)) == []
  {
    MemberItemsAreEncodable(vs, fields);
  }

  lemma EncodeFirstElement(vs: seq<Value>, ty: Type)
    requires AllHaveType(vs, ty) && vs != []
    ensures HasType(vs[0], ty) && AllHaveType(vs[1..], ty)
    ensures ListItemsEncodable(vs, ty) && ListItemsEncodable(vs[1..], ty)
    ensures EncodeAll(ListItems(vs, ty)) == Serialize(vs[0], ty) + EncodeAll(ListItems(vs[1..], ty))
  {
    ListItemsAreEncodable(vs, ty);
    ListItemsAreEncodable(vs[1..], ty);
    ItemsAreEncodable(vs[0], ty);
    assert ListItems(vs, ty)[1..] == ListItems(vs[1..], ty);
  }

  lemma EncodeFirstMember(vs: seq<Value>, fields: seq<Field>)
    requires MembersHaveTypes(vs, fields) && vs != []
    ensures |vs| == |fields| && |fields[0].name| < TWO_64
    ensures HasType(vs[0], fields[0].ty) && MembersHaveTypes(vs[1..], fields[1..])
    ensures MemberItemsEncodable(vs, fields) && MemberItemsEncodable(vs[1..], fields[1..])
    ensures EncodeAll(MemberItems(vs, fields)) ==
            Encode(Text(fields[0].name)) + Serialize(vs[0], fields[0].ty) + EncodeAll(MemberItems(vs[1..], fields[1..]))
  {
    MemberItemsAreEncodable(vs[1..], fields[1..]);
    ItemsAreEncodable(vs[0], fields[0].ty);
    EncodePair(Text(fields[0].name), ToItem(vs[0], fields[0].ty), MemberItems(vs[1..], fields[1..]));
  }

  // ---------------------------------------------------------------- the estimate

  /** estimate_cbor_size: payload only, no heads. */
  function Estimate(v: Value, ty: Type): (size: nat)
    requires HasType(v, ty)
    decreases v
  {
    match ty
    case UnsignedInt(w) => SizeOf(w)
    case SignedInt(w) => SizeOf(w)
    case Single => 4
    case Double => 8
    case Characters => |v.text|
    case ByteArray => |v.bytes|
    case FixedBytes(_) => |v.bytes|
    case Enum(names) => |names[v.index]|
    case Vector(elem) => EstimateList(v.elems, elem)
    case Fixed(elem, _) => EstimateList(v.elems, elem)
    case Struct(fields) => EstimateMembers(v.members, fields)
  }

  function SizeOf(w: Width): nat {
    match w case W8 => 1 case W16 => 2 case W32 => 4 case W64 => 8
  }

  function EstimateList(vs: seq<Value>, ty: Type): (size: nat)
    requires AllHaveType(vs, ty)
    decreases vs
  {
    if vs == [] then 0 else Estimate(vs[0], ty) + EstimateList(vs[1..], ty)
  }

  function EstimateMembers(vs: seq<Value>, fields: seq<Field>): (size: nat)
    requires MembersHaveTypes(vs, fields)
    decreases vs
  {
    if vs == [] then 0
    else |fields[0].name| + Estimate(vs[0], fields[0].ty) + EstimateMembers(vs[1..], fields[1..])
  }

  method EstimateCborSize(v: Value, ty: Type) returns (size: nat)
    requires HasType(v, ty)
    ensures size == Estimate(v, ty)
    decreases v
  {
    match ty
    case Vector(elem) => size := EstimateElements(v.elems, elem);
    case Fixed(elem, _) => size := EstimateElements(v.elems, elem);
    case Struct(fields) =>
      size := 0;
      assert v.members[0..] == v.members && fields[0..] == fields;
      for i := 0 to |fields|
        invariant MembersHaveTypes(v.members[i..], fields[i..])
        invariant size + EstimateMembers(v.members[i..], fields[i..]) == EstimateMembers(v.members, fields)
      {
        assert v.members[i..][1..] == v.members[i + 1..] && fields[i..][1..] == fields[i + 1..];
        size := size + |fields[i].name|;
        var s := EstimateCborSize(v.members[i], fields[i].ty);
        size := size + s;
      }
    case _ => size := Estimate(v, ty);
  }

  method EstimateElements(vs: seq<Value>, elem: Type) returns (size: nat)
    requires AllHaveType(vs, elem)
    ensures size == EstimateList(vs, elem)
    decreases vs
  {
    size := 0;
    assert vs[0..] == vs;
    for i := 0 to |vs|
      invariant AllHaveType(vs[i..], elem)
      invariant size + EstimateList(vs[i..], elem) == EstimateList(vs, elem)
    {
      assert vs[i..][1..] == vs[i + 1..];
      var s := EstimateCborSize(vs[i], elem);
      size := size + s;
    }
  }

  /** serialize_cbor into a buffer sized by 1.5 times the estimate, rounded down. */
  method SerializeCbor(v: Value, ty: Type) returns (ok: bool, b: seq<Byte>)
    requires HasType(v, ty)
    ensures ok <==> |Serialize(v, ty)| <= 3 * Estimate(v, ty) / 2
    ensures b == if ok then Serialize(v, ty) else []
  {
    var estimate := EstimateCborSize(v, ty);
    var buf := new Byte[3 * estimate / 2];
    var encoder := new CborEncoder(buf);
    ok := encoder.EncodeValue(v, ty);
    b := if ok then buf[..encoder.used] else [];
  }

  // ---------------------------------------------------------------- when the estimate suffices

  /** The frames of a recorded message. */
  function Frames(frames: seq<seq<Byte>>): (v: Value) {
    ListV(FrameValues(frames))
  }

  function FrameValues(frames: seq<seq<Byte>>): (vs: seq<Value>)
    ensures |vs| == |frames|
  {
    if frames == [] then [] else [BytesV(frames[0])] + FrameValues(frames[1..])
  }

  ghost predicate AllAtLeast(frames: seq<seq<Byte>>, least: nat) {
    forall f :: f in frames ==> least <= |f| < TWO_64
  }

  lemma {:induction false} FramesHaveType(frames: seq<seq<Byte>>)
    requires AllAtLeast(frames, 0)
    ensures AllHaveType(FrameValues(frames), ByteArray)
  {
    if frames != [] {
      assert frames[0] in frames && forall f :: f in frames[1..] ==> f in frames;
      FramesHaveType(frames[1..]);
    }
  }

  lemma FirstFrame(frames: seq<seq<Byte>>)
    requires frames != [] && AllAtLeast(frames, 0)
    ensures
      var vs := FrameValues(frames);
      && AllHaveType(vs, ByteArray) && HasType(vs[0], ByteArray)
      && ListItems(vs, ByteArray)[0] == Bytes(frames[0]) && Estimate(vs[0], ByteArray) == |frames[0]|
  {
    FramesHaveType(frames);
    assert FrameValues(frames)[0] == BytesV(frames[0]);
    assert ToItem(BytesV(frames[0]), ByteArray) == Bytes(frames[0]);
  }

  /** Bytes in the frames, and in the heads of their encodings. */
  function PayloadSize(frames: seq<seq<Byte>>): nat {
    if frames == [] then 0 else |frames[0]| + PayloadSize(frames[1..])
  }

  ghost function HeadsSize(frames: seq<seq<Byte>>): nat
    requires AllAtLeast(frames, 0)
  {
    if frames == [] then 0
    else
      assert frames[0] in frames && forall f :: f in frames[1..] ==> f in frames;
      1 + Extra(|frames[0]|) + HeadsSize(frames[1..])
  }

  lemma {:induction false} FrameSizes(frames: seq<seq<Byte>>)
    requires AllAtLeast(frames, 0)
    ensures AllHaveType(FrameValues(frames), ByteArray)
    ensures ListItemsEncodable(FrameValues(frames), ByteArray)
    ensures |EncodeAll(ListItems(FrameValues(frames), ByteArray))| == HeadsSize(frames) + PayloadSize(frames)
    ensures EstimateList(FrameValues(frames), ByteArray) == PayloadSize(frames)
  {
    FramesHaveType(frames);
    var vs := FrameValues(frames);
    ListItemsAreEncodable(vs, ByteArray);
    if frames != [] {
      assert frames[0] in frames && forall f :: f in frames[1..] ==> f in frames;
      FrameSizes(frames[1..]);
      assert vs[1..] == FrameValues(frames[1..]);
      FirstFrame(frames);
      EncodeFirstElement(vs, ByteArray);
    }
  }

  /** Recording a message fits if and only if its frames have twice the bytes that all the
      heads take: for any number of frames of any length. */
  lemma EstimateFitsIff(frames: seq<seq<Byte>>)
    requires |frames| < TWO_64 && AllAtLeast(frames, 0)
    ensures HasType(Frames(frames), Vector(ByteArray))
    ensures |Serialize(Frames(frames), Vector(ByteArray))| <= 3 * Estimate(Frames(frames), Vector(ByteArray)) / 2 <==>
            2 * (1 + Extra(|frames|) + HeadsSize(frames)) <= PayloadSize(frames)
    ensures |Serialize(Frames(frames), Vector(ByteArray))| ==
            1 + Extra(|frames|) + HeadsSize(frames) + PayloadSize(frames)
  {
    hide EncodeAll, ListItems, EstimateList;
    FrameSizes(frames);
    assert ToItem(Frames(frames), Vector(ByteArray)) == Array(ListItems(FrameValues(frames), ByteArray));
  }

  /** Every frame of at least 4 bytes pays for its own head and one byte more. */
  lemma {:induction false} FramesPayForTheirHeads(frames: seq<seq<Byte>>)
    requires AllAtLeast(frames, 4)
    ensures 2 * HeadsSize(frames) + 2 * |frames| <= PayloadSize(frames)
  {
    if frames != [] {
      assert frames[0] in frames && forall f :: f in frames[1..] ==> f in frames;
      FramesPayForTheirHeads(frames[1..]);
    }
  }

  /** Recording a message with at least one frame, each of at least 4 bytes, always fits. */
  lemma EstimateSufficesForFrames(frames: seq<seq<Byte>>)
    requires frames != [] && |frames| < TWO_64 && AllAtLeast(frames, 4)
    ensures HasType(Frames(frames), Vector(ByteArray))
    ensures |Serialize(Frames(frames), Vector(ByteArray))| <= 3 * Estimate(Frames(frames), Vector(ByteArray)) / 2
  {
    FramesPayForTheirHeads(frames);
    EstimateFitsIff(frames);
    assert Extra(|frames|) < |frames|;
  }

  /** A single frame fits if and only if it has at least 4 bytes, and then a 4-byte one
      leaves no byte to spare; a message without frames never fits. */
  lemma EstimateIsTight(frames: seq<seq<Byte>>)
    requires |frames| <= 1 && AllAtLeast(frames, 0)
    ensures HasType(Frames(frames), Vector(ByteArray))
    ensures
      var size := |Serialize(Frames(frames), Vector(ByteArray))|;
      var capacity := 3 * Estimate(Frames(frames), Vector(ByteArray)) / 2;
      && (size <= capacity <==> frames != [] && 4 <= |frames[0]|)
      && (frames != [] && |frames[0]| == 4 ==> size == capacity)
  {
    EstimateFitsIff(frames);
    FrameSizes(frames);
    if frames != [] {
      assert frames[0] in frames && HeadsSize(frames[1..]) == 0 && PayloadSize(frames[1..]) == 0;
    }
  }

  // ---------------------------------------------------------------- single values and structs

  /** The bytes that a number of the type takes in memory, if it is one. */
  function NumberSize(ty: Type): Option<nat> {
    match ty
    case UnsignedInt(W8) => Some(1)
    case UnsignedInt(W16) => Some(2)
    case UnsignedInt(W32) => Some(4)
    case UnsignedInt(W64) => Some(8)
    case SignedInt(W8) => Some(1)
    case SignedInt(W16) => Some(2)
    case SignedInt(W32) => Some(4)
    case SignedInt(W64) => Some(8)
    case Single => Some(4)
    case Double => Some(8)
    case _ => None
  }

  /** A number is encoded in at most one byte more than it has; 8 bits in one byte only
      from -24 to 23. */
  lemma NumberLength(v: Value, ty: Type)
    requires HasType(v, ty) && NumberSize(ty).Some?
    ensures Estimate(v, ty) == NumberSize(ty).value
    ensures |Serialize(v, ty)| <= 1 + NumberSize(ty).value
    ensures NumberSize(ty) == Some(1) ==> |Serialize(v, ty)| == if -24 <= v.i < 24 then 1 else 2
  {
    match ty
    case UnsignedInt(_) => HeadLength(0, v.i);
    case SignedInt(_) => HeadLength(if v.i < 0 then 1 else 0, if v.i < 0 then -1 - v.i else v.i);
    case _ =>
  }

  /** A single number fits in the buffer made for it, but for an 8-bit one below -24 or
      above 23. */
  lemma NumberFitsIff(v: Value, ty: Type)
    requires HasType(v, ty) && NumberSize(ty).Some?
    ensures |Serialize(v, ty)| <= 3 * Estimate(v, ty) / 2 <==> NumberSize(ty) == Some(1) ==> -24 <= v.i < 24
  {
    hide Serialize, Estimate;
    NumberLength(v, ty);
  }

  /** A text, a byte string or an enumerator's name fits if and only if it has at least two bytes. */
  lemma StringFitsIff(v: Value, ty: Type)
    requires HasType(v, ty) && (ty.Characters? || ty.ByteArray? || ty.FixedBytes? || ty.Enum?)
    ensures
      var length := if ty.Characters? then |v.text| else if ty.Enum? then |ty.names[v.index]| else |v.bytes|;
      |Serialize(v, ty)| <= 3 * Estimate(v, ty) / 2 <==> 2 <= length
  {
    match ty
    case Characters => HeadLength(3, |v.text|);
    case Enum(names) => HeadLength(3, |names[v.index]|);
    case ByteArray => HeadLength(2, |v.bytes|);
    case FixedBytes(_) => HeadLength(2, |v.bytes|);
    case _ =>
  }

  /** Fields that are numbers of at least 16 bits, with names of at least four bytes. */
  ghost predicate WideNumbers(fields: seq<Field>) {
    forall f :: f in fields ==> 4 <= |f.name| && NumberSize(f.ty).Some? && 2 <= NumberSize(f.ty).value
  }

  lemma NameLength(name: seq<Byte>)
    requires |name| < TWO_64
    ensures |Encode(Text(name))| == |Head(3, |name|)| + |name|
    ensures 4 <= |name| ==> 2 * |Encode(Text(name))| + 2 <= 3 * |name|
  {
    HeadLength(3, |name|);
  }

  lemma {:induction false} NumberMembersPay(vs: seq<Value>, fields: seq<Field>)
    requires MembersHaveTypes(vs, fields) && WideNumbers(fields)
    ensures MemberItemsEncodable(vs, fields)
    ensures 2 * |EncodeAll(MemberItems(vs, fields))| + 2 * |vs| <= 3 * EstimateMembers(vs, fields)
  {
    hide Encode, EncodeAll, MemberItems, Serialize, Estimate, NumberSize;
    if vs == [] {
      NoMembers(fields);
    } else {
      assert fields[0] in fields && forall f :: f in fields[1..] ==> f in fields;
      EncodeFirstMember(vs, fields);
      NumberMembersPay(vs[1..], fields[1..]);
      NameLength(fields[0].name);
      NumberLength(vs[0], fields[0].ty);
    }
  }

  lemma NoMembers(fields: seq<Field>)
    requires MembersHaveTypes([], fields)
    ensures MemberItemsEncodable([], fields) && EncodeAll(MemberItems([], fields)) == []
  {
  }

  /** So a struct with any number of such fields, at least one, always fits. */
  lemma WideNumberStructFits(vs: seq<Value>, fields: seq<Field>)
    requires HasType(StructV(vs), Struct(fields)) && vs != [] && WideNumbers(fields)
    ensures |Serialize(StructV(vs), Struct(fields))| <= 3 * Estimate(StructV(vs), Struct(fields)) / 2
  {
    hide EncodeAll, MemberItems, EstimateMembers, NumberSize;
    NumberMembersPay(vs, fields);
    HeadLength(5, |vs|);
    assert ToItem(StructV(vs), Struct(fields)) == Map(MemberItems(vs, fields));
  }
}
