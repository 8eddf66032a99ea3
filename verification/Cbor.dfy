/**
 The type-directed encoding and decoding of serialization/make_serializable.hpp
 and serialization/primitives.cpp over the items of CborBytes.
 */
module Cbor {
  import opened Options
  import opened CborBytes
  import opened Words

  /** The C++ types of the universe. A ByteArray and a Vector resize on decoding, FixedBytes
      and a Fixed list do not. */
  datatype Type =
    | UnsignedInt(width: Width)
    | SignedInt(width: Width)
    | Single
    | Double
    | Characters
    | ByteArray
    | FixedBytes(length: nat)
    | Enum(names: seq<seq<Byte>>)
    | Vector(elem: Type)
    | Fixed(elem: Type, length: nat)
    | Struct(fields: seq<Field>)

  datatype Width = W8 | W16 | W32 | W64

  function Modulus(w: Width): (m: int) {
    match w
    case W8 => 0x100
    case W16 => 0x1_0000
    case W32 => 0x1_0000_0000
    case W64 => TWO_64
  }

  datatype Field = Field(name: seq<Byte>, ty: Type)

  datatype Value =
    | IntV(i: int)
    | BitsV(bits: nat)
    | TextV(text: seq<Byte>)
    | BytesV(bytes: seq<Byte>)
    | EnumV(index: nat)
    | ListV(elems: seq<Value>)
    | StructV(members: seq<Value>)

  predicate Distinct(names: seq<seq<Byte>>) {
    forall i, j :: 0 <= i < j < |names| ==> names[i] != names[j]
  }

  function Names(fields: seq<Field>): (names: seq<seq<Byte>>)
    ensures |names| == |fields|
  {
    seq(|fields|, i requires 0 <= i < |fields| => fields[i].name)
  }

  /** `v` is a value of the C++ type: integers in range, one member for each field,
      and distinct names that a 64-bit length can count. */
  ghost predicate HasType(v: Value, ty: Type)
    decreases v
  {
    match ty
    case UnsignedInt(w) => v.IntV? && 0 <= v.i < Modulus(w)
    case SignedInt(w) => v.IntV? && -(Modulus(w) / 2) <= v.i < Modulus(w) / 2
    case Single => v.BitsV? && v.bits < 0x1_0000_0000
    case Double => v.BitsV? && v.bits < TWO_64
    case Characters => v.TextV? && |v.text| < TWO_64
    case ByteArray => v.BytesV? && |v.bytes| < TWO_64
    case FixedBytes(length) => v.BytesV? && |v.bytes| == length < TWO_64
    case Enum(names) => v.EnumV? && v.index < |names| && Distinct(names) && |names[v.index]| < TWO_64
    case Vector(elem) => v.ListV? && |v.elems| < TWO_64 && AllHaveType(v.elems, elem)
    case Fixed(elem, length) => v.ListV? && |v.elems| == length < TWO_64 && AllHaveType(v.elems, elem)
    case Struct(fields) =>
      v.StructV? && 2 * |fields| < TWO_64 && Distinct(Names(fields)) && MembersHaveTypes(v.members, fields)
  }

  ghost predicate AllHaveType(vs: seq<Value>, ty: Type)
    decreases vs
  {
    vs == [] || (HasType(vs[0], ty) && AllHaveType(vs[1..], ty))
  }

  ghost predicate MembersHaveTypes(vs: seq<Value>, fields: seq<Field>)
    decreases vs
  {
    && |vs| == |fields|
    && (vs == [] ||
        (|fields[0].name| < TWO_64 && HasType(vs[0], fields[0].ty) && MembersHaveTypes(vs[1..], fields[1..])))
  }

  // ---------------------------------------------------------------- encoding

  function ToItem(v: Value, ty: Type): (item: Item)
    requires HasType(v, ty)
    decreases v
  {
    match ty
    case UnsignedInt(_) => UInt(v.i)
    case SignedInt(_) => if v.i < 0 then NInt(-1 - v.i) else UInt(v.i)
    case Single => Float32(v.bits)
    case Double => Float64(v.bits)
    case Characters => Text(v.text)
    case ByteArray => Bytes(v.bytes)
    case FixedBytes(_) => Bytes(v.bytes)
    case Enum(names) => Text(names[v.index])
    case Vector(elem) => Array(ListItems(v.elems, elem))
    case Fixed(elem, _) => Array(ListItems(v.elems, elem))
    case Struct(fields) => Map(MemberItems(v.members, fields))
  }

  function ListItems(vs: seq<Value>, ty: Type): (items: seq<Item>)
    requires AllHaveType(vs, ty)
    ensures |items| == |vs|
    decreases vs
  {
    if vs == [] then [] else [ToItem(vs[0], ty)] + ListItems(vs[1..], ty)
  }

  function MemberItems(vs: seq<Value>, fields: seq<Field>): (pairs: seq<Item>)
    requires MembersHaveTypes(vs, fields)
    ensures |pairs| == 2 * |vs|
    decreases vs
  {
    if vs == [] then []
    else [Text(fields[0].name), ToItem(vs[0], fields[0].ty)] + MemberItems(vs[1..], fields[1..])
  }

  lemma {:induction false} ItemsAreEncodable(v: Value, ty: Type)
    requires HasType(v, ty)
    ensures Encodable(ToItem(v, ty))
    decreases v
  {
    match ty
    case Vector(elem) => ListItemsAreEncodable(v.elems, elem);
    case Fixed(elem, _) => ListItemsAreEncodable(v.elems, elem);
    case Struct(fields) => MemberItemsAreEncodable(v.members, fields);
    case _ =>
  }

  lemma {:induction false} ListItemsAreEncodable(vs: seq<Value>, ty: Type)
    requires AllHaveType(vs, ty)
    ensures AllEncodable(ListItems(vs, ty))
    decreases vs
  {
    if vs != [] {
      ItemsAreEncodable(vs[0], ty);
      ListItemsAreEncodable(vs[1..], ty);
      assert ListItems(vs, ty)[1..] == ListItems(vs[1..], ty);
    }
  }

  lemma {:induction false} MemberItemsAreEncodable(vs: seq<Value>, fields: seq<Field>)
    requires MembersHaveTypes(vs, fields)
    ensures AllEncodable(MemberItems(vs, fields))
    decreases vs
  {
    if vs != [] {
      ItemsAreEncodable(vs[0], fields[0].ty);
      MemberItemsAreEncodable(vs[1..], fields[1..]);
      var pairs := MemberItems(vs, fields);
      assert pairs[1..][1..] == MemberItems(vs[1..], fields[1..]);
      assert pairs[0] == Text(fields[0].name) && pairs[1..][0] == ToItem(vs[0], fields[0].ty);
      assert AllEncodable(pairs[1..]);
    }
  }

  /** What serialize_cbor writes. */
  function Serialize(v: Value, ty: Type): (b: seq<Byte>)
    requires HasType(v, ty)
  {
    ItemsAreEncodable(v, ty);
    Encode(ToItem(v, ty))
  }

  // ---------------------------------------------------------------- decoding

  /** The narrowing cast to an unsigned, or a signed two's complement, integer. */
  function CastUnsigned(n: nat, w: Width): (i: int) {
    n % Modulus(w)
  }

  function CastSigned(i: int, w: Width): (r: int) {
    var half := Modulus(w) / 2;
    if -half <= i < half then i
    else if i % Modulus(w) < half then i % Modulus(w)
    else i % Modulus(w) - Modulus(w)
  }

  function IndexOf(names: seq<seq<Byte>>, name: seq<Byte>): (r: Option<nat>)
    ensures r.Some? ==> r.value < |names| && names[r.value] == name
    ensures r.None? ==> name !in names
  {
    if names == [] then None
    else if names[0] == name then Some(0)
    else
      match IndexOf(names[1..], name)
      case None => None
      case Some(i) => Some(i + 1)
  }

  /** The value of the first entry with a text key equal to `name`. */
  function Lookup(pairs: seq<Item>, name: seq<Byte>): (r: Option<Item>)
    ensures r.Some? ==> r.value in pairs
  {
    if |pairs| < 2 then None
    else if pairs[0] == Text(name) then Some(pairs[1])
    else Lookup(pairs[2..], name)
  }

  /** A value-initialised object of the type. */
  function Default(ty: Type): Value
    decreases ty, 0
  {
    match ty
    case UnsignedInt(_) => IntV(0)
    case SignedInt(_) => IntV(0)
    case Single => BitsV(0)
    case Double => BitsV(0)
    case Characters => TextV([])
    case ByteArray => BytesV([])
    case FixedBytes(length) => BytesV(seq(length, _ => 0))
    case Enum(_) => EnumV(0)
    case Vector(_) => ListV([])
    case Fixed(elem, length) => ListV(Copies(Default(elem), length))
    case Struct(fields) => StructV(Defaults(fields))
  }

  function Defaults(fields: seq<Field>): (vs: seq<Value>)
    ensures |vs| == |fields|
    decreases fields, 1
  {
    if fields == [] then [] else [Default(fields[0].ty)] + Defaults(fields[1..])
  }

  function Copies(v: Value, n: nat): (vs: seq<Value>)
    ensures |vs| == n
  {
    seq(n, _ => v)
  }

  function Resized(vs: seq<Value>, n: nat, ty: Type): (r: seq<Value>)
    ensures |r| == n
  {
    if n <= |vs| then vs[..n] else vs + Copies(Default(ty), n - |vs|)
  }

  /** cbor_decode into the existing object `out`. None is an abort, or an item that the
      CBOR library does not let the original read as this type. A struct field that the
      map lacks stops the decoding of that struct without an error. */
  function FromItem(item: Item, ty: Type, out: Value): (r: Option<Value>)
    decreases item, 0
  {
    match ty
    case UnsignedInt(w) => if item.UInt? then Some(IntV(CastUnsigned(item.n, w))) else None
    case SignedInt(w) =>
      if item.UInt? then Some(IntV(CastSigned(CastSigned(item.n, W64), w)))
      else if item.NInt? then Some(IntV(CastSigned(CastSigned(-1 - item.n, W64), w)))
      else None
    case Single => if item.Float32? then Some(BitsV(item.bits)) else None
    case Double => if item.Float64? then Some(BitsV(item.bits)) else None
    case Characters => if item.Text? then Some(TextV(item.text)) else None
    case ByteArray => if item.Bytes? then Some(BytesV(item.bytes)) else None
    case FixedBytes(_) =>
      if item.Bytes? && out.BytesV? && |out.bytes| == |item.bytes| then Some(BytesV(item.bytes)) else None
    case Enum(names) =>
      if item.Text? && IndexOf(names, item.text).Some? then Some(EnumV(IndexOf(names, item.text).value)) else None
    case Vector(elem) =>
      if item.Array? && out.ListV? then
        match FromItems(item.items, elem, Resized(out.elems, |item.items|, elem))
        case None => None
        case Some(vs) => Some(ListV(vs))
      else None
    case Fixed(elem, length) =>
      if item.Array? && out.ListV? && |out.elems| == |item.items| then
        match FromItems(item.items, elem, out.elems)
        case None => None
        case Some(vs) => Some(ListV(vs))
      else None
    case Struct(fields) =>
      if item.Map? && out.StructV? && |out.members| == |fields| then
        match FromPairs(item.pairs, fields, out.members)
        case None => None
        case Some(vs) => Some(StructV(vs))
      else None
  }

  function FromItems(items: seq<Item>, ty: Type, outs: seq<Value>): (r: Option<seq<Value>>)
    requires |outs| == |items|
    decreases items, 1
  {
    if items == [] then Some([])
    else
      match FromItem(items[0], ty, outs[0])
      case None => None
      case Some(v) =>
        match FromItems(items[1..], ty, outs[1..])
        case None => None
        case Some(vs) => Some([v] + vs)
  }

  function FromPairs(pairs: seq<Item>, fields: seq<Field>, outs: seq<Value>): (r: Option<seq<Value>>)
    requires |outs| == |fields|
    decreases pairs, |fields|
  {
    if fields == [] then Some([])
    else
      match Lookup(pairs, fields[0].name)
      case None => Some(outs)
      case Some(item) =>
        match FromItem(item, fields[0].ty, outs[0])
        case None => None
        case Some(v) =>
          match FromPairs(pairs, fields[1..], outs[1..])
          case None => None
          case Some(vs) => Some([v] + vs)
  }

  function Deserialize(b: seq<Byte>, ty: Type, out: Value): Option<Value> {
    match Parse(b)
    case None => None
    case Some((item, _)) => FromItem(item, ty, out)
  }

  // ---------------------------------------------------------------- round trip

  /** An object that decoding into the type can start from. */
  ghost predicate HasShape(out: Value, ty: Type)
    decreases ty, 0
  {
    match ty
    case FixedBytes(length) => out.BytesV? && |out.bytes| == length
    case Vector(elem) => out.ListV? && forall v :: v in out.elems ==> HasShape(v, elem)
    case Fixed(elem, length) => out.ListV? && |out.elems| == length && forall v :: v in out.elems ==> HasShape(v, elem)
    case Struct(fields) => out.StructV? && MembersHaveShapes(out.members, fields)
    case _ => true
  }

  ghost predicate MembersHaveShapes(outs: seq<Value>, fields: seq<Field>)
    decreases fields, 1
  {
    |outs| == |fields| &&
    (fields == [] || (HasShape(outs[0], fields[0].ty) && MembersHaveShapes(outs[1..], fields[1..])))
  }

  lemma {:induction false} DefaultHasShape(ty: Type)
    ensures HasShape(Default(ty), ty)
    decreases ty, 0
  {
    match ty
    case Fixed(elem, length) => DefaultHasShape(elem);
    case Struct(fields) => DefaultsHaveShapes(fields);
    case _ =>
  }

  lemma {:induction false} DefaultsHaveShapes(fields: seq<Field>)
    ensures MembersHaveShapes(Defaults(fields), fields)
    decreases fields, 1
  {
    if fields != [] {
      DefaultHasShape(fields[0].ty);
      DefaultsHaveShapes(fields[1..]);
    }
  }

  lemma {:induction false} IndexOfDistinct(names: seq<seq<Byte>>, i: nat)
    requires Distinct(names) && i < |names|
    ensures IndexOf(names, names[i]) == Some(i)
  {
    assert names[i] in names;
    var found := IndexOf(names, names[i]).value;
    assert found < i || found == i || i < found;
  }

  lemma CastsInRange(i: int, w: Width)
    ensures 0 <= i < Modulus(w) ==> CastUnsigned(i, w) == i
    ensures -(Modulus(w) / 2) <= i < Modulus(w) / 2 ==> CastSigned(i, w) == i == CastSigned(i, W64)
  {
    hide Modulus;
    HalvesFit(w);
    if 0 <= i < Modulus(w) {
      SmallRemainder(i, Modulus(w));
    }
  }

  lemma SmallRemainder(i: int, m: int)
    requires 0 <= i < m
    ensures i % m == i
  {
  }

  lemma HalvesFit(w: Width)
    ensures 0 < Modulus(w) / 2 <= Modulus(W64) / 2 && Modulus(w) == 2 * (Modulus(w) / 2)
  {
  }

  lemma IntRoundTrip(v: Value, ty: Type, out: Value)
    requires HasType(v, ty) && (ty.UnsignedInt? || ty.SignedInt?)
    ensures FromItem(ToItem(v, ty), ty, out) == Some(v)
  {
    CastsInRange(v.i, ty.width);
  }

  ghost predicate DistinctKeys(pairs: seq<Item>) {
    |pairs| % 2 == 0 &&
    forall i, j :: 0 <= i < j && 2 * j < |pairs| ==> pairs[2 * i] != pairs[2 * j]
  }

  /** The map has an entry with this key and value. */
  ghost predicate HasEntry(pairs: seq<Item>, key: Item, value: Item) {
    exists i :: 0 <= i && 2 * i + 1 < |pairs| && pairs[2 * i] == key && pairs[2 * i + 1] == value
  }

  lemma {:induction false} LookupFindsEntry(pairs: seq<Item>, name: seq<Byte>, value: Item)
    requires DistinctKeys(pairs) && HasEntry(pairs, Text(name), value)
    ensures Lookup(pairs, name) == Some(value)
    decreases |pairs|
  {
    var i :| 0 <= i && 2 * i + 1 < |pairs| && pairs[2 * i] == Text(name) && pairs[2 * i + 1] == value;
    if i > 0 {
      assert pairs[2 * 0] != pairs[2 * i];
      var rest := pairs[2..];
      assert rest[2 * (i - 1)] == Text(name) && rest[2 * (i - 1) + 1] == value;
      forall a, b | 0 <= a < b && 2 * b < |rest|
        ensures rest[2 * a] != rest[2 * b]
      {
        assert pairs[2 * (a + 1)] != pairs[2 * (b + 1)];
      }
      LookupFindsEntry(rest, name, value);
    }
  }

  /** `item` says of a value what its encoding says: at every depth, the map of a struct may
      list the fields in any order and among unrelated entries. */
  ghost predicate Represents(item: Item, v: Value, ty: Type)
    requires HasType(v, ty)
    decreases v
  {
    match ty
    case Vector(elem) => item.Array? && AllRepresent(item.items, v.elems, elem)
    case Fixed(elem, _) => item.Array? && AllRepresent(item.items, v.elems, elem)
    case Struct(fields) =>
      item.Map? && DistinctKeys(item.pairs) && MembersRepresented(item.pairs, v.members, fields)
    case _ => item == ToItem(v, ty)
  }

  ghost predicate AllRepresent(items: seq<Item>, vs: seq<Value>, ty: Type)
    requires AllHaveType(vs, ty)
    decreases vs
  {
    && |items| == |vs|
    && (vs == [] || (Represents(items[0], vs[0], ty) && AllRepresent(items[1..], vs[1..], ty)))
  }

  ghost predicate MembersRepresented(pairs: seq<Item>, vs: seq<Value>, fields: seq<Field>)
    requires MembersHaveTypes(vs, fields)
    decreases vs
  {
    vs == [] ||
    (&& (exists item :: HasEntry(pairs, Text(fields[0].name), item) && Represents(item, vs[0], fields[0].ty))
     && MembersRepresented(pairs, vs[1..], fields[1..]))
  }

  /** Any such item decodes to the value, whatever the object held before. */
  lemma {:induction false} RepresentationDecodes(item: Item, v: Value, ty: Type, out: Value)
    requires HasType(v, ty) && HasShape(out, ty) && Represents(item, v, ty)
    ensures FromItem(item, ty, out) == Some(v)
    decreases v, 0
  {
    match ty
    case UnsignedInt(_) => IntRoundTrip(v, ty, out);
    case SignedInt(_) => IntRoundTrip(v, ty, out);
    case Enum(names) => IndexOfDistinct(names, v.index);
    case Vector(elem) =>
      DefaultHasShape(elem);
      ListDecodes(item.items, v.elems, elem, Resized(out.elems, |v.elems|, elem));
    case Fixed(elem, _) => ListDecodes(item.items, v.elems, elem, out.elems);
    case Struct(fields) => PairsDecode(item.pairs, v.members, fields, out.members);
    case _ =>
  }

  lemma {:induction false} ListDecodes(items: seq<Item>, vs: seq<Value>, ty: Type, outs: seq<Value>)
    requires AllHaveType(vs, ty) && |outs| == |vs| && forall o :: o in outs ==> HasShape(o, ty)
    requires AllRepresent(items, vs, ty)
    ensures FromItems(items, ty, outs) == Some(vs)
    decreases vs, 0
  {
    if vs != [] {
      RepresentationDecodes(items[0], vs[0], ty, outs[0]);
      ListDecodes(items[1..], vs[1..], ty, outs[1..]);
      assert [vs[0]] + vs[1..] == vs;
    }
  }

  lemma {:induction false} PairsDecode(pairs: seq<Item>, vs: seq<Value>, fields: seq<Field>, outs: seq<Value>)
    requires MembersHaveTypes(vs, fields) && MembersHaveShapes(outs, fields)
    requires DistinctKeys(pairs) && MembersRepresented(pairs, vs, fields)
    ensures FromPairs(pairs, fields, outs) == Some(vs)
    decreases vs, 0
  {
    if vs != [] {
      var item :| HasEntry(pairs, Text(fields[0].name), item) && Represents(item, vs[0], fields[0].ty);
      LookupFindsEntry(pairs, fields[0].name, item);
      RepresentationDecodes(item, vs[0], fields[0].ty, outs[0]);
      PairsDecode(pairs, vs[1..], fields[1..], outs[1..]);
      assert [vs[0]] + vs[1..] == vs;
    }
  }

  // ---------------------------------------------------------------- round trip

  /** `pairs` has an entry for every field, with the item that encodes its member. */
  ghost predicate Provides(pairs: seq<Item>, vs: seq<Value>, fields: seq<Field>)
    requires MembersHaveTypes(vs, fields)
    decreases vs
  {
    vs == [] ||
    (HasEntry(pairs, Text(fields[0].name), ToItem(vs[0], fields[0].ty)) && Provides(pairs, vs[1..], fields[1..]))
  }

  lemma {:induction false} LargerMapProvides(pairs: seq<Item>, other: seq<Item>, vs: seq<Value>, fields: seq<Field>)
    requires MembersHaveTypes(vs, fields) && Provides(pairs, vs, fields)
    requires forall key, value :: HasEntry(pairs, key, value) ==> HasEntry(other, key, value)
    ensures Provides(other, vs, fields)
    decreases vs
  {
    if vs != [] {
      LargerMapProvides(pairs, other, vs[1..], fields[1..]);
    }
  }

  lemma EntriesShift(first: Item, second: Item, pairs: seq<Item>)
    ensures HasEntry([first, second] + pairs, first, second)
    ensures forall key, value :: HasEntry(pairs, key, value) ==> HasEntry([first, second] + pairs, key, value)
  {
    var all := [first, second] + pairs;
    assert all[2 * 0] == first && all[2 * 0 + 1] == second;
    forall key, value | HasEntry(pairs, key, value)
      ensures HasEntry(all, key, value)
    {
      var i :| 0 <= i && 2 * i + 1 < |pairs| && pairs[2 * i] == key && pairs[2 * i + 1] == value;
      assert all[2 * (i + 1)] == key && all[2 * (i + 1) + 1] == value;
    }
  }

  lemma {:induction false} EncodingProvides(vs: seq<Value>, fields: seq<Field>)
    requires MembersHaveTypes(vs, fields)
    ensures Provides(MemberItems(vs, fields), vs, fields)
    decreases vs
  {
    if vs != [] {
      var first, second, rest := Text(fields[0].name), ToItem(vs[0], fields[0].ty), MemberItems(vs[1..], fields[1..]);
      EncodingProvides(vs[1..], fields[1..]);
      EntriesShift(first, second, rest);
      LargerMapProvides(rest, [first, second] + rest, vs[1..], fields[1..]);
    }
  }

  lemma {:induction false} KeyOfField(vs: seq<Value>, fields: seq<Field>, i: nat)
    requires MembersHaveTypes(vs, fields) && i < |vs|
    ensures MemberItems(vs, fields)[2 * i] == Text(fields[i].name)
    decreases vs
  {
    if i > 0 {
      KeyOfField(vs[1..], fields[1..], i - 1);
      assert MemberItems(vs, fields)[2 * i] == MemberItems(vs[1..], fields[1..])[2 * (i - 1)];
    }
  }

  lemma EncodedKeysAreDistinct(vs: seq<Value>, fields: seq<Field>)
    requires MembersHaveTypes(vs, fields) && Distinct(Names(fields))
    ensures DistinctKeys(MemberItems(vs, fields))
  {
    var pairs := MemberItems(vs, fields);
    forall i, j | 0 <= i < j && 2 * j < |pairs|
      ensures pairs[2 * i] != pairs[2 * j]
    {
      KeyOfField(vs, fields, i);
      KeyOfField(vs, fields, j);
      assert Names(fields)[i] != Names(fields)[j];
    }
  }

  lemma {:induction false} EncodingRepresents(v: Value, ty: Type)
    requires HasType(v, ty)
    ensures Represents(ToItem(v, ty), v, ty)
    decreases v, 0
  {
    match ty
    case Vector(elem) => ListEncodingRepresents(v.elems, elem);
    case Fixed(elem, _) => ListEncodingRepresents(v.elems, elem);
    case Struct(fields) =>
      EncodedKeysAreDistinct(v.members, fields);
      EncodingProvides(v.members, fields);
      ProvidedMembersAreRepresented(MemberItems(v.members, fields), v.members, fields);
    case _ =>
  }

  lemma {:induction false} ListEncodingRepresents(vs: seq<Value>, ty: Type)
    requires AllHaveType(vs, ty)
    ensures AllRepresent(ListItems(vs, ty), vs, ty)
    decreases vs, 0
  {
    if vs != [] {
      EncodingRepresents(vs[0], ty);
      ListEncodingRepresents(vs[1..], ty);
      assert ListItems(vs, ty)[1..] == ListItems(vs[1..], ty);
    }
  }

  lemma {:induction false} ProvidedMembersAreRepresented(pairs: seq<Item>, vs: seq<Value>, fields: seq<Field>)
    requires MembersHaveTypes(vs, fields) && Provides(pairs, vs, fields)
    ensures MembersRepresented(pairs, vs, fields)
    decreases vs, 0
  {
    if vs != [] {
      EncodingRepresents(vs[0], fields[0].ty);
      ProvidedMembersAreRepresented(pairs, vs[1..], fields[1..]);
    }
  }

  /** Decoding what was encoded gives the value back, whatever the object held before. */
  lemma ValueRoundTrip(v: Value, ty: Type, out: Value)
    requires HasType(v, ty) && HasShape(out, ty)
    ensures FromItem(ToItem(v, ty), ty, out) == Some(v)
  {
    EncodingRepresents(v, ty);
    RepresentationDecodes(ToItem(v, ty), v, ty, out);
  }

  /** At byte level: deserialising a serialised value gives it back, whatever bytes
      follow in the buffer and whatever the receiving object held. */
  lemma RoundTrip(v: Value, ty: Type, out: Value, trailing: seq<Byte>)
    requires HasType(v, ty) && HasShape(out, ty)
    ensures Deserialize(Serialize(v, ty) + trailing, ty, out) == Some(v)
  {
    ItemsAreEncodable(v, ty);
    ItemRoundTrip(ToItem(v, ty), trailing);
    ValueRoundTrip(v, ty, out);
  }

  /** Any map with distinct keys that has at least the entries that were encoded. */
  lemma StructIgnoresOrderAndStrangers(v: Value, fields: seq<Field>, other: seq<Item>, out: Value)
    requires HasType(v, Struct(fields)) && HasShape(out, Struct(fields)) && DistinctKeys(other)
    requires forall key, value ::
               HasEntry(MemberItems(v.members, fields), key, value) ==> HasEntry(other, key, value)
    ensures FromItem(Map(other), Struct(fields), out) == Some(v)
  {
    EncodingProvides(v.members, fields);
    LargerMapProvides(MemberItems(v.members, fields), other, v.members, fields);
    ProvidedMembersAreRepresented(other, v.members, fields);
    RepresentationDecodes(Map(other), v, Struct(fields), out);
  }

  // ---------------------------------------------------------------- missing fields

  /** The first field whose name is no key of the map. */
  function FirstAbsent(pairs: seq<Item>, fields: seq<Field>): (j: nat)
    ensures j <= |fields|
    ensures forall i :: 0 <= i < j ==> Lookup(pairs, fields[i].name).Some?
    ensures j < |fields| ==> Lookup(pairs, fields[j].name).None?
  {
    if fields == [] || Lookup(pairs, fields[0].name).None? then 0 else 1 + FirstAbsent(pairs, fields[1..])
  }

  /** For every map: decoding a struct takes the members up to the first absent name from the
      map and keeps all later ones, and it fails only at a member that it takes. */
  lemma {:induction false} MissingFieldEndsQuietly(pairs: seq<Item>, fields: seq<Field>, outs: seq<Value>)
    requires |outs| == |fields|
    ensures
      var j, r := FirstAbsent(pairs, fields), FromPairs(pairs, fields, outs);
      && (r.Some? <==>
          forall i :: 0 <= i < j ==> FromItem(Lookup(pairs, fields[i].name).value, fields[i].ty, outs[i]).Some?)
      && (r.Some? ==>
            && |r.value| == |fields| && r.value[j..] == outs[j..]
            && forall i :: 0 <= i < j ==>
                 Some(r.value[i]) == FromItem(Lookup(pairs, fields[i].name).value, fields[i].ty, outs[i]))
    decreases |fields|
  {
    hide Lookup, FromItem;
    var j := FirstAbsent(pairs, fields);
    if j > 0 {
      MissingFieldEndsQuietly(pairs, fields[1..], outs[1..]);
      var first := FromItem(Lookup(pairs, fields[0].name).value, fields[0].ty, outs[0]);
      var rest := FromPairs(pairs, fields[1..], outs[1..]);
      if rest.None? {
        var i :| 0 <= i < j - 1 &&
                 FromItem(Lookup(pairs, fields[1..][i].name).value, fields[1..][i].ty, outs[1..][i]).None?;
        assert FromItem(Lookup(pairs, fields[i + 1].name).value, fields[i + 1].ty, outs[i + 1]).None?;
      } else if first.Some? {
        var r := [first.value] + rest.value;
        assert FromPairs(pairs, fields, outs) == Some(r);
        assert r[j..] == rest.value[j - 1..] && outs[j..] == outs[1..][j - 1..];
        forall i | 0 <= i < j
          ensures Some(r[i]) == FromItem(Lookup(pairs, fields[i].name).value, fields[i].ty, outs[i])
        {
          if i > 0 {
            assert fields[1..][i - 1] == fields[i] && outs[1..][i - 1] == outs[i];
          }
        }
      }
    }
  }

  /** So every member comes from the map exactly when every name is a key of it. */
  lemma NoneIsAbsentIff(pairs: seq<Item>, fields: seq<Field>)
    ensures FirstAbsent(pairs, fields) == |fields| <==> forall f :: f in fields ==> Lookup(pairs, f.name).Some?
  {
    var j := FirstAbsent(pairs, fields);
    if j < |fields| {
      assert fields[j] in fields;
    }
  }

  // ---------------------------------------------------------------- decoding any item

  lemma SameRemainder(i: int, j: int, e: int, m: int)
    requires 0 < m && i == j + e * m
    ensures i % m == j % m
  {
    var d := i / m - j / m - e;
    assert i == (i / m) * m + i % m && j == (j / m) * m + j % m;
    assert d * m == j % m - i % m;
    SmallMultiple(d, m);
  }

  lemma SmallMultiple(d: int, m: int)
    requires -m < d * m < m
    ensures d == 0
  {
  }

  /** The narrowing cast gives the number of the type that is congruent to what was sent. */
  lemma CastSignedIsCongruent(i: int, w: Width)
    ensures -(Modulus(w) / 2) <= CastSigned(i, w) < Modulus(w) / 2
    ensures CastSigned(i, w) % Modulus(w) == i % Modulus(w)
  {
    hide Modulus;
    HalvesFit(w);
    var m := Modulus(w);
    SmallRemainder(i % m, m);
    SameRemainder(i % m - m, i % m, -1, m);
  }

  lemma SmallerModulus(i: int, j: int, w: Width)
    requires i % TWO_64 == j % TWO_64
    ensures i % Modulus(w) == j % Modulus(w)
  {
    var d := i / TWO_64 - j / TWO_64;
    assert i == j + d * TWO_64;
    SameRemainder(i, j, d * (TWO_64 / Modulus(w)), Modulus(w));
  }

  /** An integer type takes any integer of the sign it allows, modulo its width. */
  lemma AnyIntegerDecodes(item: Item, ty: Type, out: Value)
    requires ty.UnsignedInt? || ty.SignedInt?
    ensures FromItem(item, ty, out).Some? <==> item.UInt? || (ty.SignedInt? && item.NInt?)
    ensures FromItem(item, ty, out).Some? ==>
              var v := FromItem(item, ty, out).value;
              var sent := if item.UInt? then item.n else -1 - item.n;
              HasType(v, ty) && v.i % Modulus(ty.width) == sent % Modulus(ty.width)
  {
    hide Modulus, CastSigned;
    if ty.SignedInt? && (item.UInt? || item.NInt?) {
      var sent := if item.UInt? then item.n else -1 - item.n;
      CastSignedIsCongruent(sent, W64);
      CastSignedIsCongruent(CastSigned(sent, W64), ty.width);
      WidthOf64();
      SmallerModulus(CastSigned(sent, W64), sent, ty.width);
    } else if item.UInt? {
      HalvesFit(ty.width);
      RemainderTwice(item.n, Modulus(ty.width));
    }
  }

  lemma WidthOf64()
    ensures Modulus(W64) == TWO_64
  {
  }

  lemma RemainderTwice(n: int, m: int)
    requires 0 < m
    ensures 0 <= n % m < m && n % m % m == n % m
  {
    SmallRemainder(n % m, m);
  }

  /** Of the other single values nothing decodes but what encodes to that very item: any
      other kind of item, length or name is refused. */
  lemma OnlyItsOwnItemDecodes(item: Item, ty: Type, out: Value)
    requires Encodable(item) && HasShape(out, ty)
    requires ty.Double? || ty.Characters? || ty.ByteArray? || ty.FixedBytes? || ty.Enum?
    requires ty.Enum? ==> Distinct(ty.names)
    ensures FromItem(item, ty, out).Some? <==> exists v :: HasType(v, ty) && ToItem(v, ty) == item
    ensures FromItem(item, ty, out).Some? ==>
              var v := FromItem(item, ty, out).value;
              HasType(v, ty) && ToItem(v, ty) == item
  {
    forall v | HasType(v, ty) && ToItem(v, ty) == item
      ensures FromItem(item, ty, out) == Some(v)
    {
      ValueRoundTrip(v, ty, out);
    }
    if FromItem(item, ty, out).Some? {
      ItReencodes(item, ty, out);
    }
  }

  lemma ItReencodes(item: Item, ty: Type, out: Value)
    requires Encodable(item) && HasShape(out, ty) && FromItem(item, ty, out).Some?
    requires ty.Double? || ty.Characters? || ty.ByteArray? || ty.FixedBytes? || ty.Enum?
    requires ty.Enum? ==> Distinct(ty.names)
    ensures
      var v := FromItem(item, ty, out).value;
      HasType(v, ty) && ToItem(v, ty) == item
  {
  }

  /** Resizing keeps the elements there are and value-initialises new ones. */
  lemma ResizedKeepsElements(vs: seq<Value>, n: nat, ty: Type, i: nat)
    requires i < n
    ensures Resized(vs, n, ty)[i] == if i < |vs| then vs[i] else Default(ty)
  {
  }
}
