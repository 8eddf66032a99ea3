/**
 The loops of cbor_decode in serialization/make_serializable.hpp: lists filled element
 by element, structs field by field.
 */
module CborDecoder {
  import opened Options
  import opened CborBytes
  import opened Cbor
  import opened Words

  function Extended<T>(done: seq<T>, rest: Option<seq<T>>): Option<seq<T>> {
    match rest
    case None => None
    case Some(more) => Some(done + more)
  }

  lemma ExtendedByOne<T>(done: seq<T>, v: T, rest: Option<seq<T>>)
    ensures Extended(done, Extended([v], rest)) == Extended(done + [v], rest)
  {
    if rest.Some? {
      assert done + ([v] + rest.value) == (done + [v]) + rest.value;
    }
  }

  lemma ExtendedByNothing<T>(rest: Option<seq<T>>)
    ensures Extended([], rest) == rest
  {
    if rest.Some? {
      assert [] + rest.value == rest.value;
    }
  }

  lemma FirstItem(items: seq<Item>, ty: Type, outs: seq<Value>)
    requires |outs| == |items| && items != []
    ensures FromItems(items, ty, outs) ==
            match FromItem(items[0], ty, outs[0])
            case None => None
            case Some(v) => Extended([v], FromItems(items[1..], ty, outs[1..]))
  {
  }

  lemma FirstField(pairs: seq<Item>, fields: seq<Field>, outs: seq<Value>)
    requires |outs| == |fields| && fields != []
    ensures FromPairs(pairs, fields, outs) ==
            match Lookup(pairs, fields[0].name)
            case None => Some(outs)
            case Some(item) =>
              match FromItem(item, fields[0].ty, outs[0])
              case None => None
              case Some(v) => Extended([v], FromPairs(pairs, fields[1..], outs[1..]))
  {
  }

  method DecodeValue(item: Item, ty: Type, out: Value) returns (r: Option<Value>)
    ensures r == FromItem(item, ty, out)
    decreases item, 1
  {
    match ty
    case Vector(elem) =>
      if !item.Array? || !out.ListV? {
        return None;
      }
      var filled := DecodeList(item.items, elem, Resized(out.elems, |item.items|, elem));
      r := if filled.Some? then Some(ListV(filled.value)) else None;
    case Fixed(elem, _) =>
      if !item.Array? || !out.ListV? || |out.elems| != |item.items| {
        return None;
      }
      var filled := DecodeList(item.items, elem, out.elems);
      r := if filled.Some? then Some(ListV(filled.value)) else None;
    case Struct(fields) =>
      if !item.Map? || !out.StructV? || |out.members| != |fields| {
        return None;
      }
      var filled := DecodeFields(item.pairs, fields, out.members);
      r := if filled.Some? then Some(StructV(filled.value)) else None;
    case _ =>
      r := FromItem(item, ty, out);
  }

  method DecodeList(items: seq<Item>, elem: Type, outs: seq<Value>) returns (r: Option<seq<Value>>)
    requires |outs| == |items|
    ensures r == FromItems(items, elem, outs)
    decreases items
  {
    hide FromItems, FromItem;
    var filled := outs;
    ExtendedByNothing(FromItems(items, elem, outs));
    assert items[0..] == items && outs[0..] == outs;
    for i := 0 to |items|
      invariant |filled| == |items| && filled[i..] == outs[i..]
      invariant FromItems(items, elem, outs) == Extended(filled[..i], FromItems(items[i..], elem, outs[i..]))
    {
      FirstItem(items[i..], elem, outs[i..]);
      assert items[i..][1..] == items[i + 1..] && outs[i..][1..] == outs[i + 1..] && outs[i..][0] == filled[i];
      var v := DecodeValue(items[i], elem, filled[i]);
      if v.None? {
        return None;
      }
      ExtendedByOne(filled[..i], v.value, FromItems(items[i + 1..], elem, outs[i + 1..]));
      ghost var before := filled;
      filled := filled[i := v.value];
      assert filled[..i + 1] == before[..i] + [v.value] && filled[i + 1..] == before[i..][1..];
    }
    NoItems(elem);
    assert items[|items|..] == [] && outs[|items|..] == [];
    assert filled[..|items|] + [] == filled;
    r := Some(filled);
  }

  lemma NoItems(ty: Type)
    ensures FromItems([], ty, []) == Some([])
  {
  }

  method DecodeFields(pairs: seq<Item>, fields: seq<Field>, outs: seq<Value>) returns (r: Option<seq<Value>>)
    requires |outs| == |fields|
    ensures r == FromPairs(pairs, fields, outs)
    decreases pairs
  {
    hide FromPairs, FromItem, Lookup;
    var filled := outs;
    ExtendedByNothing(FromPairs(pairs, fields, outs));
    assert fields[0..] == fields && outs[0..] == outs;
    for i := 0 to |fields|
      invariant |filled| == |fields| && filled[i..] == outs[i..]
      invariant FromPairs(pairs, fields, outs) == Extended(filled[..i], FromPairs(pairs, fields[i..], outs[i..]))
    {
      FirstField(pairs, fields[i..], outs[i..]);
      assert fields[i..][1..] == fields[i + 1..] && outs[i..][1..] == outs[i + 1..] && outs[i..][0] == filled[i];
      var element := Lookup(pairs, fields[i].name);
      if element.None? {
        assert filled[..i] + filled[i..] == filled;
        return Some(filled);
      }
      var v := DecodeValue(element.value, fields[i].ty, filled[i]);
      if v.None? {
        return None;
      }
      ExtendedByOne(filled[..i], v.value, FromPairs(pairs, fields[i + 1..], outs[i + 1..]));
      ghost var before := filled;
      filled := filled[i := v.value];
      assert filled[..i + 1] == before[..i] + [v.value] && filled[i + 1..] == before[i..][1..];
    }
    NoFields(pairs);
    assert fields[|fields|..] == [] && outs[|fields|..] == [];
    assert filled[..|fields|] + [] == filled;
    r := Some(filled);
  }

  lemma NoFields(pairs: seq<Item>)
    ensures FromPairs(pairs, [], []) == Some([])
  {
  }

  /** deserialize_cbor; None where the original aborts or the CBOR library refuses. */
  method DeserializeCbor(b: seq<Byte>, ty: Type, out: Value) returns (r: Option<Value>)
    ensures r == Deserialize(b, ty, out)
    ensures forall v, trailing | HasType(v, ty) && HasShape(out, ty) && b == Serialize(v, ty) + trailing :: r == Some(v)
  {
    var parsed := Parse(b);
    if parsed.None? {
      r := None;
    } else {
      r := DecodeValue(parsed.value.0, ty, out);
    }
    forall v, trailing | HasType(v, ty) && HasShape(out, ty) && b == Serialize(v, ty) + trailing
      ensures r == Some(v)
    {
      RoundTrip(v, ty, out, trailing);
    }
  }
}
