/** Encodings from appendix A of RFC 8949, byte for byte. */
module CborExamples {
  import opened CborBytes
  import opened Cbor
  import opened Words

  lemma UnsignedExamples()
    ensures Serialize(IntV(0), UnsignedInt(W8)) == [0x00]
    ensures Serialize(IntV(23), UnsignedInt(W8)) == [0x17]
    ensures Serialize(IntV(24), UnsignedInt(W8)) == [0x18, 0x18]
    ensures Serialize(IntV(100), UnsignedInt(W8)) == [0x18, 0x64]
    ensures Serialize(IntV(1000), UnsignedInt(W16)) == [0x19, 0x03, 0xE8]
  {
    assert BigEndian(24, 1) == [24] && BigEndian(100, 1) == [100];
    assert BigEndian(1000, 2) == BigEndian(3, 1) + [0xE8];
  }

  lemma FourBytes(a: Byte, b: Byte, c: Byte, d: Byte)
    ensures BigEndian(((a * 256 + b) * 256 + c) * 256 + d, 4) == [a, b, c, d]
  {
    assert BigEndian((a * 256 + b) * 256 + c, 3) == BigEndian(a * 256 + b, 2) + [c];
    assert BigEndian(a * 256 + b, 2) == BigEndian(a, 1) + [b];
  }

  lemma EightBytes(high: nat, low: nat)
    requires low < 0x1_0000_0000
    ensures BigEndian(high * 0x1_0000_0000 + low, 8) == BigEndian(high, 4) + BigEndian(low, 4)
  {
    SplitDigits(high, low, 4);
  }

  lemma {:induction false} SplitDigits(high: nat, low: nat, k: nat)
    requires low < Pow256(k)
    ensures BigEndian(high * Pow256(k) + low, 4 + k) == BigEndian(high, 4) + BigEndian(low, k)
  {
    hide BigEndian, Pow256;
    if k > 0 {
      PowerOneMore(k);
      LowestDigit(high, Pow256(k - 1), low);
      SplitDigits(high, low / 256, k - 1);
      LastByte(high * Pow256(k) + low, 4 + k);
      LastByte(low, k);
    } else {
      NoBytes(low);
    }
  }

  lemma PowerOneMore(k: nat)
    requires k > 0
    ensures Pow256(k) == 256 * Pow256(k - 1)
  {
  }

  lemma LowestDigit(high: nat, p: nat, low: nat)
    ensures (high * (256 * p) + low) / 256 == high * p + low / 256
    ensures (high * (256 * p) + low) % 256 == low % 256
  {
    assert high * (256 * p) == 256 * (high * p);
  }

  lemma LastByte(n: nat, k: nat)
    requires k > 0
    ensures BigEndian(n, k) == BigEndian(n / 256, k - 1) + [n % 256]
  {
  }

  lemma NoBytes(low: nat)
    requires low < Pow256(0)
    ensures low == 0 && Pow256(0) == 1 && BigEndian(low, 0) == []
  {
  }

  lemma LongUnsignedExamples()
    ensures Serialize(IntV(1000000), UnsignedInt(W32)) == [0x1A, 0x00, 0x0F, 0x42, 0x40]
    ensures Serialize(IntV(TWO_64 - 1), UnsignedInt(W64)) ==
            [0x1B, 0xFF, 0xFF, 0xFF, 0xFF, 0xFF, 0xFF, 0xFF, 0xFF]
  {
    hide BigEndian;
    FourBytes(0x00, 0x0F, 0x42, 0x40);
    FourBytes(0xFF, 0xFF, 0xFF, 0xFF);
    EightBytes(0xFFFF_FFFF, 0xFFFF_FFFF);
  }

  lemma NegativeExamples()
    ensures Serialize(IntV(-1), SignedInt(W8)) == [0x20]
    ensures Serialize(IntV(-10), SignedInt(W8)) == [0x29]
    ensures Serialize(IntV(-100), SignedInt(W8)) == [0x38, 0x63]
    ensures Serialize(IntV(-1000), SignedInt(W16)) == [0x39, 0x03, 0xE7]
  {
    assert BigEndian(99, 1) == [0x63];
    assert BigEndian(999, 2) == BigEndian(3, 1) + [0xE7];
  }

  /** 100000.0 in single and 1.1 in double precision. */
  lemma FloatExamples()
    ensures Serialize(BitsV(0x47C3_5000), Single) == [0xFA, 0x47, 0xC3, 0x50, 0x00]
    ensures Serialize(BitsV(0x3FF1_9999_9999_999A), Double) ==
            [0xFB, 0x3F, 0xF1, 0x99, 0x99, 0x99, 0x99, 0x99, 0x9A]
  {
    hide BigEndian;
    FourBytes(0x47, 0xC3, 0x50, 0x00);
    FourBytes(0x3F, 0xF1, 0x99, 0x99);
    FourBytes(0x99, 0x99, 0x99, 0x9A);
    EightBytes(0x3FF1_9999, 0x9999_999A);
  }

  lemma StringExamples()
    ensures Serialize(BytesV([]), ByteArray) == [0x40]
    ensures Serialize(BytesV([1, 2, 3, 4]), ByteArray) == [0x44, 0x01, 0x02, 0x03, 0x04]
    ensures Serialize(TextV([]), Characters) == [0x60]
    ensures Serialize(TextV([0x61]), Characters) == [0x61, 0x61]
    ensures Serialize(TextV([0x49, 0x45, 0x54, 0x46]), Characters) == [0x64, 0x49, 0x45, 0x54, 0x46]
  {
  }

  // ---------------------------------------------------------------- containers

  lemma OneItem(a: Item)
    requires Encodable(a)
    ensures AllEncodable([a]) && EncodeAll([a]) == Encode(a)
  {
    assert [a][1..] == [];
  }

  lemma OneItemMore(a: Item, items: seq<Item>)
    requires Encodable(a) && AllEncodable(items)
    ensures AllEncodable([a] + items) && EncodeAll([a] + items) == Encode(a) + EncodeAll(items)
  {
    assert ([a] + items)[1..] == items;
  }

  lemma OneValueMore(a: Value, vs: seq<Value>, ty: Type)
    requires HasType(a, ty) && AllHaveType(vs, ty)
    ensures AllHaveType([a] + vs, ty) && ListItems([a] + vs, ty) == [ToItem(a, ty)] + ListItems(vs, ty)
  {
    assert ([a] + vs)[1..] == vs;
  }

  lemma OneMemberMore(a: Value, vs: seq<Value>, f: Field, fields: seq<Field>)
    requires |f.name| < TWO_64 && HasType(a, f.ty) && MembersHaveTypes(vs, fields)
    ensures MembersHaveTypes([a] + vs, [f] + fields)
    ensures MemberItems([a] + vs, [f] + fields) == [Text(f.name), ToItem(a, f.ty)] + MemberItems(vs, fields)
  {
    assert ([a] + vs)[1..] == vs && ([f] + fields)[1..] == fields;
  }

  lemma TwoNumbers(a: nat, b: nat)
    requires a < 24 && b < 24
    ensures AllHaveType([IntV(a), IntV(b)], UnsignedInt(W8)) && AllEncodable([UInt(a), UInt(b)])
    ensures ListItems([IntV(a), IntV(b)], UnsignedInt(W8)) == [UInt(a), UInt(b)]
    ensures EncodeAll([UInt(a), UInt(b)]) == [a, b]
  {
    OneItem(UInt(b));
    OneItemMore(UInt(a), [UInt(b)]);
    OneValueMore(IntV(b), [], UnsignedInt(W8));
    OneValueMore(IntV(a), [IntV(b)], UnsignedInt(W8));
    assert [IntV(a)] + [IntV(b)] == [IntV(a), IntV(b)] && [UInt(a)] + [UInt(b)] == [UInt(a), UInt(b)];
    assert [IntV(b)] + [] == [IntV(b)];
  }

  lemma ListExamples()
    ensures Serialize(ListV([]), Vector(UnsignedInt(W8))) == [0x80]
    ensures HasType(ListV([IntV(1), IntV(2), IntV(3)]), Vector(UnsignedInt(W8)))
    ensures Serialize(ListV([IntV(1), IntV(2), IntV(3)]), Vector(UnsignedInt(W8))) == [0x83, 0x01, 0x02, 0x03]
  {
    TwoNumbers(2, 3);
    OneValueMore(IntV(1), [IntV(2), IntV(3)], UnsignedInt(W8));
    OneItemMore(UInt(1), [UInt(2), UInt(3)]);
    assert [IntV(1)] + [IntV(2), IntV(3)] == [IntV(1), IntV(2), IntV(3)];
  }

  const FieldA := Field([0x61], UnsignedInt(W8))
  const FieldB := Field([0x62], Vector(UnsignedInt(W8)))
  const TwoAndThree := ListV([IntV(2), IntV(3)])
  const ExamplePairs := [Text([0x61]), UInt(1), Text([0x62]), Array([UInt(2), UInt(3)])]

  lemma NoMembers()
    ensures MembersHaveTypes([], []) && MemberItems([], []) == []
  {
  }

  lemma ExampleMembers()
    ensures MembersHaveTypes([IntV(1), TwoAndThree], [FieldA, FieldB])
    ensures MemberItems([IntV(1), TwoAndThree], [FieldA, FieldB]) == ExamplePairs
  {
    hide MemberItems, ListItems, MembersHaveTypes, AllHaveType;
    TwoNumbers(2, 3);
    NoMembers();
    OneMemberMore(TwoAndThree, [], FieldB, []);
    assert [TwoAndThree] + [] == [TwoAndThree] && [FieldB] + [] == [FieldB];
    OneMemberMore(IntV(1), [TwoAndThree], FieldA, [FieldB]);
    assert [IntV(1)] + [TwoAndThree] == [IntV(1), TwoAndThree] && [FieldA] + [FieldB] == [FieldA, FieldB];
  }

  lemma ExampleItems()
    ensures AllEncodable(ExamplePairs)
    ensures EncodeAll(ExamplePairs) == [0x61, 0x61, 0x01, 0x61, 0x62, 0x82, 0x02, 0x03]
  {
    hide EncodeAll, AllEncodable;
    var list := Array([UInt(2), UInt(3)]);
    TwoNumbers(2, 3);
    assert Encode(list) == [0x82, 0x02, 0x03];
    OneItem(list);
    OneItemMore(Text([0x62]), [list]);
    OneItemMore(UInt(1), [Text([0x62])] + [list]);
    OneItemMore(Text([0x61]), [UInt(1)] + ([Text([0x62])] + [list]));
    assert [Text([0x61])] + ([UInt(1)] + ([Text([0x62])] + [list])) == ExamplePairs;
  }

  /** A struct with members a = 1 and b = [2, 3]. */
  lemma StructExample()
    ensures HasType(StructV([IntV(1), TwoAndThree]), Struct([FieldA, FieldB]))
    ensures Serialize(StructV([IntV(1), TwoAndThree]), Struct([FieldA, FieldB])) ==
            [0xA2, 0x61, 0x61, 0x01, 0x61, 0x62, 0x82, 0x02, 0x03]
  {
    hide EncodeAll, AllEncodable, MemberItems, MembersHaveTypes;
    ExampleMembers();
    ExampleItems();
    assert Names([FieldA, FieldB]) == [[0x61], [0x62]];
  }
}
