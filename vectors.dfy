/** The test values of the repository's unit tests (src/any/mod.rs and
    src/lib.rs), stated of the model: each test type is encoded as the
    tests expect for every value of its fields, reads back as itself, and
    the bytes the tests pin down follow for the values they use. */
module Vectors {
  import opened Bytes
  import opened Wrappers
  import opened DataModel
  import AnySer
  import AnyDe
  import AnyRoundTrip
  import AnyValueRoundTrip
  import LegacySer
  import LegacyDe
  import LegacyRoundTrip
  import Values
  import Tags

  /** `struct TestStruct { a: usize, b: String }`. */
  const TestStructShape: Shape := SStruct([SInt(U64), SStr])

  /** `enum TestEnum { Unit, NewType(u8), Tuple(f32, String),
      Struct { a: f64, b: Vec<u16> } }`. */
  const TestEnumShape: Shape := SEnum([
    Variant("Unit", VUnit),
    Variant("NewType", VNewtype(SInt(U8))),
    Variant("Tuple", VTuple([SFloat32, SStr])),
    Variant("Struct", VStruct([SFloat64, SSeq(SInt(U16))]))
  ])

  function TestStruct(a: nat, b: string): Data
  {
    Struct([Int(U64, a), Str(b)])
  }

  function TestEnumTuple(bits: nat, s: string): Data
  {
    TupleVariant(2, [Float32(bits), Str(s)])
  }

  function U16s(xs: seq<nat>): (r: seq<Data>)
    ensures |r| == |xs|
  {
    if xs == [] then [] else [Int(U16, xs[0])] + U16s(xs[1..])
  }

  function TestEnumStruct(bits: nat, xs: seq<nat>): Data
  {
    StructVariant(3, [Float64(bits), Seq(true, U16s(xs))])
  }

  /** The IEEE bits of `12.3f32` and `42.123f64`. */
  const Bits12p3: nat := 1095027917
  const Bits42p123: nat := 4631125102531490873

  // ---------------------------------------------------------------------
  // Small facts
  // ---------------------------------------------------------------------


  /** An ASCII character is its own single byte. */
  lemma AsciiFirst(c: char, s: string)
    requires c as int < 0x80
    ensures EncodeUtf8([c] + s) == [c as int] + EncodeUtf8(s)
  {
    assert ([c] + s)[1..] == s;
  }

  lemma HelloUtf8()
    ensures EncodeUtf8("Hello") == [72, 101, 108, 108, 111]
  {
    AsciiFirst('o', "");
    AsciiFirst('l', "o");
    AsciiFirst('l', "lo");
    AsciiFirst('e', "llo");
    AsciiFirst('H', "ello");
  }

  lemma StringUtf8()
    ensures EncodeUtf8("String") == [83, 116, 114, 105, 110, 103]
  {
    AsciiFirst('g', "");
    AsciiFirst('n', "g");
    AsciiFirst('i', "ng");
    AsciiFirst('r', "ing");
    AsciiFirst('t', "ring");
    AsciiFirst('S', "tring");
  }

  /** `12.3f32.to_be_bytes()`. */
  lemma F32Bytes()
    ensures BeBytes(Bits12p3, 4) == [65, 68, 204, 205]
  {
  }

  /** `42.123f64.to_be_bytes()`. */
  lemma F64Bytes()
    ensures BeBytes(Bits42p123, 8) == [64, 69, 15, 190, 118, 200, 180, 57]
  {
  }

  /** `to_be_bytes` of a value below 256, in 1, 2, 4 and 8 bytes. */
  lemma Be1(x: nat)
    requires x < 256
    ensures BeBytes(x, 1) == [x]
  {
    assert x / 256 == 0 && x % 256 == x;
  }

  lemma Be2(x: nat)
    requires x < 256
    ensures BeBytes(x, 2) == [0, x]
  {
    assert x / 256 == 0 && x % 256 == x;
    assert BeBytes(0, 1) == [0];
  }

  lemma Be4(x: nat)
    requires x < 256
    ensures BeBytes(x, 4) == [0, 0, 0, x]
  {
    assert x / 256 == 0 && x % 256 == x;
    assert BeBytes(0, 3) == [0, 0, 0];
  }

  lemma Be8(x: nat)
    requires x < 256
    ensures BeBytes(x, 8) == [0, 0, 0, 0, 0, 0, 0, x]
  {
    assert x / 256 == 0 && x % 256 == x;
    assert BeBytes(0, 7) == [0, 0, 0, 0, 0, 0, 0];
  }

  lemma U16sAt(xs: seq<nat>)
    ensures forall j :: 0 <= j < |xs| ==> U16s(xs)[j] == Int(U16, xs[j])
  {
    if xs != [] {
      U16sAt(xs[1..]);
      forall j | 1 <= j < |xs|
        ensures U16s(xs)[j] == Int(U16, xs[j])
      {
        assert U16s(xs)[j] == U16s(xs[1..])[j - 1];
      }
    }
  }

  // ---------------------------------------------------------------------
  // Lists of two and four elements
  // ---------------------------------------------------------------------

  lemma TaggedOne(l: seq<Data>)
    requires |l| == 1
    ensures AnySer.EncodeList(l) == AnySer.Encode(l[0])
  {
    assert l[..0] == [];
  }

  lemma TaggedTwo(l: seq<Data>)
    requires |l| == 2
    ensures AnySer.EncodeList(l) == AnySer.Encode(l[0]) + AnySer.Encode(l[1])
  {
    TaggedOne(l[..1]);
  }

  lemma LegacyOne(l: seq<Data>)
    requires |l| == 1
    ensures LegacySer.EncodeList(l) == LegacySer.Encode(l[0])
  {
    assert l[..0] == [];
  }

  lemma LegacyTwo(l: seq<Data>)
    requires |l| == 2
    ensures LegacySer.EncodeList(l) == LegacySer.Encode(l[0]) + LegacySer.Encode(l[1])
  {
    LegacyOne(l[..1]);
  }

  lemma MaxLenLarge()
    ensures MaxLen >= 128
  {
  }

  // One step of each encoder, for the constructors the tests use.

  lemma TaggedIntStep(t: IntType, x: int)
    ensures AnySer.Encode(Int(t, x)) == [AnySer.TagByte(AnySer.IntTag(t))] + BeBytes(x, t.Size())
  {
  }

  lemma TaggedFloat32Step(bits: nat)
    ensures AnySer.Encode(Float32(bits)) == [12] + BeBytes(bits, 4)
  {
  }

  lemma TaggedFloat64Step(bits: nat)
    ensures AnySer.Encode(Float64(bits)) == [13] + BeBytes(bits, 8)
  {
  }

  lemma TaggedStrStep(s: string)
    ensures AnySer.Encode(Str(s)) == [18] + BeBytes(|EncodeUtf8(s)|, 8) + EncodeUtf8(s)
  {
  }

  lemma TaggedStructUnfold(v: Data)
    requires v.Struct?
    ensures AnySer.Encode(v) == AnySer.EncodeCounted(Tags.Tag.Struct, v.fields)
  {
  }

  lemma TaggedStructBody(es: seq<Data>)
    ensures AnySer.EncodeCounted(Tags.Tag.Struct, es) == [AnySer.TagByte(Tags.Tag.Struct), |es| % 256] + AnySer.EncodeList(es)
  {
  }

  lemma StructTagByte()
    ensures AnySer.TagByte(Tags.Tag.Struct) == 30
  {
  }

  lemma TaggedStructStep(es: seq<Data>)
    ensures AnySer.Encode(Struct(es)) == [30, |es| % 256] + AnySer.EncodeList(es)
  {
    TaggedStructUnfold(Struct(es));
    TaggedStructBody(es);
    StructTagByte();
  }

  lemma TaggedSeqUnfold(v: Data)
    requires v.Seq?
    ensures AnySer.Encode(v) == AnySer.EncodeSeq(v.known, v.elems)
  {
  }

  lemma TaggedSeqBody(es: seq<Data>)
    ensures AnySer.EncodeSeq(true, es) == [AnySer.TagByte(Tags.Tag.Seq)] + BeBytes(|es|, 8) + AnySer.EncodeList(es)
  {
  }

  lemma SeqTagByte()
    ensures AnySer.TagByte(Tags.Tag.Seq) == 25
  {
  }

  lemma U64TagByte()
    ensures AnySer.TagByte(AnySer.IntTag(U64)) == 11
  {
  }

  lemma U16TagByte()
    ensures AnySer.TagByte(AnySer.IntTag(U16)) == 9
  {
  }

  lemma U8TagByte()
    ensures AnySer.TagByte(AnySer.IntTag(U8)) == 8
  {
  }

  lemma TaggedSeqStep(es: seq<Data>)
    ensures AnySer.Encode(Seq(true, es)) == [25] + BeBytes(|es|, 8) + AnySer.EncodeList(es)
  {
    TaggedSeqUnfold(Seq(true, es));
    TaggedSeqBody(es);
    SeqTagByte();
  }

  lemma TaggedUnitVariantStep(i: nat)
    ensures AnySer.Encode(UnitVariant(i)) == [22] + BeBytes(i, 4)
  {
  }

  lemma TaggedNewtypeVariantStep(i: nat, x: Data)
    ensures AnySer.Encode(NewtypeVariant(i, x)) == [24] + BeBytes(i, 4) + AnySer.Encode(x)
  {
  }

  lemma TaggedTupleVariantStep(i: nat, es: seq<Data>)
    ensures AnySer.Encode(TupleVariant(i, es)) == [28] + BeBytes(i, 4) + AnySer.EncodeList(es)
  {
  }

  lemma TaggedStructVariantStep(i: nat, es: seq<Data>)
    ensures AnySer.Encode(StructVariant(i, es)) == [31] + BeBytes(i, 4) + AnySer.EncodeList(es)
  {
  }

  lemma LegacyIntStep(t: IntType, x: int)
    ensures LegacySer.Encode(Int(t, x)) == BeBytes(x, t.Size())
  {
  }

  lemma LegacyFloat32Step(bits: nat)
    ensures LegacySer.Encode(Float32(bits)) == BeBytes(bits, 4)
  {
  }

  lemma LegacyFloat64Step(bits: nat)
    ensures LegacySer.Encode(Float64(bits)) == BeBytes(bits, 8)
  {
  }

  lemma LegacyStrStep(s: string)
    ensures LegacySer.Encode(Str(s)) == BeBytes(|EncodeUtf8(s)|, 8) + EncodeUtf8(s)
  {
  }

  lemma LegacyStructStep(es: seq<Data>)
    ensures LegacySer.Encode(Struct(es)) == LegacySer.EncodeList(es)
  {
  }

  lemma LegacySeqStep(v: Data)
    requires v.Seq?
    ensures LegacySer.Encode(v) == BeBytes(|v.elems|, 8) + LegacySer.EncodeList(v.elems)
  {
  }

  lemma LegacyUnitVariantStep(i: nat)
    ensures LegacySer.Encode(UnitVariant(i)) == BeBytes(i, 4)
  {
  }

  lemma LegacyNewtypeVariantStep(i: nat, x: Data)
    ensures LegacySer.Encode(NewtypeVariant(i, x)) == BeBytes(i, 4) + LegacySer.Encode(x)
  {
  }

  lemma LegacyVariantElemsStep(i: nat, es: seq<Data>)
    ensures LegacySer.Encode(TupleVariant(i, es)) == BeBytes(i, 4) + LegacySer.EncodeList(es)
    ensures LegacySer.Encode(StructVariant(i, es)) == BeBytes(i, 4) + LegacySer.EncodeList(es)
  {
  }

  // ---------------------------------------------------------------------
  // Decoding gives the test values back unchanged
  // ---------------------------------------------------------------------

  lemma {:induction false} TaggedNormalFixed(es: seq<Data>)
    requires forall j :: 0 <= j < |es| ==> AnyRoundTrip.Normalize(es[j]) == es[j]
    ensures AnyRoundTrip.NormalizeAll(es) == es
    decreases |es|
  {
    if es != [] {
      TaggedNormalFixed(es[1..]);
    }
  }

  lemma {:induction false} LegacyNormalFixed(es: seq<Data>)
    requires forall j :: 0 <= j < |es| ==> LegacyRoundTrip.Normalize(es[j]) == es[j]
    ensures LegacyRoundTrip.NormalizeAll(es) == es
    decreases |es|
  {
    if es != [] {
      LegacyNormalFixed(es[1..]);
    }
  }

  lemma TestStructConforms(a: nat, b: string)
    ensures Conforms(TestStruct(a, b), TestStructShape)
  {
    assert AllConform([Int(U64, a), Str(b)], [SInt(U64), SStr]);
  }

  lemma TestStructNormal(a: nat, b: string)
    ensures AnyRoundTrip.Normalize(TestStruct(a, b)) == TestStruct(a, b)
    ensures LegacyRoundTrip.Normalize(TestStruct(a, b)) == TestStruct(a, b)
  {
    TaggedNormalFixed([Int(U64, a), Str(b)]);
    LegacyNormalFixed([Int(U64, a), Str(b)]);
  }

  lemma TestStructWellFormed(a: nat, b: string)
    requires a < Pow256(8) && |EncodeUtf8(b)| < MaxLen
    ensures WellFormed(TestStruct(a, b))
  {
    var fs := [Int(U64, a), Str(b)];
    MaxLenLarge();
    assert WellFormed(fs[0]) && WellFormed(fs[1]);
    assert AllWellFormed(fs);
  }

  /** A `TestStruct` is a value of its type, in range for both formats, and
      comes back from either decoder as it went in. */
  lemma TestStructFits(a: nat, b: string)
    requires a < Pow256(8) && |EncodeUtf8(b)| < MaxLen
    ensures Conforms(TestStruct(a, b), TestStructShape)
    ensures AnyRoundTrip.Codable(TestStruct(a, b)) && AnyRoundTrip.Normalize(TestStruct(a, b)) == TestStruct(a, b)
    ensures LegacyRoundTrip.Codable(TestStruct(a, b)) && LegacyRoundTrip.Normalize(TestStruct(a, b)) == TestStruct(a, b)
  {
    TestStructConforms(a, b);
    TestStructNormal(a, b);
    TestStructWellFormed(a, b);
  }

  // ---------------------------------------------------------------------
  // The self-describing format (src/any/mod.rs)
  // ---------------------------------------------------------------------

  lemma TaggedPairStruct(x: Data, y: Data)
    ensures AnySer.Encode(Struct([x, y])) == [30, 2] + AnySer.Encode(x) + AnySer.Encode(y)
  {
    var l := [x, y];
    TaggedStructStep(l);
    TaggedTwo(l);
    assert |l| % 256 == 2 && l[0] == x && l[1] == y;
    AppendAssoc([30, 2], AnySer.Encode(x), AnySer.Encode(y));
  }

  lemma TaggedPairTupleVariant(i: nat, x: Data, y: Data)
    ensures AnySer.Encode(TupleVariant(i, [x, y])) == [28] + BeBytes(i, 4) + AnySer.Encode(x) + AnySer.Encode(y)
  {
    var l := [x, y];
    TaggedTupleVariantStep(i, l);
    TaggedTwo(l);
    assert l[0] == x && l[1] == y;
    AppendAssoc([28] + BeBytes(i, 4), AnySer.Encode(x), AnySer.Encode(y));
  }

  lemma TaggedPairStructVariant(i: nat, x: Data, y: Data)
    ensures AnySer.Encode(StructVariant(i, [x, y])) == [31] + BeBytes(i, 4) + AnySer.Encode(x) + AnySer.Encode(y)
  {
    var l := [x, y];
    TaggedStructVariantStep(i, l);
    TaggedTwo(l);
    assert l[0] == x && l[1] == y;
    AppendAssoc([31] + BeBytes(i, 4), AnySer.Encode(x), AnySer.Encode(y));
  }

  /** `TestStruct`: the `Struct` tag, the field count 2, then each field
      behind its own tag. */
  lemma TaggedTestStruct(a: nat, b: string)
    ensures AnySer.Encode(TestStruct(a, b))
         == [30, 2] + ([11] + BeBytes(a, 8)) + ([18] + BeBytes(|EncodeUtf8(b)|, 8) + EncodeUtf8(b))
  {
    TaggedPairStruct(Int(U64, a), Str(b));
    TaggedIntStep(U64, a);
    U64TagByte();
    TaggedStrStep(b);
  }

  /** `test_serialize_struct`. */
  lemma TaggedStruct()
    ensures AnySer.Encode(TestStruct(56, "Hello"))
         == [30, 2] + [11, 0, 0, 0, 0, 0, 0, 0, 56] + [18, 0, 0, 0, 0, 0, 0, 0, 5] + [72, 101, 108, 108, 111]
  {
    HelloUtf8();
    Be8(56);
    Be8(5);
    TaggedTestStruct(56, "Hello");
  }

  /** `test_serialize_deserialize_struct`, for every `TestStruct`. */
  lemma TaggedStructRoundTrip(a: nat, b: string)
    requires a < Pow256(8) && |EncodeUtf8(b)| < MaxLen
    ensures AnyDe.FromBytes(TestStructShape, AnySer.Encode(TestStruct(a, b))) == Ok(TestStruct(a, b))
  {
    TestStructFits(a, b);
    AnyRoundTrip.FromBytesEncode(TestStruct(a, b), TestStructShape);
  }

  /** `test_serialize_enum_unit`: the tag and the 4-byte variant index. */
  lemma TaggedEnumUnit()
    ensures AnySer.Encode(UnitVariant(0)) == [22, 0, 0, 0, 0]
  {
    TaggedUnitVariantStep(0);
    Be4(0);
  }

  /** `TestEnum::NewType(x)`: tag, index 1, then the `u8` behind its tag. */
  lemma TaggedTestEnumNewType(x: nat)
    requires x < 256
    ensures AnySer.Encode(NewtypeVariant(1, Int(U8, x))) == [24, 0, 0, 0, 1, 8, x]
  {
    TaggedNewtypeVariantStep(1, Int(U8, x));
    TaggedIntStep(U8, x);
    U8TagByte();
    Be4(1);
    Be1(x);
  }

  /** `test_serialize_enum_newtype`. */
  lemma TaggedEnumNewType()
    ensures AnySer.Encode(NewtypeVariant(1, Int(U8, 56))) == [24, 0, 0, 0, 1, 8, 56]
  {
    TaggedTestEnumNewType(56);
  }

  /** `TestEnum::Tuple(f, s)`: tag, index 2 and the two elements with no
      count. */
  lemma TaggedTestEnumTuple(bits: nat, s: string)
    ensures AnySer.Encode(TestEnumTuple(bits, s))
         == [28] + BeBytes(2, 4) + ([12] + BeBytes(bits, 4)) + ([18] + BeBytes(|EncodeUtf8(s)|, 8) + EncodeUtf8(s))
  {
    TaggedPairTupleVariant(2, Float32(bits), Str(s));
    TaggedFloat32Step(bits);
    TaggedStrStep(s);
  }

  /** `test_serialize_enum_tuple`. */
  lemma TaggedEnumTuple()
    ensures AnySer.Encode(TestEnumTuple(Bits12p3, "String"))
         == [28, 0, 0, 0, 2] + [12, 65, 68, 204, 205] + ([18, 0, 0, 0, 0, 0, 0, 0, 6] + [83, 116, 114, 105, 110, 103])
  {
    TaggedTestEnumTuple(Bits12p3, "String");
    StringUtf8();
    EnumTupleHeads();
  }

  /** The literal heads of the `TestEnum::Tuple` vector. */
  lemma EnumTupleHeads()
    ensures [28] + BeBytes(2, 4) == [28, 0, 0, 0, 2]
    ensures [12] + BeBytes(Bits12p3, 4) == [12, 65, 68, 204, 205]
    ensures [18] + BeBytes(6, 8) == [18, 0, 0, 0, 0, 0, 0, 0, 6]
  {
    F32Bytes();
    Be4(2);
    Be8(6);
  }

  /** The `u16`s of a sequence, each behind its tag. */
  function TaggedU16Bytes(xs: seq<nat>): (r: seq<u8>)
    ensures |r| == 3 * |xs|
  {
    if xs == [] then [] else [9] + BeBytes(xs[0], 2) + TaggedU16Bytes(xs[1..])
  }

  lemma {:induction false} TaggedU16s(xs: seq<nat>)
    ensures AnySer.EncodeList(U16s(xs)) == TaggedU16Bytes(xs)
    decreases |xs|
  {
    if xs != [] {
      var es := U16s(xs);
      AnyRoundTrip.EncodeListFirst(es);
      assert es[1..] == U16s(xs[1..]);
      TaggedU16s(xs[1..]);
      TaggedIntStep(U16, xs[0]);
      U16TagByte();
    }
  }

  /** `TestEnum::Struct { a, b }`: tag, index 3, the `f64` behind its tag,
      then the sequence with its tag and 8-byte length. */
  lemma TaggedTestEnumStruct(bits: nat, xs: seq<nat>)
    ensures AnySer.Encode(TestEnumStruct(bits, xs))
         == [31] + BeBytes(3, 4) + ([13] + BeBytes(bits, 8)) + ([25] + BeBytes(|xs|, 8) + TaggedU16Bytes(xs))
  {
    TaggedPairStructVariant(3, Float64(bits), Seq(true, U16s(xs)));
    TaggedFloat64Step(bits);
    TaggedSeqStep(U16s(xs));
    TaggedU16s(xs);
  }

  lemma TaggedU16BytesFirst(x: nat, xs: seq<nat>)
    requires x < 256
    ensures TaggedU16Bytes([x] + xs) == [9, 0, x] + TaggedU16Bytes(xs)
  {
    assert ([x] + xs)[1..] == xs;
    Be2(x);
  }

  lemma TestTaggedU16Bytes(xs: seq<nat>)
    requires xs == [3, 7, 1, 8]
    ensures TaggedU16Bytes(xs) == [9, 0, 3, 9, 0, 7, 9, 0, 1, 9, 0, 8]
  {
    TaggedU16BytesFirst(8, []);
    TaggedU16BytesFirst(1, [8]);
    TaggedU16BytesFirst(7, [1, 8]);
    TaggedU16BytesFirst(3, [7, 1, 8]);
  }

  /** `test_serialize_enum_struct`. */
  lemma TaggedEnumStruct(xs: seq<nat>)
    requires xs == [3, 7, 1, 8]
    ensures AnySer.Encode(TestEnumStruct(Bits42p123, xs))
         == [31, 0, 0, 0, 3] + [13, 64, 69, 15, 190, 118, 200, 180, 57]
            + ([25, 0, 0, 0, 0, 0, 0, 0, 4] + [9, 0, 3, 9, 0, 7, 9, 0, 1, 9, 0, 8])
  {
    TaggedTestEnumStruct(Bits42p123, xs);
    TestTaggedU16Bytes(xs);
    EnumStructHeads();
  }

  /** The literal heads of the `TestEnum::Struct` vector. */
  lemma EnumStructHeads()
    ensures [31] + BeBytes(3, 4) == [31, 0, 0, 0, 3]
    ensures [13] + BeBytes(Bits42p123, 8) == [13, 64, 69, 15, 190, 118, 200, 180, 57]
    ensures [25] + BeBytes(4, 8) == [25, 0, 0, 0, 0, 0, 0, 0, 4]
  {
    F64Bytes();
    Be4(3);
    Be8(4);
  }


  // ---------------------------------------------------------------------
  // Each variant of `TestEnum` is a value of its type and reads back
  // ---------------------------------------------------------------------

  lemma TestEnumVariants()
    ensures TestEnumShape.SEnum? && |TestEnumShape.variants| == 4
    ensures TestEnumShape.variants[0].kind == VUnit
    ensures TestEnumShape.variants[1].kind == VNewtype(SInt(U8))
    ensures TestEnumShape.variants[2].kind == VTuple([SFloat32, SStr])
    ensures TestEnumShape.variants[3].kind == VStruct([SFloat64, SSeq(SInt(U16))])
  {
  }

  lemma MaxIndexLarge()
    ensures MaxIndex >= 4
  {
  }

  lemma EnumUnitFits()
    ensures Conforms(UnitVariant(0), TestEnumShape)
    ensures AnyRoundTrip.Codable(UnitVariant(0)) && AnyRoundTrip.Normalize(UnitVariant(0)) == UnitVariant(0)
    ensures LegacyRoundTrip.Codable(UnitVariant(0)) && LegacyRoundTrip.Normalize(UnitVariant(0)) == UnitVariant(0)
  {
    TestEnumVariants();
    MaxIndexLarge();
  }

  lemma EnumNewTypeFits(x: nat)
    requires x < 256
    ensures Conforms(NewtypeVariant(1, Int(U8, x)), TestEnumShape)
    ensures AnyRoundTrip.Codable(NewtypeVariant(1, Int(U8, x)))
    ensures AnyRoundTrip.Normalize(NewtypeVariant(1, Int(U8, x))) == NewtypeVariant(1, Int(U8, x))
    ensures LegacyRoundTrip.Codable(NewtypeVariant(1, Int(U8, x)))
    ensures LegacyRoundTrip.Normalize(NewtypeVariant(1, Int(U8, x))) == NewtypeVariant(1, Int(U8, x))
  {
    TestEnumVariants();
    MaxIndexLarge();
    assert Pow256(1) == 256;
  }

  lemma EnumTupleConforms(bits: nat, s: string)
    ensures Conforms(TestEnumTuple(bits, s), TestEnumShape)
  {
    TestEnumVariants();
    assert AllConform([Float32(bits), Str(s)], [SFloat32, SStr]);
  }

  lemma EnumTupleNormal(bits: nat, s: string)
    ensures AnyRoundTrip.Normalize(TestEnumTuple(bits, s)) == TestEnumTuple(bits, s)
    ensures LegacyRoundTrip.Normalize(TestEnumTuple(bits, s)) == TestEnumTuple(bits, s)
  {
    TaggedNormalFixed([Float32(bits), Str(s)]);
    LegacyNormalFixed([Float32(bits), Str(s)]);
  }

  lemma EnumTupleFits(bits: nat, s: string)
    requires bits < Pow256(4) && |EncodeUtf8(s)| < MaxLen
    ensures Conforms(TestEnumTuple(bits, s), TestEnumShape)
    ensures AnyRoundTrip.Codable(TestEnumTuple(bits, s))
    ensures AnyRoundTrip.Normalize(TestEnumTuple(bits, s)) == TestEnumTuple(bits, s)
    ensures LegacyRoundTrip.Codable(TestEnumTuple(bits, s))
    ensures LegacyRoundTrip.Normalize(TestEnumTuple(bits, s)) == TestEnumTuple(bits, s)
  {
    var es := [Float32(bits), Str(s)];
    EnumTupleConforms(bits, s);
    EnumTupleNormal(bits, s);
    MaxIndexLarge();
    MaxLenLarge();
    assert WellFormed(es[0]) && WellFormed(es[1]);
    assert WellFormed(TestEnumTuple(bits, s));
  }

  lemma U16sConform(xs: seq<nat>)
    ensures Conforms(Seq(true, U16s(xs)), SSeq(SInt(U16)))
  {
    U16sAt(xs);
  }

  lemma U16sNormal(xs: seq<nat>)
    ensures AnyRoundTrip.Normalize(Seq(true, U16s(xs))) == Seq(true, U16s(xs))
    ensures LegacyRoundTrip.Normalize(Seq(true, U16s(xs))) == Seq(true, U16s(xs))
  {
    U16sAt(xs);
    TaggedNormalFixed(U16s(xs));
    LegacyNormalFixed(U16s(xs));
  }

  lemma U16sWellFormed(xs: seq<nat>)
    requires |xs| < MaxLen && forall j :: 0 <= j < |xs| ==> xs[j] < Pow256(2)
    ensures WellFormed(Seq(true, U16s(xs)))
  {
    var es := U16s(xs);
    U16sAt(xs);
    assert AllWellFormed(es) by {
      forall j | 0 <= j < |es|
        ensures WellFormed(es[j])
      {
        assert es[j] == Int(U16, xs[j]);
        U16WellFormed(xs[j]);
      }
    }
  }

  lemma U16WellFormed(x: nat)
    requires x < Pow256(2)
    ensures WellFormed(Int(U16, x))
  {
  }

  lemma U16sCodable(xs: seq<nat>)
    requires |xs| < MaxLen && forall j :: 0 <= j < |xs| ==> xs[j] < Pow256(2)
    ensures AnyRoundTrip.Codable(Seq(true, U16s(xs)))
    ensures LegacyRoundTrip.Codable(Seq(true, U16s(xs)))
  {
    U16sWellFormed(xs);
    U16sSized(xs);
    U16sReadable(xs);
  }

  lemma U16sSized(xs: seq<nat>)
    ensures AnyRoundTrip.Sized(Seq(true, U16s(xs)))
  {
    var es := U16s(xs);
    U16sAt(xs);
    forall j | 0 <= j < |es|
      ensures AnyRoundTrip.Sized(es[j])
    {
      assert es[j] == Int(U16, xs[j]);
    }
  }

  lemma U16sReadable(xs: seq<nat>)
    ensures LegacyRoundTrip.Readable(Seq(true, U16s(xs)))
  {
    var es := U16s(xs);
    U16sAt(xs);
    forall j | 0 <= j < |es|
      ensures LegacyRoundTrip.Readable(es[j])
    {
      assert es[j] == Int(U16, xs[j]);
    }
  }

  lemma EnumStructConforms(bits: nat, xs: seq<nat>)
    ensures Conforms(TestEnumStruct(bits, xs), TestEnumShape)
  {
    TestEnumVariants();
    U16sConform(xs);
    assert AllConform([Float64(bits), Seq(true, U16s(xs))], [SFloat64, SSeq(SInt(U16))]);
  }

  lemma EnumStructNormal(bits: nat, xs: seq<nat>)
    ensures AnyRoundTrip.Normalize(TestEnumStruct(bits, xs)) == TestEnumStruct(bits, xs)
    ensures LegacyRoundTrip.Normalize(TestEnumStruct(bits, xs)) == TestEnumStruct(bits, xs)
  {
    U16sNormal(xs);
    TaggedNormalFixed([Float64(bits), Seq(true, U16s(xs))]);
    LegacyNormalFixed([Float64(bits), Seq(true, U16s(xs))]);
  }

  lemma EnumStructFits(bits: nat, xs: seq<nat>)
    requires bits < Pow256(8) && |xs| < MaxLen && forall j :: 0 <= j < |xs| ==> xs[j] < Pow256(2)
    ensures Conforms(TestEnumStruct(bits, xs), TestEnumShape)
    ensures AnyRoundTrip.Codable(TestEnumStruct(bits, xs))
    ensures AnyRoundTrip.Normalize(TestEnumStruct(bits, xs)) == TestEnumStruct(bits, xs)
    ensures LegacyRoundTrip.Codable(TestEnumStruct(bits, xs))
    ensures LegacyRoundTrip.Normalize(TestEnumStruct(bits, xs)) == TestEnumStruct(bits, xs)
  {
    EnumStructConforms(bits, xs);
    EnumStructNormal(bits, xs);
    EnumStructWellFormed(bits, xs);
    EnumStructSized(bits, xs);
    EnumStructReadable(bits, xs);
  }

  lemma EnumStructWellFormed(bits: nat, xs: seq<nat>)
    requires bits < Pow256(8) && |xs| < MaxLen && forall j :: 0 <= j < |xs| ==> xs[j] < Pow256(2)
    ensures WellFormed(TestEnumStruct(bits, xs))
  {
    var fs := [Float64(bits), Seq(true, U16s(xs))];
    U16sWellFormed(xs);
    MaxIndexLarge();
    MaxLenLarge();
    assert WellFormed(fs[0]) && WellFormed(fs[1]);
  }

  lemma EnumStructSized(bits: nat, xs: seq<nat>)
    ensures AnyRoundTrip.Sized(TestEnumStruct(bits, xs))
  {
    var fs := [Float64(bits), Seq(true, U16s(xs))];
    U16sSized(xs);
    assert AnyRoundTrip.Sized(fs[0]) && AnyRoundTrip.Sized(fs[1]);
  }

  lemma EnumStructReadable(bits: nat, xs: seq<nat>)
    ensures LegacyRoundTrip.Readable(TestEnumStruct(bits, xs))
  {
    var fs := [Float64(bits), Seq(true, U16s(xs))];
    U16sReadable(xs);
    assert LegacyRoundTrip.Readable(fs[0]) && LegacyRoundTrip.Readable(fs[1]);
  }

  /** `test_serialize_deserialize_enum_unit`. */
  lemma TaggedEnumUnitRoundTrip()
    ensures AnyDe.FromBytes(TestEnumShape, AnySer.Encode(UnitVariant(0))) == Ok(UnitVariant(0))
  {
    EnumUnitFits();
    AnyRoundTrip.FromBytesEncode(UnitVariant(0), TestEnumShape);
  }

  /** `test_serialize_deserialize_enum_newtype`, for every `u8`. */
  lemma TaggedEnumNewTypeRoundTrip(x: nat)
    requires x < 256
    ensures AnyDe.FromBytes(TestEnumShape, AnySer.Encode(NewtypeVariant(1, Int(U8, x)))) == Ok(NewtypeVariant(1, Int(U8, x)))
  {
    EnumNewTypeFits(x);
    AnyRoundTrip.FromBytesEncode(NewtypeVariant(1, Int(U8, x)), TestEnumShape);
  }

  /** `test_serialize_deserialize_enum_tuple`, for every `f32` and string. */
  lemma TaggedEnumTupleRoundTrip(bits: nat, s: string)
    requires bits < Pow256(4) && |EncodeUtf8(s)| < MaxLen
    ensures AnyDe.FromBytes(TestEnumShape, AnySer.Encode(TestEnumTuple(bits, s))) == Ok(TestEnumTuple(bits, s))
  {
    EnumTupleFits(bits, s);
    AnyRoundTrip.FromBytesEncode(TestEnumTuple(bits, s), TestEnumShape);
  }

  /** `test_serialize_deserialize_enum_struct`, for every `f64` and vector
      of `u16`s. */
  lemma TaggedEnumStructRoundTrip(bits: nat, xs: seq<nat>)
    requires bits < Pow256(8) && |xs| < MaxLen && forall j :: 0 <= j < |xs| ==> xs[j] < Pow256(2)
    ensures AnyDe.FromBytes(TestEnumShape, AnySer.Encode(TestEnumStruct(bits, xs))) == Ok(TestEnumStruct(bits, xs))
  {
    EnumStructFits(bits, xs);
    AnyRoundTrip.FromBytesEncode(TestEnumStruct(bits, xs), TestEnumShape);
  }

  // ---------------------------------------------------------------------
  // Characters of each UTF-8 width (src/any/mod.rs)
  // ---------------------------------------------------------------------

  /** A character is written as the `CharN` tag, whose byte is 13 + N, and
      its N bytes of UTF-8. */
  lemma TaggedCharWidth(c: char)
    ensures AnySer.Encode(Char(c)) == [13 + |Bytes.EncodeChar(c)|] + Bytes.EncodeChar(c)
  {
    var bytes := Bytes.EncodeChar(c);
    var (tag, bs) := Tags.EncodeChar(c);
    assert bs == bytes;
    CharTagByte(tag);
  }

  /** The character tags are bytes 14 to 17, one per UTF-8 width. */
  lemma CharTagByte(t: Tags.Tag)
    requires t.Char1? || t.Char2? || t.Char3? || t.Char4?
    ensures AnySer.TagByte(t) == 13 + Tags.CharLen(t)
  {
  }

  lemma Utf8Y()
    ensures Bytes.EncodeChar('Y') == [0x59]
  {
  }

  lemma Utf8IHat()
    ensures Bytes.EncodeChar('\U{EE}') == [0xC3, 0xAE]
  {
  }

  lemma Utf8Samaritan()
    ensures Bytes.EncodeChar('\U{80E}') == [0xE0, 0xA0, 0x8E]
  {
  }

  lemma Utf8Cuneiform()
    ensures Bytes.EncodeChar('\U{12000}') == [0xF0, 0x92, 0x80, 0x80]
  {
  }

  /** `test_serialize_deserialize_char1`: one byte behind `Char1`. */
  lemma TaggedChar1()
    ensures AnySer.Encode(Char('Y')) == [14, 0x59]
  {
    Utf8Y();
    TaggedCharWidth('Y');
  }

  /** `test_serialize_deserialize_char2`: two bytes behind `Char2`. */
  lemma TaggedChar2()
    ensures AnySer.Encode(Char('\U{EE}')) == [15, 0xC3, 0xAE]
  {
    Utf8IHat();
    TaggedCharWidth('\U{EE}');
  }

  /** `test_serialize_deserialize_char3`: three bytes behind `Char3`. */
  lemma TaggedChar3()
    ensures AnySer.Encode(Char('\U{80E}')) == [16, 0xE0, 0xA0, 0x8E]
  {
    Utf8Samaritan();
    TaggedCharWidth('\U{80E}');
  }

  /** `test_serialize_deserialize_char4`: four bytes behind `Char4`. */
  lemma TaggedChar4()
    ensures AnySer.Encode(Char('\U{12000}')) == [17, 0xF0, 0x92, 0x80, 0x80]
  {
    Utf8Cuneiform();
    TaggedCharWidth('\U{12000}');
  }

  /** The four character tests, for every character. */
  lemma TaggedCharRoundTrip(c: char)
    ensures AnyDe.FromBytes(SChar, AnySer.Encode(Char(c))) == Ok(Char(c))
  {
    AnyRoundTrip.FromBytesEncode(Char(c), SChar);
  }

  // ---------------------------------------------------------------------
  // `#[serde(untagged)] enum UntaggedEnum` (src/any/mod.rs): the derived
  // code buffers the input with `deserialize_any` into serde's private
  // `Content` type and matches the variants against it; the model stands
  // this crate's `Value` in for `Content`
  // ---------------------------------------------------------------------

  /** `UntaggedEnum::NewType(s)` reaches the visitor as the string `s`. */
  lemma UntaggedNewType(s: string)
    requires |EncodeUtf8(s)| < MaxLen
    ensures AnyDe.DecodeAny(AnySer.Encode(Str(s))) == Ok((Values.String(s), []))
  {
    AnyValueRoundTrip.DecodeAnyEncode(Str(s), []);
    assert AnySer.Encode(Str(s)) + [] == AnySer.Encode(Str(s));
  }

  /** `UntaggedEnum::Struct { num }` reaches the visitor as a map from the
      field position 0 to the number. */
  lemma UntaggedStruct(num: nat)
    requires num < Pow256(8)
    ensures AnyDe.DecodeAny(AnySer.Encode(Struct([Int(U64, num)])))
         == Ok((Values.Map([Values.ValueEntry(AnyDe.FieldKey(0), Values.Number(Values.Int(U64, num)))]), []))
  {
    var fs := [Int(U64, num)];
    UntaggedStructReadable(num);
    AnyValueRoundTrip.DecodeAnyEncode(Struct(fs), []);
    assert AnySer.Encode(Struct(fs)) + [] == AnySer.Encode(Struct(fs));
    assert fs[1..] == [];
    assert AnyValueRoundTrip.ToFields(fs, 0)
        == [Values.ValueEntry(AnyDe.FieldKey(0), Values.Number(Values.Int(U64, num)))];
  }

  lemma UntaggedStructReadable(num: nat)
    requires num < Pow256(8)
    ensures AnyValueRoundTrip.Readable(Struct([Int(U64, num)]))
  {
    var fs := [Int(U64, num)];
    MaxLenLarge();
    assert WellFormed(fs[0]) && AnyRoundTrip.Sized(fs[0]);
    assert AllWellFormed(fs);
    assert WellFormed(Struct(fs));
    assert AnyRoundTrip.Sized(Struct(fs));
    assert AnyValueRoundTrip.VariantFree(fs[0]);
  }


  // ---------------------------------------------------------------------
  // The untagged format (src/lib.rs)
  // ---------------------------------------------------------------------

  /** `VEC.iter().map(u16::to_be_bytes).flatten()`. */
  function U16Bytes(xs: seq<nat>): (r: seq<u8>)
    ensures |r| == 2 * |xs|
  {
    if xs == [] then [] else BeBytes(xs[0], 2) + U16Bytes(xs[1..])
  }

  /** A vector of `u16`s is its elements' two big-endian bytes each, with no
      tags. */
  lemma {:induction false} LegacyU16s(xs: seq<nat>)
    ensures LegacySer.EncodeList(U16s(xs)) == U16Bytes(xs)
    decreases |xs|
  {
    if xs != [] {
      var es := U16s(xs);
      LegacyRoundTrip.EncodeListFirst(es);
      assert es[1..] == U16s(xs[1..]);
      LegacyU16s(xs[1..]);
      LegacyIntStep(U16, xs[0]);
    }
  }

  lemma LegacyPairStruct(x: Data, y: Data)
    ensures LegacySer.Encode(Struct([x, y])) == LegacySer.Encode(x) + LegacySer.Encode(y)
  {
    var l := [x, y];
    LegacyStructStep(l);
    LegacyTwo(l);
    assert l[0] == x && l[1] == y;
  }

  lemma LegacyPairVariant(i: nat, x: Data, y: Data)
    ensures LegacySer.Encode(TupleVariant(i, [x, y])) == BeBytes(i, 4) + LegacySer.Encode(x) + LegacySer.Encode(y)
    ensures LegacySer.Encode(StructVariant(i, [x, y])) == BeBytes(i, 4) + LegacySer.Encode(x) + LegacySer.Encode(y)
  {
    var l := [x, y];
    LegacyVariantElemsStep(i, l);
    LegacyTwo(l);
    assert l[0] == x && l[1] == y;
    AppendAssoc(BeBytes(i, 4), LegacySer.Encode(x), LegacySer.Encode(y));
  }

  /** `TestStruct`: `a` as eight big-endian bytes, then `b`'s length as
      eight bytes and its UTF-8, with no tags and no field count. */
  lemma LegacyTestStruct(a: nat, b: string)
    ensures LegacySer.Encode(TestStruct(a, b)) == BeBytes(a, 8) + BeBytes(|EncodeUtf8(b)|, 8) + EncodeUtf8(b)
  {
    LegacyPairStruct(Int(U64, a), Str(b));
    LegacyIntStep(U64, a);
    LegacyStrStep(b);
  }

  /** `test_serialize_struct`. */
  lemma LegacyStruct()
    ensures LegacySer.Encode(TestStruct(56, "Hello"))
         == [0, 0, 0, 0, 0, 0, 0, 56] + [0, 0, 0, 0, 0, 0, 0, 5] + [72, 101, 108, 108, 111]
  {
    HelloUtf8();
    Be8(56);
    Be8(5);
    LegacyTestStruct(56, "Hello");
  }

  /** `test_serialize_deserialize_struct`, for every `TestStruct`. */
  lemma LegacyStructRoundTrip(a: nat, b: string)
    requires a < Pow256(8) && |EncodeUtf8(b)| < MaxLen
    ensures LegacyDe.FromBytes(TestStructShape, LegacySer.Encode(TestStruct(a, b))) == Ok(TestStruct(a, b))
  {
    TestStructFits(a, b);
    LegacyRoundTrip.FromBytesEncode(TestStruct(a, b), TestStructShape);
  }

  /** `test_serialize_enum_unit`: the variant index alone. */
  lemma LegacyEnumUnit()
    ensures LegacySer.Encode(UnitVariant(0)) == [0, 0, 0, 0]
  {
    LegacyUnitVariantStep(0);
    Be4(0);
  }

  /** `TestEnum::NewType(x)`: the index, then the `u8` itself. */
  lemma LegacyTestEnumNewType(x: nat)
    requires x < 256
    ensures LegacySer.Encode(NewtypeVariant(1, Int(U8, x))) == [0, 0, 0, 1, x]
  {
    LegacyNewtypeVariantStep(1, Int(U8, x));
    LegacyIntStep(U8, x);
    Be4(1);
    Be1(x);
  }

  /** `test_serialize_enum_newtype`. */
  lemma LegacyEnumNewType()
    ensures LegacySer.Encode(NewtypeVariant(1, Int(U8, 56))) == [0, 0, 0, 1, 56]
  {
    LegacyTestEnumNewType(56);
  }

  /** `TestEnum::Tuple(f, s)`: the index, the float's four bytes, the
      string's length and its bytes. */
  lemma LegacyTestEnumTuple(bits: nat, s: string)
    ensures LegacySer.Encode(TestEnumTuple(bits, s))
         == BeBytes(2, 4) + BeBytes(bits, 4) + BeBytes(|EncodeUtf8(s)|, 8) + EncodeUtf8(s)
  {
    LegacyPairVariant(2, Float32(bits), Str(s));
    LegacyFloat32Step(bits);
    LegacyStrStep(s);
  }

  /** `test_serialize_enum_tuple`. */
  lemma LegacyEnumTuple()
    ensures LegacySer.Encode(TestEnumTuple(Bits12p3, "String"))
         == [0, 0, 0, 2] + [65, 68, 204, 205] + [0, 0, 0, 0, 0, 0, 0, 6] + [83, 116, 114, 105, 110, 103]
  {
    StringUtf8();
    F32Bytes();
    Be4(2);
    Be8(6);
    LegacyTestEnumTuple(Bits12p3, "String");
  }

  /** `TestEnum::Struct { a, b }`: the index, the float's eight bytes, the
      vector's length and each `u16`'s two bytes. */
  lemma LegacyTestEnumStruct(bits: nat, xs: seq<nat>)
    ensures LegacySer.Encode(TestEnumStruct(bits, xs))
         == BeBytes(3, 4) + BeBytes(bits, 8) + BeBytes(|xs|, 8) + U16Bytes(xs)
  {
    LegacyPairVariant(3, Float64(bits), Seq(true, U16s(xs)));
    LegacyFloat64Step(bits);
    LegacySeqStep(Seq(true, U16s(xs)));
    LegacyU16s(xs);
  }

  lemma U16BytesFirst(x: nat, xs: seq<nat>)
    requires x < 256
    ensures U16Bytes([x] + xs) == [0, x] + U16Bytes(xs)
  {
    assert ([x] + xs)[1..] == xs;
    Be2(x);
  }

  lemma TestU16Bytes(xs: seq<nat>)
    requires xs == [3, 7, 1, 8]
    ensures U16Bytes(xs) == [0, 3, 0, 7, 0, 1, 0, 8]
  {
    U16BytesFirst(8, []);
    U16BytesFirst(1, [8]);
    U16BytesFirst(7, [1, 8]);
    U16BytesFirst(3, [7, 1, 8]);
  }

  /** `test_serialize_enum_struct`. */
  lemma LegacyEnumStruct(xs: seq<nat>)
    requires xs == [3, 7, 1, 8]
    ensures LegacySer.Encode(TestEnumStruct(Bits42p123, xs))
         == [0, 0, 0, 3] + [64, 69, 15, 190, 118, 200, 180, 57] + [0, 0, 0, 0, 0, 0, 0, 4] + [0, 3, 0, 7, 0, 1, 0, 8]
  {
    F64Bytes();
    Be4(3);
    Be8(4);
    TestU16Bytes(xs);
    LegacyTestEnumStruct(Bits42p123, xs);
  }

  /** `test_serialize_deserialize_enum_unit`. */
  lemma LegacyEnumUnitRoundTrip()
    ensures LegacyDe.FromBytes(TestEnumShape, LegacySer.Encode(UnitVariant(0))) == Ok(UnitVariant(0))
  {
    EnumUnitFits();
    LegacyRoundTrip.FromBytesEncode(UnitVariant(0), TestEnumShape);
  }

  /** `test_serialize_deserialize_enum_newtype`, for every `u8`. */
  lemma LegacyEnumNewTypeRoundTrip(x: nat)
    requires x < 256
    ensures LegacyDe.FromBytes(TestEnumShape, LegacySer.Encode(NewtypeVariant(1, Int(U8, x)))) == Ok(NewtypeVariant(1, Int(U8, x)))
  {
    EnumNewTypeFits(x);
    LegacyRoundTrip.FromBytesEncode(NewtypeVariant(1, Int(U8, x)), TestEnumShape);
  }

  /** `test_serialize_deserialize_enum_tuple`, for every `f32` and string. */
  lemma LegacyEnumTupleRoundTrip(bits: nat, s: string)
    requires bits < Pow256(4) && |EncodeUtf8(s)| < MaxLen
    ensures LegacyDe.FromBytes(TestEnumShape, LegacySer.Encode(TestEnumTuple(bits, s))) == Ok(TestEnumTuple(bits, s))
  {
    EnumTupleFits(bits, s);
    LegacyRoundTrip.FromBytesEncode(TestEnumTuple(bits, s), TestEnumShape);
  }

  /** `test_serialize_deserialize_enum_struct`, for every `f64` and vector
      of `u16`s. */
  lemma LegacyEnumStructRoundTrip(bits: nat, xs: seq<nat>)
    requires bits < Pow256(8) && |xs| < MaxLen && forall j :: 0 <= j < |xs| ==> xs[j] < Pow256(2)
    ensures LegacyDe.FromBytes(TestEnumShape, LegacySer.Encode(TestEnumStruct(bits, xs))) == Ok(TestEnumStruct(bits, xs))
  {
    EnumStructFits(bits, xs);
    LegacyRoundTrip.FromBytesEncode(TestEnumStruct(bits, xs), TestEnumShape);
  }
}
