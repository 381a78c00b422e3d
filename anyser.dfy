/** The self-describing encoder (src/any/ser.rs): every value is preceded by
    its one-byte tag. `Encode` is the byte string a value produces; the
    `Serializer` class writes it to a `Vec` sink step by step. */
module AnySer {
  import opened Bytes
  import opened DataModel
  import Tags
  import opened Write

  type Tag = Tags.Tag

  /** `UNSIZED_STRING_END_MARKER`. Its bytes are not part of the shown
      source; two bytes that never occur in well-formed UTF-8 are assumed. */
  const EndMarker: seq<u8> := [0xFF, 0xFF]

  function TagByte(t: Tag): u8
    requires t.HasByte()
  {
    Tags.ToByte(t)
  }

  /** The tag `implement_number!` writes for an integer type. */
  function IntTag(t: IntType): (r: Tag)
    ensures r.HasByte()
  {
    match t
    case I8 => Tag.I8
    case I16 => Tag.I16
    case I32 => Tag.I32
    case I64 => Tag.I64
    case I128 => Tag.I128
    case U8 => Tag.U8
    case U16 => Tag.U16
    case U32 => Tag.U32
    case U64 => Tag.U64
    case U128 => Tag.U128
  }

  /** `write_tag_then_seq`: tag, 8-byte big-endian length, bytes. */
  function TagThenSeq(t: Tag, bs: seq<u8>): seq<u8>
    requires t.HasByte()
  {
    [TagByte(t)] + BeBytes(|bs|, 8) + bs
  }

  /** The bytes the tagged serializer writes for `v`. */
  function Encode(v: Data): seq<u8>
    decreases v, 1
  {
    match v
    case Bool(b) => [TagByte(if b then Tag.BoolTrue else Tag.BoolFalse)]
    case Int(t, x) => EncodeInt(t, x)
    case Float32(bits) => [TagByte(Tag.F32)] + BeBytes(bits, 4)
    case Float64(bits) => [TagByte(Tag.F64)] + BeBytes(bits, 8)
    case Char(c) => EncodeCharValue(c)
    case Str(s) => EncodeStr(s)
    case ByteArray(b) => EncodeBytes(b)
    case NoneValue => [TagByte(Tag.None)]
    case SomeValue(x) => [TagByte(Tag.Some)] + Encode(x)
    case Unit => [TagByte(Tag.Unit)]
    case UnitStruct => [TagByte(Tag.UnitStruct)]
    case UnitVariant(i) => [TagByte(Tag.UnitVariant)] + BeBytes(i, 4)
    case NewtypeStruct(x) => [TagByte(Tag.NewTypeStruct)] + Encode(x)
    case NewtypeVariant(i, x) => [TagByte(Tag.NewTypeVariant)] + BeBytes(i, 4) + Encode(x)
    case Tuple(es) => EncodeCounted(Tag.Tuple, es)
    case TupleStruct(es) => EncodeCounted(Tag.TupleStruct, es)
    case TupleVariant(i, es) => EncodeVariantElems(Tag.TupleVariant, i, es)
    case Seq(known, es) => EncodeSeq(known, es)
    case Map(known, ents) => EncodeMap(known, ents)
    case Struct(fs) => EncodeCounted(Tag.Struct, fs)
    case StructVariant(i, fs) => EncodeVariantElems(Tag.StructVariant, i, fs)
    case DisplayStr(ps) => EncodeDisplay(ps)
  }

  /** `implement_number!`: the type's tag, then `to_be_bytes`. */
  function EncodeInt(t: IntType, x: int): seq<u8>
  {
    [TagByte(IntTag(t))] + BeBytes(x, t.Size())
  }

  /** `serialize_char`: the `CharN` tag, then the N bytes of UTF-8. */
  function EncodeCharValue(c: char): seq<u8>
  {
    var (tag, bytes) := Tags.EncodeChar(c);
    [TagByte(tag)] + bytes
  }

  /** `collect_str`: the `NullTerminatedString` tag, the text, then the end
      marker instead of a length. */
  function EncodeDisplay(ps: seq<string>): seq<u8>
  {
    [TagByte(Tag.NullTerminatedString)] + EncodeUtf8(Joined(ps)) + EndMarker
  }

  function EncodeStr(s: string): seq<u8>
  {
    TagThenSeq(Tag.String, EncodeUtf8(s))
  }

  function EncodeBytes(b: seq<u8>): seq<u8>
  {
    TagThenSeq(Tag.ByteArray, b)
  }

  /** A tuple, tuple struct or struct: the tag, the length truncated to one
      byte (`len as u8`), then the elements. */
  function EncodeCounted(t: Tag, es: seq<Data>): seq<u8>
    requires t.HasByte()
    decreases es, 3
  {
    [TagByte(t), |es| % 256] + EncodeList(es)
  }

  /** A tuple or struct variant: the tag, the 4-byte variant index and the
      elements, with no count. */
  function EncodeVariantElems(t: Tag, i: nat, es: seq<Data>): seq<u8>
    requires t.HasByte()
    decreases es, 3
  {
    [TagByte(t)] + BeBytes(i, 4) + EncodeList(es)
  }

  /** A sequence: with a known length the `Seq` tag and the 8-byte count;
      with an unknown one only the count, written at the end of the side
      buffer's collection and placed in front of it. */
  function EncodeSeq(known: bool, es: seq<Data>): seq<u8>
    decreases es, 3
  {
    if known then [TagByte(Tag.Seq)] + BeBytes(|es|, 8) + EncodeList(es)
    else BeBytes(|es|, 8) + EncodeList(es)
  }

  /** A map: as `EncodeSeq`, with the `Map` tag; with an unknown length
      the count is of keys and values together, twice the entries. */
  function EncodeMap(known: bool, ents: seq<Entry>): seq<u8>
    decreases ents, 3
  {
    if known then [TagByte(Tag.Map)] + BeBytes(|ents|, 8) + EncodeEntries(ents)
    else BeBytes(2 * |ents|, 8) + EncodeEntries(ents)
  }

  /** The elements of a sequence, tuple or struct, one after the other. */
  function EncodeList(es: seq<Data>): seq<u8>
    decreases es, 2
  {
    if es == [] then [] else EncodeList(es[..|es| - 1]) + Encode(es[|es| - 1])
  }

  /** The entries of a map: each key, then its value. */
  function EncodeEntries(ents: seq<Entry>): seq<u8>
    decreases ents, 2
  {
    if ents == [] then []
    else
      EncodeEntries(ents[..|ents| - 1]) + EncodeEntry(ents[|ents| - 1])
  }

  function EncodeEntry(e: Entry): seq<u8>
    decreases e, 2
  {
    Encode(e.key) + Encode(e.value)
  }

  /** `Serializer<&mut Vec<u8>>`: each method appends to `writer` and returns
      the number of bytes it wrote. */
  class Serializer {
    const writer: VecSink

    constructor (writer: VecSink)
      ensures this.writer == writer
    {
      this.writer := writer;
    }

    method WriteByte(b: u8) returns (n: nat)
      modifies writer
      ensures writer.bytes == old(writer.bytes) + [b] && n == 1
    {
      n := writer.WriteByte(b);
    }

    method WriteBytes(bs: seq<u8>) returns (n: nat)
      modifies writer
      ensures writer.bytes == old(writer.bytes) + bs && n == |bs|
    {
      n := writer.WriteBytes(bs);
    }

    /** The fold of `write_bytes` over the parts, summing the counts. */
    method WriteByteMatrix(parts: seq<seq<u8>>) returns (n: nat)
      modifies writer
      ensures writer.bytes == old(writer.bytes) + Flatten(parts)
      ensures n == |Flatten(parts)|
    {
      n := 0;
      var i := 0;
      while i < |parts|
        invariant 0 <= i <= |parts|
        invariant writer.bytes == old(writer.bytes) + Flatten(parts[..i])
        invariant n == |Flatten(parts[..i])|
      {
        assert parts[..i + 1][..i] == parts[..i];
        var w := WriteBytes(parts[i]);
        n := n + w;
        i := i + 1;
      }
      assert parts[..|parts|] == parts;
    }

    method WriteTag(t: Tag) returns (n: nat)
      requires t.HasByte()
      modifies writer
      ensures writer.bytes == old(writer.bytes) + [TagByte(t)] && n == 1
    {
      n := WriteByte(TagByte(t));
    }

    method WriteTagThen(t: Tag, bs: seq<u8>) returns (n: nat)
      requires t.HasByte()
      modifies writer
      ensures writer.bytes == old(writer.bytes) + ([TagByte(t)] + bs) && n == 1 + |bs|
    {
      n := WriteByteMatrix([[TagByte(t)], bs]);
      Flatten2([TagByte(t)], bs);
    }

    method WriteTagThenSeq(t: Tag, bs: seq<u8>) returns (n: nat)
      requires t.HasByte()
      modifies writer
      ensures writer.bytes == old(writer.bytes) + TagThenSeq(t, bs) && n == 9 + |bs|
    {
      var parts := [[TagByte(t)], BeBytes(|bs|, 8), bs];
      n := WriteByteMatrix(parts);
      Flatten3([TagByte(t)], BeBytes(|bs|, 8), bs);
    }

    method SerializeBool(b: bool) returns (n: nat)
      modifies writer
      ensures writer.bytes == old(writer.bytes) + Encode(Data.Bool(b)) && n == |Encode(Data.Bool(b))|
    {
      var tag := if b then Tag.BoolTrue else Tag.BoolFalse;
      n := WriteTag(tag);
    }

    /** `implement_number!` for the ten integer types. */
    method SerializeInt(t: IntType, x: int) returns (n: nat)
      modifies writer
      ensures writer.bytes == old(writer.bytes) + Encode(Int(t, x)) && n == |Encode(Int(t, x))|
    {
      n := WriteTagThen(IntTag(t), BeBytes(x, t.Size()));
    }

    method SerializeFloat32(bits: nat) returns (n: nat)
      modifies writer
      ensures writer.bytes == old(writer.bytes) + Encode(Float32(bits)) && n == |Encode(Float32(bits))|
    {
      n := WriteTagThen(Tag.F32, BeBytes(bits, 4));
    }

    method SerializeFloat64(bits: nat) returns (n: nat)
      modifies writer
      ensures writer.bytes == old(writer.bytes) + Encode(Float64(bits)) && n == |Encode(Float64(bits))|
    {
      n := WriteTagThen(Tag.F64, BeBytes(bits, 8));
    }

    method SerializeChar(c: char) returns (n: nat)
      modifies writer
      ensures writer.bytes == old(writer.bytes) + Encode(Char(c)) && n == |Encode(Char(c))|
    {
      var (tag, bytes) := Tags.EncodeChar(c);
      n := WriteTagThen(tag, bytes);
    }

    method SerializeStr(s: string) returns (n: nat)
      modifies writer
      ensures writer.bytes == old(writer.bytes) + Encode(Str(s)) && n == 9 + |EncodeUtf8(s)|
    {
      n := WriteTagThenSeq(Tag.String, EncodeUtf8(s));
    }

    method SerializeBytes(b: seq<u8>) returns (n: nat)
      modifies writer
      ensures writer.bytes == old(writer.bytes) + Encode(ByteArray(b)) && n == 9 + |b|
    {
      n := WriteTagThenSeq(Tag.ByteArray, b);
    }

    method SerializeUnit() returns (n: nat)
      modifies writer
      ensures writer.bytes == old(writer.bytes) + Encode(Unit) && n == 1
    {
      n := WriteTag(Tag.Unit);
    }

    method SerializeUnitStruct() returns (n: nat)
      modifies writer
      ensures writer.bytes == old(writer.bytes) + Encode(UnitStruct) && n == 1
    {
      n := WriteTag(Tag.UnitStruct);
    }

    method SerializeUnitVariant(index: nat) returns (n: nat)
      modifies writer
      ensures writer.bytes == old(writer.bytes) + Encode(UnitVariant(index)) && n == 5
    {
      n := WriteTagThen(Tag.UnitVariant, BeBytes(index, 4));
    }

    method SerializeNone() returns (n: nat)
      modifies writer
      ensures writer.bytes == old(writer.bytes) + Encode(NoneValue) && n == 1
    {
      n := WriteTag(Tag.None);
    }

    method SerializeSome(x: Data) returns (n: nat)
      modifies writer
      ensures writer.bytes == old(writer.bytes) + Encode(SomeValue(x)) && n == |Encode(SomeValue(x))|
      decreases x, 2
    {
      n := WriteTag(Tag.Some);
      var w := Serialize(x);
      n := n + w;
      AppendAssoc(old(writer.bytes), [TagByte(Tag.Some)], Encode(x));
    }

    method SerializeNewtypeStruct(x: Data) returns (n: nat)
      modifies writer
      ensures writer.bytes == old(writer.bytes) + Encode(NewtypeStruct(x)) && n == |Encode(NewtypeStruct(x))|
      decreases x, 2
    {
      n := WriteTag(Tag.NewTypeStruct);
      var w := Serialize(x);
      n := n + w;
      AppendAssoc(old(writer.bytes), [TagByte(Tag.NewTypeStruct)], Encode(x));
    }

    method SerializeNewtypeVariant(index: nat, x: Data) returns (n: nat)
      modifies writer
      ensures writer.bytes == old(writer.bytes) + Encode(NewtypeVariant(index, x))
      ensures n == |Encode(NewtypeVariant(index, x))|
      decreases x, 2
    {
      n := WriteTagThen(Tag.NewTypeVariant, BeBytes(index, 4));
      var w := Serialize(x);
      n := n + w;
      AppendAssoc(old(writer.bytes), [TagByte(Tag.NewTypeVariant)] + BeBytes(index, 4), Encode(x));
    }

    /** `serialize_seq`: with a length, the header goes out now; without
        one, nothing is written before `Finish`. */
    method SerializeSeq(len: Wrappers.Option<nat>) returns (ss: SeqSerializer)
      modifies writer
      ensures fresh(ss) && ss.serializer == this && ss.known == len.Some?
      ensures ss.count == 0 && ss.side == []
      ensures len.Some? ==> writer.bytes == old(writer.bytes) + ([TagByte(Tag.Seq)] + BeBytes(len.value, 8))
      ensures len.Some? ==> ss.writtenBytes == 9
      ensures len.None? ==> writer.bytes == old(writer.bytes)
    {
      if len.Some? {
        var wb := WriteTagThen(Tag.Seq, BeBytes(len.value, 8));
        ss := new SeqSerializer.NewKnown(this, wb);
      } else {
        ss := new SeqSerializer.NewUnknown(this);
      }
    }

    /** `serialize_map`: as `SerializeSeq`, with the `Map` tag. */
    method SerializeMap(len: Wrappers.Option<nat>) returns (ss: SeqSerializer)
      modifies writer
      ensures fresh(ss) && ss.serializer == this && ss.known == len.Some?
      ensures ss.count == 0 && ss.side == []
      ensures len.Some? ==> writer.bytes == old(writer.bytes) + ([TagByte(Tag.Map)] + BeBytes(len.value, 8))
      ensures len.Some? ==> ss.writtenBytes == 9
      ensures len.None? ==> writer.bytes == old(writer.bytes)
    {
      if len.Some? {
        var wb := WriteTagThen(Tag.Map, BeBytes(len.value, 8));
        ss := new SeqSerializer.NewKnown(this, wb);
      } else {
        ss := new SeqSerializer.NewUnknown(this);
      }
    }

    /** `serialize_tuple`, `serialize_tuple_struct` and `serialize_struct`:
        the tag, then the length truncated to one byte (`len as u8`). */
    method SerializeCounted(t: Tag, len: nat) returns (ss: SeqSerializer)
      requires t == Tag.Tuple || t == Tag.TupleStruct || t == Tag.Struct
      modifies writer
      ensures fresh(ss) && ss.serializer == this && ss.known
      ensures writer.bytes == old(writer.bytes) + [TagByte(t), len % 256]
      ensures ss.writtenBytes == 2 && ss.count == 0 && ss.side == []
    {
      var wb := WriteTagThen(t, [len % 256]);
      ss := new SeqSerializer.NewKnown(this, wb);
    }

    /** `serialize_tuple_variant` and `serialize_struct_variant`: the tag and
        the 4-byte variant index, and no count. */
    method SerializeVariantHeader(t: Tag, index: nat) returns (ss: SeqSerializer)
      requires t == Tag.TupleVariant || t == Tag.StructVariant
      modifies writer
      ensures fresh(ss) && ss.serializer == this && ss.known
      ensures writer.bytes == old(writer.bytes) + ([TagByte(t)] + BeBytes(index, 4))
      ensures ss.writtenBytes == 5 && ss.count == 0 && ss.side == []
    {
      var wb := WriteTagThen(t, BeBytes(index, 4));
      ss := new SeqSerializer.NewKnown(this, wb);
    }

    /** `collect_str`: the `NullTerminatedString` tag, the pieces `Display`
        hands to the `StrCollector`, then the end marker. */
    method CollectStr(pieces: seq<string>) returns (n: nat)
      modifies writer
      ensures writer.bytes == old(writer.bytes) + Encode(DisplayStr(pieces))
      ensures n == 1 + |EncodeUtf8(Joined(pieces))| + |EndMarker|
    {
      n := WriteTag(Tag.NullTerminatedString);
      var collector := new StrCollector(writer);
      var i := 0;
      while i < |pieces|
        invariant 0 <= i <= |pieces|
        invariant collector.writer == writer
        invariant writer.bytes == old(writer.bytes) + [TagByte(Tag.NullTerminatedString)]
                                  + EncodeUtf8(Joined(pieces[..i]))
        invariant collector.writtenBytes == |EncodeUtf8(Joined(pieces[..i]))|
      {
        assert pieces[..i + 1][..i] == pieces[..i];
        EncodeUtf8Append(Joined(pieces[..i]), pieces[i]);
        collector.WriteStr(pieces[i]);
        AppendAssoc(old(writer.bytes) + [TagByte(Tag.NullTerminatedString)],
                    EncodeUtf8(Joined(pieces[..i])), EncodeUtf8(pieces[i]));
        i := i + 1;
      }
      assert pieces[..|pieces|] == pieces;
      n := n + collector.writtenBytes;
      var w := writer.WriteBytes(EndMarker);
      n := n + w;
    }

    /** `value.serialize(&mut serializer)`: the calls a `Serialize`
        implementation of `v` makes. The count returned is the length of
        what was written. */
    method Serialize(v: Data) returns (n: nat)
      modifies writer
      ensures writer.bytes == old(writer.bytes) + Encode(v) && n == |Encode(v)|
      decreases v, 1
    {
      match v
      case SomeValue(x) => n := SerializeSome(x);
      case NewtypeStruct(x) => n := SerializeNewtypeStruct(x);
      case NewtypeVariant(i, x) => n := SerializeNewtypeVariant(i, x);
      case Tuple(es) => n := SerializeCountedElements(Tag.Tuple, es);
      case TupleStruct(es) => n := SerializeCountedElements(Tag.TupleStruct, es);
      case TupleVariant(i, es) => n := SerializeVariantElements(Tag.TupleVariant, i, es);
      case Seq(known, es) => n := SerializeSeqElements(known, es);
      case Map(known, ents) => n := SerializeMapEntries(known, ents);
      case Struct(fs) => n := SerializeCountedElements(Tag.Struct, fs);
      case StructVariant(i, fs) => n := SerializeVariantElements(Tag.StructVariant, i, fs);
      case _ => n := SerializeLeaf(v);
    }

    /** The values with no nested value: one `serialize_*` call each. */
    method SerializeLeaf(v: Data) returns (n: nat)
      requires !(v.SomeValue? || v.NewtypeStruct? || v.NewtypeVariant? || v.Tuple? || v.TupleStruct?
                 || v.TupleVariant? || v.Seq? || v.Map? || v.Struct? || v.StructVariant?)
      modifies writer
      ensures writer.bytes == old(writer.bytes) + Encode(v) && n == |Encode(v)|
    {
      match v
      case Bool(b) => n := SerializeBool(b);
      case Int(t, x) => n := SerializeInt(t, x);
      case Float32(bits) => n := SerializeFloat32(bits);
      case Float64(bits) => n := SerializeFloat64(bits);
      case Char(c) => n := SerializeChar(c);
      case Str(s) => n := SerializeStr(s);
      case ByteArray(b) => n := SerializeBytes(b);
      case NoneValue => n := SerializeNone();
      case Unit => n := SerializeUnit();
      case UnitStruct => n := SerializeUnitStruct();
      case UnitVariant(i) => n := SerializeUnitVariant(i);
      case DisplayStr(ps) => n := CollectStr(ps);
    }

    /** A tuple, tuple struct or struct: `serialize_tuple` (or its kin),
        each element, then `end`. */
    method SerializeCountedElements(t: Tag, es: seq<Data>) returns (n: nat)
      requires t == Tag.Tuple || t == Tag.TupleStruct || t == Tag.Struct
      modifies writer
      ensures writer.bytes == old(writer.bytes) + EncodeCounted(t, es) && n == |EncodeCounted(t, es)|
      decreases es, 4
    {
      var ss := SerializeCounted(t, |es|);
      n := SerializeElements(ss, es);
      AppendAssoc(old(writer.bytes), [TagByte(t), |es| % 256], EncodeList(es));
    }

    /** A tuple or struct variant: the header, each element, then `end`. */
    method SerializeVariantElements(t: Tag, i: nat, es: seq<Data>) returns (n: nat)
      requires t == Tag.TupleVariant || t == Tag.StructVariant
      modifies writer
      ensures writer.bytes == old(writer.bytes) + EncodeVariantElems(t, i, es)
      ensures n == |EncodeVariantElems(t, i, es)|
      decreases es, 4
    {
      var ss := SerializeVariantHeader(t, i);
      n := SerializeElements(ss, es);
      AppendAssoc(old(writer.bytes), [TagByte(t)] + BeBytes(i, 4), EncodeList(es));
    }

    /** A sequence: `serialize_seq` with or without its length, each
        element, then `end`. */
    method SerializeSeqElements(known: bool, es: seq<Data>) returns (n: nat)
      modifies writer
      ensures writer.bytes == old(writer.bytes) + EncodeSeq(known, es) && n == |EncodeSeq(known, es)|
      decreases es, 4
    {
      if known {
        var ss := SerializeSeq(Wrappers.Some(|es|));
        n := SerializeElements(ss, es);
        AppendAssoc(old(writer.bytes), [TagByte(Tag.Seq)] + BeBytes(|es|, 8), EncodeList(es));
      } else {
        var ss := SerializeSeq(Wrappers.None);
        n := SerializeElements(ss, es);
        AppendAssoc(old(writer.bytes), BeBytes(|es|, 8), EncodeList(es));
      }
    }

    /** A map: `serialize_map` with or without its length, each entry, then
        `end`. */
    method SerializeMapEntries(known: bool, ents: seq<Entry>) returns (n: nat)
      modifies writer
      ensures writer.bytes == old(writer.bytes) + EncodeMap(known, ents) && n == |EncodeMap(known, ents)|
      decreases ents, 4
    {
      if known {
        var ss := SerializeMap(Wrappers.Some(|ents|));
        n := SerializeEntries(ss, ents);
        AppendAssoc(old(writer.bytes), [TagByte(Tag.Map)] + BeBytes(|ents|, 8), EncodeEntries(ents));
      } else {
        var ss := SerializeMap(Wrappers.None);
        n := SerializeEntries(ss, ents);
        AppendAssoc(old(writer.bytes), BeBytes(2 * |ents|, 8), EncodeEntries(ents));
      }
    }

    /** `serialize_element` / `serialize_field` for each element, then `end`. */
    method SerializeElements(ss: SeqSerializer, es: seq<Data>) returns (n: nat)
      requires ss.serializer == this
      requires ss.count == 0 && ss.side == []
      modifies ss, writer
      ensures ss.known ==> writer.bytes == old(writer.bytes) + EncodeList(es)
      ensures ss.known ==> n == old(ss.writtenBytes) + |EncodeList(es)|
      ensures !ss.known ==> writer.bytes == old(writer.bytes) + BeBytes(|es|, 8) + EncodeList(es)
      ensures !ss.known ==> n == 8 + |EncodeList(es)|
      decreases es, 3
    {
      var i := 0;
      while i < |es|
        invariant 0 <= i <= |es|
        invariant ss.known ==> writer.bytes == old(writer.bytes) + EncodeList(es[..i])
        invariant ss.known ==> ss.writtenBytes == old(ss.writtenBytes) + |EncodeList(es[..i])|
        invariant !ss.known ==> writer.bytes == old(writer.bytes)
        invariant !ss.known ==> ss.side == EncodeList(es[..i]) && ss.count == i
      {
        assert es[..i + 1][..i] == es[..i];
        ss.SerValue(es[i]);
        AppendAssoc(old(writer.bytes), EncodeList(es[..i]), Encode(es[i]));
        i := i + 1;
      }
      assert es[..|es|] == es;
      n := ss.Finish();
    }

    /** `serialize_key` then `serialize_value` for each entry, then `end`. */
    method SerializeEntries(ss: SeqSerializer, ents: seq<Entry>) returns (n: nat)
      requires ss.serializer == this
      requires ss.count == 0 && ss.side == []
      modifies ss, writer
      ensures ss.known ==> writer.bytes == old(writer.bytes) + EncodeEntries(ents)
      ensures ss.known ==> n == old(ss.writtenBytes) + |EncodeEntries(ents)|
      ensures !ss.known ==> writer.bytes == old(writer.bytes) + BeBytes(2 * |ents|, 8) + EncodeEntries(ents)
      ensures !ss.known ==> n == 8 + |EncodeEntries(ents)|
      decreases ents, 3
    {
      var i := 0;
      while i < |ents|
        invariant 0 <= i <= |ents|
        invariant ss.known ==> writer.bytes == old(writer.bytes) + EncodeEntries(ents[..i])
        invariant ss.known ==> ss.writtenBytes == old(ss.writtenBytes) + |EncodeEntries(ents[..i])|
        invariant !ss.known ==> writer.bytes == old(writer.bytes)
        invariant !ss.known ==> ss.side == EncodeEntries(ents[..i]) && ss.count == 2 * i
      {
        assert ents[..i + 1][..i] == ents[..i];
        SerializeEntry(ss, ents[i]);
        AppendAssoc(old(writer.bytes), EncodeEntries(ents[..i]), EncodeEntry(ents[i]));
        i := i + 1;
      }
      assert ents[..|ents|] == ents;
      n := ss.Finish();
    }

    /** `serialize_key` then `serialize_value` for one entry. */
    method SerializeEntry(ss: SeqSerializer, e: Entry)
      requires ss.serializer == this
      modifies ss, writer
      ensures ss.known ==> writer.bytes == old(writer.bytes) + EncodeEntry(e)
      ensures ss.known ==> ss.writtenBytes == old(ss.writtenBytes) + |EncodeEntry(e)|
      ensures ss.known ==> ss.count == old(ss.count) && ss.side == old(ss.side)
      ensures !ss.known ==> writer.bytes == old(writer.bytes)
      ensures !ss.known ==> ss.side == old(ss.side) + EncodeEntry(e) && ss.count == old(ss.count) + 2
      decreases e, 3
    {
      ss.SerValue(e.key);
      ss.SerValue(e.value);
      AppendAssoc(old(writer.bytes), Encode(e.key), Encode(e.value));
      AppendAssoc(old(ss.side), Encode(e.key), Encode(e.value));
    }
  }

  /** The compound serializer handed out by `serialize_seq` and its kin.
      With a known length (`known`) it forwards each value to the parent
      serializer and sums the counts in `writtenBytes`; with an unknown one
      it serializes each value into the side buffer `side`, counting the
      values in `count`, and writes both out at `Finish`. */
  class SeqSerializer {
    const serializer: Serializer
    const known: bool
    var writtenBytes: nat
    var count: nat
    var side: seq<u8>

    /** `SeqSerializer::new_known`. */
    constructor NewKnown(serializer: Serializer, writtenBytes: nat)
      ensures this.serializer == serializer && known
      ensures this.writtenBytes == writtenBytes && count == 0 && side == []
    {
      this.serializer := serializer;
      known := true;
      this.writtenBytes := writtenBytes;
      count := 0;
      side := [];
    }

    /** `SeqSerializer::new_unknown`: nothing is written yet. */
    constructor NewUnknown(serializer: Serializer)
      ensures this.serializer == serializer && !known
      ensures writtenBytes == 0 && count == 0 && side == []
    {
      this.serializer := serializer;
      known := false;
      writtenBytes := 0;
      count := 0;
      side := [];
    }

    /** `ser_value`, which every `serialize_element`, `serialize_field`,
        `serialize_key` and `serialize_value` calls. */
    method SerValue(v: Data)
      modifies this, serializer.writer
      ensures known ==> serializer.writer.bytes == old(serializer.writer.bytes) + Encode(v)
      ensures known ==> writtenBytes == old(writtenBytes) + |Encode(v)|
      ensures !known ==> serializer.writer.bytes == old(serializer.writer.bytes)
      ensures !known ==> side == old(side) + Encode(v) && count == old(count) + 1
      ensures known ==> count == old(count) && side == old(side)
      decreases v, 2
    {
      if known {
        var wb := serializer.Serialize(v);
        writtenBytes := writtenBytes + wb;
      } else {
        var sink := new VecSink(side);
        var inner := new Serializer(sink);
        count := count + 1;
        var _ := inner.Serialize(v);
        side := sink.bytes;
      }
    }

    /** `finish` (every `end`): with a known length the accumulated count;
        otherwise the 8-byte big-endian `count`, then the side buffer. */
    method Finish() returns (n: nat)
      modifies serializer.writer
      ensures known ==> serializer.writer.bytes == old(serializer.writer.bytes) && n == writtenBytes
      ensures !known ==> serializer.writer.bytes == old(serializer.writer.bytes) + BeBytes(count, 8) + side
      ensures !known ==> n == 8 + |side|
    {
      if known {
        n := writtenBytes;
      } else {
        var wb := serializer.writer.WriteBytes(BeBytes(count, 8));
        var wb2 := serializer.writer.WriteBytes(side);
        n := wb2 + wb;
      }
    }
  }

  /** `StrCollector`: the `fmt::Write` adapter `collect_str` formats into. */
  class StrCollector {
    const writer: VecSink
    var writtenBytes: nat

    constructor (writer: VecSink)
      ensures this.writer == writer && writtenBytes == 0
    {
      this.writer := writer;
      writtenBytes := 0;
    }

    method WriteStr(s: string)
      modifies this, writer
      ensures writer.bytes == old(writer.bytes) + EncodeUtf8(s)
      ensures writtenBytes == old(writtenBytes) + |EncodeUtf8(s)|
    {
      var w := writer.WriteBytes(EncodeUtf8(s));
      writtenBytes := writtenBytes + w;
    }
  }
}
