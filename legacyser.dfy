/** The untagged encoder of src/ser.rs: no tags, no tuple or struct headers;
    booleans and options are one 0/1 byte, chars their 4-byte scalar value,
    lengths 8 bytes. `Encode` gives the bytes written for a value and the
    `Serializer` class writes them to a `Vec` sink step by step. */
module LegacySer {
  import opened Bytes
  import opened DataModel
  import Wrappers
  import opened Write
  import AnySer

  /** `u64::MAX`, the length `collect_str` writes in front of its text. */
  const U64Max: nat := Pow256(8) - 1

  /** The byte `collect_str` writes after its text (`u8::MAX`). */
  const Terminator: u8 := 0xFF

  /** The bytes the untagged serializer writes for `v`. */
  function Encode(v: Data): seq<u8>
    decreases v, 1
  {
    match v
    case Bool(b) => [if b then 1 else 0]
    case Int(t, x) => BeBytes(x, t.Size())
    case Float32(bits) => BeBytes(bits, 4)
    case Float64(bits) => BeBytes(bits, 8)
    case Char(c) => BeBytes(c as int, 4)
    case Str(s) => LenThen(EncodeUtf8(s))
    case ByteArray(b) => LenThen(b)
    case NoneValue => [0]
    case SomeValue(x) => [1] + Encode(x)
    case Unit => []
    case UnitStruct => []
    case UnitVariant(i) => BeBytes(i, 4)
    case NewtypeStruct(x) => Encode(x)
    case NewtypeVariant(i, x) => BeBytes(i, 4) + Encode(x)
    case Tuple(es) => EncodeList(es)
    case TupleStruct(es) => EncodeList(es)
    case TupleVariant(i, es) => BeBytes(i, 4) + EncodeList(es)
    case Seq(_, es) => BeBytes(|es|, 8) + EncodeList(es)
    case Map(known, ents) => EncodeMap(known, ents)
    case Struct(fs) => EncodeList(fs)
    case StructVariant(i, fs) => BeBytes(i, 4) + EncodeList(fs)
    case DisplayStr(ps) => EncodeDisplay(ps)
  }

  /** `serialize_bytes`: the 8-byte big-endian length, then the bytes. */
  function LenThen(bs: seq<u8>): seq<u8>
  {
    BeBytes(|bs|, 8) + bs
  }

  /** `collect_str`: `u64::MAX` as the length, the text, then one 0xFF. */
  function EncodeDisplay(ps: seq<string>): seq<u8>
  {
    BeBytes(U64Max, 8) + EncodeUtf8(Joined(ps)) + [Terminator]
  }

  /** A map: the 8-byte count, then each key and value. With a known length
      the count is of entries; with an unknown one `ser_value` counted keys
      and values alike, twice the entries. */
  function EncodeMap(known: bool, ents: seq<Entry>): seq<u8>
    decreases ents, 3
  {
    BeBytes(if known then |ents| else 2 * |ents|, 8) + EncodeEntries(ents)
  }

  /** The elements of a sequence, tuple or struct, one after the other. */
  function EncodeList(es: seq<Data>): seq<u8>
    decreases es, 2
  {
    if es == [] then [] else EncodeList(es[..|es| - 1]) + Encode(es[|es| - 1])
  }

  /** The entries of a map: each key, then its value. */
  function EncodeEntries(ents: seq<Entry>): seq<u8>
    decreases ents, 2
  {
    if ents == [] then []
    else
      EncodeEntries(ents[..|ents| - 1]) + EncodeEntry(ents[|ents| - 1])
  }

  function EncodeEntry(e: Entry): seq<u8>
    decreases e, 2
  {
    Encode(e.key) + Encode(e.value)
  }

  /** `Serializer<&mut Vec<u8>>` of src/ser.rs: each method appends to
      `writer` and returns the number of bytes it wrote. */
  class Serializer {
    const writer: VecSink

    constructor (writer: VecSink)
      ensures this.writer == writer
    {
      this.writer := writer;
    }

    /** `serialize_bool`: the byte `v as u8`. */
    method SerializeBool(b: bool) returns (n: nat)
      modifies writer
      ensures writer.bytes == old(writer.bytes) + [if b then 1 else 0] && n == 1
    {
      n := writer.WriteByte(if b then 1 else 0);
    }

    /** `implement_number!`: `to_be_bytes` and nothing else. */
    method SerializeInt(t: IntType, x: int) returns (n: nat)
      modifies writer
      ensures writer.bytes == old(writer.bytes) + Encode(Int(t, x)) && n == t.Size()
    {
      n := writer.WriteBytes(BeBytes(x, t.Size()));
    }

    method SerializeFloat32(bits: nat) returns (n: nat)
      modifies writer
      ensures writer.bytes == old(writer.bytes) + Encode(Float32(bits)) && n == 4
    {
      n := writer.WriteBytes(BeBytes(bits, 4));
    }

    method SerializeFloat64(bits: nat) returns (n: nat)
      modifies writer
      ensures writer.bytes == old(writer.bytes) + Encode(Float64(bits)) && n == 8
    {
      n := writer.WriteBytes(BeBytes(bits, 8));
    }

    /** `serialize_char`: the scalar value as a big-endian `u32`. */
    method SerializeChar(c: char) returns (n: nat)
      modifies writer
      ensures writer.bytes == old(writer.bytes) + Encode(Char(c)) && n == 4
    {
      n := writer.WriteBytes(BeBytes(c as int, 4));
    }

    /** `serialize_str` is `serialize_bytes` of the UTF-8 bytes. */
    method SerializeStr(s: string) returns (n: nat)
      modifies writer
      ensures writer.bytes == old(writer.bytes) + Encode(Str(s)) && n == 8 + |EncodeUtf8(s)|
    {
      n := SerializeBytes(EncodeUtf8(s));
    }

    method SerializeBytes(b: seq<u8>) returns (n: nat)
      modifies writer
      ensures writer.bytes == old(writer.bytes) + Encode(ByteArray(b)) && n == 8 + |b|
    {
      var w := writer.WriteBytes(BeBytes(|b|, 8));
      var w2 := writer.WriteBytes(b);
      n := w2 + w;
      AppendAssoc(old(writer.bytes), BeBytes(|b|, 8), b);
    }

    /** `serialize_unit` writes nothing. */
    method SerializeUnit() returns (n: nat)
      ensures n == 0 && |Encode(Unit)| == 0
    {
      n := 0;
    }

    method SerializeUnitStruct() returns (n: nat)
      ensures n == 0 && |Encode(UnitStruct)| == 0
    {
      n := SerializeUnit();
    }

    /** `serialize_unit_variant` is `serialize_u32(variant_index)`. */
    method SerializeUnitVariant(index: nat) returns (n: nat)
      modifies writer
      ensures writer.bytes == old(writer.bytes) + Encode(UnitVariant(index)) && n == 4
    {
      n := SerializeInt(IntType.U32, index);
    }

    method SerializeNone() returns (n: nat)
      modifies writer
      ensures writer.bytes == old(writer.bytes) + Encode(NoneValue) && n == 1
    {
      n := writer.WriteByte(0);
    }

    method SerializeSome(x: Data) returns (n: nat)
      modifies writer
      ensures writer.bytes == old(writer.bytes) + Encode(SomeValue(x)) && n == 1 + |Encode(x)|
      decreases x, 2
    {
      var w := writer.WriteByte(1);
      var w2 := Serialize(x);
      n := w2 + w;
      AppendAssoc(old(writer.bytes), [1], Encode(x));
    }

    /** `serialize_newtype_struct` is transparent. */
    method SerializeNewtypeStruct(x: Data) returns (n: nat)
      modifies writer
      ensures writer.bytes == old(writer.bytes) + Encode(NewtypeStruct(x)) && n == |Encode(x)|
      decreases x, 2
    {
      n := Serialize(x);
    }

    method SerializeNewtypeVariant(index: nat, x: Data) returns (n: nat)
      modifies writer
      ensures writer.bytes == old(writer.bytes) + Encode(NewtypeVariant(index, x))
      ensures n == 4 + |Encode(x)|
      decreases x, 2
    {
      var w := writer.WriteBytes(BeBytes(index, 4));
      var w2 := Serialize(x);
      n := w2 + w;
      AppendAssoc(old(writer.bytes), BeBytes(index, 4), Encode(x));
    }

    /** `serialize_seq` and `serialize_map`: with a length, the 8-byte
        count goes out now; without one, nothing is written before `Finish`. */
    method SerializeSeq(len: Wrappers.Option<nat>) returns (ss: SeqSerializer)
      modifies writer
      ensures fresh(ss) && ss.serializer == this && ss.known == len.Some?
      ensures ss.count == 0 && ss.side == []
      ensures len.Some? ==> writer.bytes == old(writer.bytes) + BeBytes(len.value, 8) && ss.writtenBytes == 8
      ensures len.None? ==> writer.bytes == old(writer.bytes)
    {
      if len.Some? {
        var wb := writer.WriteBytes(BeBytes(len.value, 8));
        ss := new SeqSerializer.NewKnown(this, wb);
      } else {
        ss := new SeqSerializer.NewUnknown(this);
      }
    }

    /** `serialize_tuple`, `serialize_tuple_struct` and `serialize_struct`:
        no header at all. */
    method SerializeHeaderless() returns (ss: SeqSerializer)
      ensures fresh(ss) && ss.serializer == this && ss.known
      ensures ss.writtenBytes == 0 && ss.count == 0 && ss.side == []
    {
      ss := new SeqSerializer.NewKnown(this, 0);
    }

    /** `serialize_tuple_variant` and `serialize_struct_variant`: the 4-byte
        variant index. */
    method SerializeVariantHeader(index: nat) returns (ss: SeqSerializer)
      modifies writer
      ensures fresh(ss) && ss.serializer == this && ss.known
      ensures writer.bytes == old(writer.bytes) + BeBytes(index, 4)
      ensures ss.writtenBytes == 4 && ss.count == 0 && ss.side == []
    {
      var wb := writer.WriteBytes(BeBytes(index, 4));
      ss := new SeqSerializer.NewKnown(this, wb);
    }

    /** `collect_str`: `u64::MAX` where the length would be, the pieces
        `Display` hands to the `StrCollector`, then one 0xFF byte. */
    method CollectStr(pieces: seq<string>) returns (n: nat)
      modifies writer
      ensures writer.bytes == old(writer.bytes) + Encode(DisplayStr(pieces))
      ensures n == 8 + |EncodeUtf8(Joined(pieces))| + 1
    {
      n := writer.WriteBytes(BeBytes(U64Max, 8));
      var w := WritePieces(pieces);
      n := n + w;
      AppendAssoc(old(writer.bytes), BeBytes(U64Max, 8), EncodeUtf8(Joined(pieces)));
      w := writer.WriteByte(Terminator);
      n := n + w;
    }

    /** What `Display::fmt` hands to the `StrCollector` of `collect_str`,
        piece by piece: the UTF-8 bytes of their concatenation. */
    method WritePieces(pieces: seq<string>) returns (n: nat)
      modifies writer
      ensures writer.bytes == old(writer.bytes) + EncodeUtf8(Joined(pieces))
      ensures n == |EncodeUtf8(Joined(pieces))|
    {
      var collector := new AnySer.StrCollector(writer);
      var i := 0;
      while i < |pieces|
        invariant 0 <= i <= |pieces|
        invariant collector.writer == writer
        invariant writer.bytes == old(writer.bytes) + EncodeUtf8(Joined(pieces[..i]))
        invariant collector.writtenBytes == |EncodeUtf8(Joined(pieces[..i]))|
      {
        assert pieces[..i + 1][..i] == pieces[..i];
        EncodeUtf8Append(Joined(pieces[..i]), pieces[i]);
        collector.WriteStr(pieces[i]);
        AppendAssoc(old(writer.bytes), EncodeUtf8(Joined(pieces[..i])), EncodeUtf8(pieces[i]));
        i := i + 1;
      }
      assert pieces[..|pieces|] == pieces;
      n := collector.writtenBytes;
    }

    /** `value.serialize(&mut serializer)`: the calls a `Serialize`
        implementation of `v` makes. The count returned is the length of
        what was written. */
    method Serialize(v: Data) returns (n: nat)
      modifies writer
      ensures writer.bytes == old(writer.bytes) + Encode(v) && n == |Encode(v)|
      decreases v, 1
    {
      match v
      case SomeValue(x) => n := SerializeSome(x);
      case NewtypeStruct(x) => n := SerializeNewtypeStruct(x);
      case NewtypeVariant(i, x) => n := SerializeNewtypeVariant(i, x);
      case Tuple(es) => n := SerializeHeaderlessElements(es);
      case TupleStruct(es) => n := SerializeHeaderlessElements(es);
      case TupleVariant(i, es) => n := SerializeVariantElements(i, es);
      case Seq(known, es) => n := SerializeSeqElements(known, es);
      case Map(known, ents) => n := SerializeMapEntries(known, ents);
      case Struct(fs) => n := SerializeHeaderlessElements(fs);
      case StructVariant(i, fs) => n := SerializeVariantElements(i, fs);
      case _ => n := SerializeLeaf(v);
    }

    /** The values with no nested value: one `serialize_*` call each. */
    method SerializeLeaf(v: Data) returns (n: nat)
      requires !(v.SomeValue? || v.NewtypeStruct? || v.NewtypeVariant? || v.Tuple? || v.TupleStruct?
                 || v.TupleVariant? || v.Seq? || v.Map? || v.Struct? || v.StructVariant?)
      modifies writer
      ensures writer.bytes == old(writer.bytes) + Encode(v) && n == |Encode(v)|
    {
      match v
      case Bool(b) => n := SerializeBool(b);
      case Int(t, x) => n := SerializeInt(t, x);
      case Float32(bits) => n := SerializeFloat32(bits);
      case Float64(bits) => n := SerializeFloat64(bits);
      case Char(c) => n := SerializeChar(c);
      case Str(s) => n := SerializeStr(s);
      case ByteArray(b) => n := SerializeBytes(b);
      case NoneValue => n := SerializeNone();
      case Unit => n := SerializeUnit();
      case UnitStruct => n := SerializeUnitStruct();
      case UnitVariant(i) => n := SerializeUnitVariant(i);
      case DisplayStr(ps) => n := CollectStr(ps);
    }

    /** A tuple, tuple struct or struct: its elements and nothing else. */
    method SerializeHeaderlessElements(es: seq<Data>) returns (n: nat)
      modifies writer
      ensures writer.bytes == old(writer.bytes) + EncodeList(es) && n == |EncodeList(es)|
      decreases es, 4
    {
      var ss := SerializeHeaderless();
      n := SerializeElements(ss, es);
    }

    /** A tuple or struct variant: the index, then each element. */
    method SerializeVariantElements(i: nat, es: seq<Data>) returns (n: nat)
      modifies writer
      ensures writer.bytes == old(writer.bytes) + (BeBytes(i, 4) + EncodeList(es))
      ensures n == 4 + |EncodeList(es)|
      decreases es, 4
    {
      var ss := SerializeVariantHeader(i);
      n := SerializeElements(ss, es);
      AppendAssoc(old(writer.bytes), BeBytes(i, 4), EncodeList(es));
    }

    /** A sequence: `serialize_seq` with or without its length, each
        element, then `end`; both paths write the same bytes. */
    method SerializeSeqElements(known: bool, es: seq<Data>) returns (n: nat)
      modifies writer
      ensures writer.bytes == old(writer.bytes) + Encode(Seq(known, es)) && n == 8 + |EncodeList(es)|
      decreases es, 4
    {
      assert Encode(Seq(known, es)) == BeBytes(|es|, 8) + EncodeList(es);
      AppendAssoc(writer.bytes, BeBytes(|es|, 8), EncodeList(es));
      if known {
        var ss := SerializeSeq(Wrappers.Some(|es|));
        n := SerializeElements(ss, es);
      } else {
        var ss := SerializeSeq(Wrappers.None);
        n := SerializeElements(ss, es);
      }
    }

    /** A map: `serialize_map` with or without its length, each key and
        value, then `end`. */
    method SerializeMapEntries(known: bool, ents: seq<Entry>) returns (n: nat)
      modifies writer
      ensures writer.bytes == old(writer.bytes) + EncodeMap(known, ents) && n == 8 + |EncodeEntries(ents)|
      decreases ents, 4
    {
      if known {
        AppendAssoc(writer.bytes, BeBytes(|ents|, 8), EncodeEntries(ents));
        var ss := SerializeSeq(Wrappers.Some(|ents|));
        n := SerializeEntries(ss, ents);
      } else {
        AppendAssoc(writer.bytes, BeBytes(2 * |ents|, 8), EncodeEntries(ents));
        var ss := SerializeSeq(Wrappers.None);
        n := SerializeEntries(ss, ents);
      }
    }

    /** `serialize_element` / `serialize_field` for each element, then `end`. */
    method SerializeElements(ss: SeqSerializer, es: seq<Data>) returns (n: nat)
      requires ss.serializer == this
      requires ss.count == 0 && ss.side == []
      modifies ss, writer
      ensures ss.known ==> writer.bytes == old(writer.bytes) + EncodeList(es)
      ensures ss.known ==> n == old(ss.writtenBytes) + |EncodeList(es)|
      ensures !ss.known ==> writer.bytes == old(writer.bytes) + BeBytes(|es|, 8) + EncodeList(es)
      ensures !ss.known ==> n == 8 + |EncodeList(es)|
      decreases es, 3
    {
      var i := 0;
      while i < |es|
        invariant 0 <= i <= |es|
        invariant ss.known ==> writer.bytes == old(writer.bytes) + EncodeList(es[..i])
        invariant ss.known ==> ss.writtenBytes == old(ss.writtenBytes) + |EncodeList(es[..i])|
        invariant !ss.known ==> writer.bytes == old(writer.bytes)
        invariant !ss.known ==> ss.side == EncodeList(es[..i]) && ss.count == i
      {
        assert es[..i + 1][..i] == es[..i];
        ss.SerValue(es[i]);
        AppendAssoc(old(writer.bytes), EncodeList(es[..i]), Encode(es[i]));
        i := i + 1;
      }
      assert es[..|es|] == es;
      n := ss.Finish();
    }

    /** `serialize_key` then `serialize_value` for each entry, then `end`. */
    method SerializeEntries(ss: SeqSerializer, ents: seq<Entry>) returns (n: nat)
      requires ss.serializer == this
      requires ss.count == 0 && ss.side == []
      modifies ss, writer
      ensures ss.known ==> writer.bytes == old(writer.bytes) + EncodeEntries(ents)
      ensures ss.known ==> n == old(ss.writtenBytes) + |EncodeEntries(ents)|
      ensures !ss.known ==> writer.bytes == old(writer.bytes) + BeBytes(2 * |ents|, 8) + EncodeEntries(ents)
      ensures !ss.known ==> n == 8 + |EncodeEntries(ents)|
      decreases ents, 3
    {
      var i := 0;
      while i < |ents|
        invariant 0 <= i <= |ents|
        invariant ss.known ==> writer.bytes == old(writer.bytes) + EncodeEntries(ents[..i])
        invariant ss.known ==> ss.writtenBytes == old(ss.writtenBytes) + |EncodeEntries(ents[..i])|
        invariant !ss.known ==> writer.bytes == old(writer.bytes)
        invariant !ss.known ==> ss.side == EncodeEntries(ents[..i]) && ss.count == 2 * i
      {
        assert ents[..i + 1][..i] == ents[..i];
        SerializeEntry(ss, ents[i]);
        AppendAssoc(old(writer.bytes), EncodeEntries(ents[..i]), EncodeEntry(ents[i]));
        i := i + 1;
      }
      assert ents[..|ents|] == ents;
      n := ss.Finish();
    }

    /** `serialize_key` then `serialize_value` for one entry. */
    method SerializeEntry(ss: SeqSerializer, e: Entry)
      requires ss.serializer == this
      modifies ss, writer
      ensures ss.known ==> writer.bytes == old(writer.bytes) + EncodeEntry(e)
      ensures ss.known ==> ss.writtenBytes == old(ss.writtenBytes) + |EncodeEntry(e)|
      ensures ss.known ==> ss.count == old(ss.count) && ss.side == old(ss.side)
      ensures !ss.known ==> writer.bytes == old(writer.bytes)
      ensures !ss.known ==> ss.side == old(ss.side) + EncodeEntry(e) && ss.count == old(ss.count) + 2
      decreases e, 3
    {
      ss.SerValue(e.key);
      ss.SerValue(e.value);
      AppendAssoc(old(writer.bytes), Encode(e.key), Encode(e.value));
      AppendAssoc(old(ss.side), Encode(e.key), Encode(e.value));
    }
  }

  /** The compound serializer of src/ser.rs, `KnownSize` (`known`) or
      `UnknownSize`: the first forwards each value to the parent and sums
      the counts in `writtenBytes`; the second serializes each value into
      the side buffer `side`, counting the values, and writes the count and
      the buffer at `Finish`. */
  class SeqSerializer {
    const serializer: Serializer
    const known: bool
    var writtenBytes: nat
    var count: nat
    var side: seq<u8>

    /** `SeqSerializer::new_known`. */
    constructor NewKnown(serializer: Serializer, writtenBytes: nat)
      ensures this.serializer == serializer && known
      ensures this.writtenBytes == writtenBytes && count == 0 && side == []
    {
      this.serializer := serializer;
      known := true;
      this.writtenBytes := writtenBytes;
      count := 0;
      side := [];
    }

    /** `SeqSerializer::new_unknown`: nothing is written yet. */
    constructor NewUnknown(serializer: Serializer)
      ensures this.serializer == serializer && !known
      ensures writtenBytes == 0 && count == 0 && side == []
    {
      this.serializer := serializer;
      known := false;
      writtenBytes := 0;
      count := 0;
      side := [];
    }

    /** `ser_value`, which every `serialize_element`, `serialize_field`,
        `serialize_key` and `serialize_value` calls. */
    method SerValue(v: Data)
      modifies this, serializer.writer
      ensures known ==> serializer.writer.bytes == old(serializer.writer.bytes) + Encode(v)
      ensures known ==> writtenBytes == old(writtenBytes) + |Encode(v)|
      ensures !known ==> serializer.writer.bytes == old(serializer.writer.bytes)
      ensures !known ==> side == old(side) + Encode(v) && count == old(count) + 1
      ensures known ==> count == old(count) && side == old(side)
      decreases v, 2
    {
      if known {
        var wb := serializer.Serialize(v);
        writtenBytes := writtenBytes + wb;
      } else {
        var sink := new VecSink(side);
        var inner := new Serializer(sink);
        count := count + 1;
        var _ := inner.Serialize(v);
        side := sink.bytes;
      }
    }

    /** `finish` (every `end`): with a known length the accumulated count;
        otherwise the 8-byte big-endian `count`, then the side buffer. */
    method Finish() returns (n: nat)
      modifies serializer.writer
      ensures known ==> serializer.writer.bytes == old(serializer.writer.bytes) && n == writtenBytes
      ensures !known ==> serializer.writer.bytes == old(serializer.writer.bytes) + BeBytes(count, 8) + side
      ensures !known ==> n == 8 + |side|
    {
      if known {
        n := writtenBytes;
      } else {
        var wb := serializer.writer.WriteBytes(BeBytes(count, 8));
        var wb2 := serializer.writer.WriteBytes(side);
        n := wb2 + wb;
      }
    }
  }
}
