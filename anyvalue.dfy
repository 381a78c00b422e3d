/** The schema-less read of the self-describing format: `deserialize_any`
    with `ValueVisitor` (src/any/value/mod.rs) on `AnySer.Encode(v)` builds
    the `Value` tree whose structure follows `v`, and stops with a panic at
    the first enum variant, whose `visit_enum` is not implemented. */
module AnyValueRoundTrip {
  import opened Bytes
  import opened Wrappers
  import opened Errors
  import opened DataModel
  import Tags
  import AnySer
  import AnyDe
  import Values
  import AnyRoundTrip

  /** No enum variant anywhere inside `v`. */
  predicate VariantFree(v: Data)
  {
    match v
    case UnitVariant(_) => false
    case NewtypeVariant(_, _) => false
    case TupleVariant(_, _) => false
    case StructVariant(_, _) => false
    case SomeValue(x) => VariantFree(x)
    case NewtypeStruct(x) => VariantFree(x)
    case Tuple(es) => forall j :: 0 <= j < |es| ==> VariantFree(es[j])
    case TupleStruct(es) => forall j :: 0 <= j < |es| ==> VariantFree(es[j])
    case Seq(_, es) => forall j :: 0 <= j < |es| ==> VariantFree(es[j])
    case Map(_, ents) => forall j :: 0 <= j < |ents| ==> VariantFree(ents[j].key) && VariantFree(ents[j].value)
    case Struct(fs) => forall j :: 0 <= j < |fs| ==> VariantFree(fs[j])
    case _ => true
  }

  /** Values `deserialize_any` can read back: codable and variant-free. */
  predicate Readable(v: Data)
  {
    AnyRoundTrip.Codable(v) && VariantFree(v)
  }

  predicate AllReadable(es: seq<Data>)
  {
    forall j :: 0 <= j < |es| ==> Readable(es[j])
  }

  predicate EntriesReadable(ents: seq<Entry>)
  {
    forall j :: 0 <= j < |ents| ==> Readable(ents[j].key) && Readable(ents[j].value)
  }

  /** The `Value` a schema-less read builds for `v`: scalars become the
      constructor of their kind (strings and byte arrays borrowed from the
      input, `collect_str` output as the string `Display` produced), options
      stay options, a newtype struct is its content, sequences and tuples
      become arrays, a map its entries, and a struct a map keyed by the
      position of each field. */
  function ToValue(v: Data): Values.Value
    requires VariantFree(v)
    decreases v, 1
  {
    match v
    case Bool(b) => Values.Bool(b)
    case Int(t, x) => Values.Number(Values.Int(t, x))
    case Float32(bits) => Values.Number(Values.F32(bits))
    case Float64(bits) => Values.Number(Values.F64(bits))
    case Char(c) => Values.Char(c)
    case Str(s) => Values.String(s)
    case DisplayStr(ps) => Values.String(Joined(ps))
    case ByteArray(b) => Values.Bytes(b)
    case NoneValue => Values.Option(None)
    case SomeValue(x) => Values.Option(Some(ToValue(x)))
    case Unit => Values.Unit
    case UnitStruct => Values.Unit
    case NewtypeStruct(x) => ToValue(x)
    case Tuple(es) => Values.Array(ToValues(es))
    case TupleStruct(es) => Values.Array(ToValues(es))
    case Seq(_, es) => Values.Array(ToValues(es))
    case Map(_, ents) => Values.Map(ToEntries(ents))
    case Struct(fs) => Values.Map(ToFields(fs, 0))
  }

  function ToValues(es: seq<Data>): (r: seq<Values.Value>)
    requires forall j :: 0 <= j < |es| ==> VariantFree(es[j])
    ensures |r| == |es|
    decreases es, 0
  {
    if es == [] then [] else [ToValue(es[0])] + ToValues(es[1..])
  }

  function ToEntries(ents: seq<Entry>): (r: seq<Values.ValueEntry>)
    requires forall j :: 0 <= j < |ents| ==> VariantFree(ents[j].key) && VariantFree(ents[j].value)
    ensures |r| == |ents|
    decreases ents, 0
  {
    if ents == [] then []
    else [ToEntry(ents[0])] + ToEntries(ents[1..])
  }

  function ToEntry(e: Entry): Values.ValueEntry
    requires VariantFree(e.key) && VariantFree(e.value)
    decreases e, 1
  {
    Values.ValueEntry(ToValue(e.key), ToValue(e.value))
  }

  /** The fields from position `index` on, each under its position's key. */
  function ToFields(fs: seq<Data>, index: nat): (r: seq<Values.ValueEntry>)
    requires forall j :: 0 <= j < |fs| ==> VariantFree(fs[j])
    ensures |r| == |fs|
    decreases fs, 0
  {
    if fs == [] then []
    else [Values.ValueEntry(AnyDe.FieldKey(index), ToValue(fs[0]))] + ToFields(fs[1..], index + 1)
  }

  // ---------------------------------------------------------------------
  // Reading back
  // ---------------------------------------------------------------------

  /** `peek_tag` sees the tag the encoder wrote first. */
  lemma PeekTagAt(t: Tags.Tag, input: seq<u8>)
    requires t.HasByte() && |input| >= 1 && input[0] == AnySer.TagByte(t)
    ensures AnyDe.PeekTag(input) == Ok(t)
  {
    Tags.ToByteFromByte(t);
  }

  /** `deserialize_any` goes on with the tag `peek_tag` saw. */
  lemma DecodeAnyPeek(t: Tags.Tag, input: seq<u8>)
    requires AnyDe.PeekTag(input) == Ok(t)
    ensures AnyDe.DecodeAny(input) == AnyDe.AnyByTag(t, input)
  {
  }

  /** `deserialize_any` hands each compound tag to its reader. */
  lemma DispatchOption(input: seq<u8>)
    requires AnyDe.PeekTag(input) == Ok(Tags.Some)
    ensures AnyDe.DecodeAny(input) == AnyDe.AnyOption(input)
  {
    DecodeAnyPeek(Tags.Some, input);
  }

  lemma DispatchNewtype(input: seq<u8>)
    requires AnyDe.PeekTag(input) == Ok(Tags.NewTypeStruct)
    ensures AnyDe.DecodeAny(input) == AnyDe.AnyNewtypeStruct(input)
  {
    DecodeAnyPeek(Tags.NewTypeStruct, input);
  }

  lemma DispatchCounted(t: Tags.Tag, what: string, input: seq<u8>)
    requires (t == Tags.Tuple && what == "Tuple") || (t == Tags.TupleStruct && what == "TupleStruct")
    requires AnyDe.PeekTag(input) == Ok(t)
    ensures AnyDe.DecodeAny(input) == AnyDe.AnyCounted(t, what, input)
  {
    DecodeAnyPeek(t, input);
  }

  lemma DispatchSeq(input: seq<u8>)
    requires AnyDe.PeekTag(input) == Ok(Tags.Seq)
    ensures AnyDe.DecodeAny(input) == AnyDe.AnySeq(input)
  {
    DecodeAnyPeek(Tags.Seq, input);
  }

  lemma DispatchMap(input: seq<u8>)
    requires AnyDe.PeekTag(input) == Ok(Tags.Map)
    ensures AnyDe.DecodeAny(input) == AnyDe.AnyMap(input)
  {
    DecodeAnyPeek(Tags.Map, input);
  }

  lemma DispatchStruct(input: seq<u8>)
    requires AnyDe.PeekTag(input) == Ok(Tags.Struct)
    ensures AnyDe.DecodeAny(input) == AnyDe.AnyStruct(input)
  {
    DecodeAnyPeek(Tags.Struct, input);
  }

  /** `deserialize_any` of the tagged encoding of a variant-free value
      builds `ToValue(v)` and consumes exactly the encoding. */
  lemma {:induction false} DecodeAnyEncode(v: Data, rest: seq<u8>)
    requires Readable(v)
    ensures AnyDe.DecodeAny(AnySer.Encode(v) + rest) == Ok((ToValue(v), rest))
    decreases v, 2
  {
    if v.SomeValue? {
      AnySome(v, rest);
    } else if v.NewtypeStruct? {
      AnyNewtype(v, rest);
    } else if v.Tuple? || v.TupleStruct? {
      AnyCountedOf(v, rest);
    } else if v.Seq? {
      AnySeqOf(v, rest);
    } else if v.Map? {
      AnyMapOf(v, rest);
    } else if v.Struct? {
      AnyStructOf(v, rest);
    } else {
      ScalarRead(v, rest);
    }
  }

  /** The values with no content read back with `deserialize_any`. */
  lemma ScalarRead(v: Data, rest: seq<u8>)
    requires Readable(v)
    requires !(v.SomeValue? || v.NewtypeStruct? || v.Tuple? || v.TupleStruct? || v.Seq? || v.Map? || v.Struct?)
    ensures AnyDe.DecodeAny(AnySer.Encode(v) + rest) == Ok((ToValue(v), rest))
  {
    match v
    case Bool(_) => ScalarFixed(v, rest);
    case Int(t, x) => ScalarInt(t, x, rest);
    case Float32(bits) => ScalarFloat32(bits, rest);
    case Float64(bits) => ScalarFloat64(bits, rest);
    case Char(c) => ScalarChar(c, rest);
    case Str(s) => ScalarStr(s, rest);
    case DisplayStr(ps) => ScalarDisplay(ps, rest);
    case ByteArray(b) => ScalarBytes(b, rest);
    case NoneValue => ScalarFixed(v, rest);
    case Unit => ScalarFixed(v, rest);
    case UnitStruct => ScalarFixed(v, rest);
  }

  /** An enum variant aborts the read: `visit_enum` is `todo!()`. */
  lemma VariantAborts(v: Data, rest: seq<u8>)
    requires v.UnitVariant? || v.NewtypeVariant? || v.TupleVariant? || v.StructVariant?
    ensures AnyDe.DecodeAny(AnySer.Encode(v) + rest) == Err(Panic("not yet implemented"))
  {
    var t: Tags.Tag, tail: seq<u8>;
    match v {
      case UnitVariant(i) =>
        t, tail := Tags.UnitVariant, BeBytes(i, 4);
      case NewtypeVariant(i, x) =>
        t, tail := Tags.NewTypeVariant, BeBytes(i, 4) + AnySer.Encode(x);
        AppendAssoc([AnySer.TagByte(t)], BeBytes(i, 4), AnySer.Encode(x));
      case TupleVariant(i, es) =>
        t, tail := Tags.TupleVariant, BeBytes(i, 4) + AnySer.EncodeList(es);
        AppendAssoc([AnySer.TagByte(t)], BeBytes(i, 4), AnySer.EncodeList(es));
      case StructVariant(i, fs) =>
        t, tail := Tags.StructVariant, BeBytes(i, 4) + AnySer.EncodeList(fs);
        AppendAssoc([AnySer.TagByte(t)], BeBytes(i, 4), AnySer.EncodeList(fs));
    }
    assert AnySer.Encode(v) == [AnySer.TagByte(t)] + tail;
    PeekTagAt(t, AnySer.Encode(v) + rest);
    AnyVariantDispatch(t, AnySer.Encode(v) + rest);
  }

  lemma AnyVariantDispatch(t: Tags.Tag, input: seq<u8>)
    requires t.IsVariant() && AnyDe.PeekTag(input) == Ok(t)
    ensures AnyDe.DecodeAny(input) == Err(Panic("not yet implemented"))
  {
  }

  // The cases of `DecodeAnyEncode`.

  /** The one-byte encodings: booleans, `None`, unit and unit structs. */
  lemma ScalarFixed(v: Data, rest: seq<u8>)
    requires v.Bool? || v.NoneValue? || v.Unit? || v.UnitStruct?
    ensures AnyDe.DecodeAny(AnySer.Encode(v) + rest) == Ok((ToValue(v), rest))
  {
    if v.NoneValue? {
      ScalarNone(rest);
    } else if v.Unit? {
      ScalarUnit(rest);
    } else if v.UnitStruct? {
      ScalarUnitStruct(rest);
    } else {
      ScalarBool(v.b, rest);
    }
  }

  lemma ScalarNone(rest: seq<u8>)
    ensures AnyDe.DecodeAny(AnySer.Encode(NoneValue) + rest) == Ok((Values.Option(None), rest))
  {
    var input := [AnySer.TagByte(Tags.None)] + rest;
    assert AnySer.Encode(NoneValue) == [AnySer.TagByte(Tags.None)];
    FixedTag(Tags.None, rest);
    assert AnyDe.AnyByTag(Tags.None, input) == AnyDe.AnyOption(input);
    DecodeAnyPeek(Tags.None, input);
  }

  lemma ScalarUnit(rest: seq<u8>)
    ensures AnyDe.DecodeAny(AnySer.Encode(Unit) + rest) == Ok((Values.Unit, rest))
  {
    var input := [AnySer.TagByte(Tags.Unit)] + rest;
    assert AnySer.Encode(Unit) == [AnySer.TagByte(Tags.Unit)];
    FixedTag(Tags.Unit, rest);
    assert AnyDe.DecodeUnit(input) == Ok((Unit, rest));
    assert AnyDe.AnyByTag(Tags.Unit, input) == AnyDe.AnyScalar(AnyDe.DecodeUnit(input));
    DecodeAnyPeek(Tags.Unit, input);
  }

  lemma ScalarUnitStruct(rest: seq<u8>)
    ensures AnyDe.DecodeAny(AnySer.Encode(UnitStruct) + rest) == Ok((Values.Unit, rest))
  {
    var input := [AnySer.TagByte(Tags.UnitStruct)] + rest;
    assert AnySer.Encode(UnitStruct) == [AnySer.TagByte(Tags.UnitStruct)];
    FixedTag(Tags.UnitStruct, rest);
    assert AnyDe.DecodeUnitStruct(input) == Ok((UnitStruct, rest));
    assert AnyDe.AnyByTag(Tags.UnitStruct, input) == AnyDe.AnyScalar(AnyDe.DecodeUnitStruct(input));
    DecodeAnyPeek(Tags.UnitStruct, input);
  }

  lemma ScalarBool(b: bool, rest: seq<u8>)
    ensures AnyDe.DecodeAny(AnySer.Encode(Bool(b)) + rest) == Ok((Values.Bool(b), rest))
  {
    var t := if b then Tags.BoolTrue else Tags.BoolFalse;
    var input := [AnySer.TagByte(t)] + rest;
    assert AnySer.Encode(Bool(b)) == [AnySer.TagByte(t)];
    FixedTag(t, rest);
    assert AnyDe.DecodeBool(input) == Ok((Bool(b), rest));
    assert AnyDe.AnyByTag(t, input) == AnyDe.AnyScalar(AnyDe.DecodeBool(input));
    DecodeAnyPeek(t, input);
  }

  /** A lone tag byte is read back as its tag. */
  lemma FixedTag(t: Tags.Tag, rest: seq<u8>)
    requires t.HasByte()
    ensures AnyDe.PeekTag([AnySer.TagByte(t)] + rest) == Ok(t)
    ensures AnyDe.PopTag([AnySer.TagByte(t)] + rest) == Ok((t, rest))
  {
    PeekTagAt(t, [AnySer.TagByte(t)] + rest);
    AnyRoundTrip.PopTagOf(t, rest);
  }

  lemma ScalarInt(t: IntType, x: int, rest: seq<u8>)
    requires InRange(x, t.Size(), t.Signed())
    ensures AnyDe.DecodeAny(AnySer.Encode(Int(t, x)) + rest) == Ok((Values.Number(Values.Int(t, x)), rest))
  {
    var input := AnySer.Encode(Int(t, x)) + rest;
    assert input[0] == AnySer.TagByte(AnySer.IntTag(t));
    PeekTagAt(AnySer.IntTag(t), input);
    AnyIntDispatch(t, input);
    AnyRoundTrip.RoundTripInt(t, x, rest);
  }

  /** The integer tag of type `t` sends `deserialize_any` to the decoder of
      `t`. */
  lemma AnyIntDispatch(t: IntType, input: seq<u8>)
    requires AnyDe.PeekTag(input) == Ok(AnySer.IntTag(t))
    ensures AnyDe.DecodeAny(input) == AnyDe.AnyScalar(AnyDe.DecodeInt(t, input))
  {
    DecodeAnyPeek(AnySer.IntTag(t), input);
    IntByTag(t, input);
  }

  lemma IntByTag(t: IntType, input: seq<u8>)
    ensures AnyDe.AnyByTag(AnySer.IntTag(t), input) == AnyDe.AnyScalar(AnyDe.DecodeInt(t, input))
  {
    IntOfIntTag(t);
  }

  /** Reading the tag of an integer type back gives that type. */
  lemma IntOfIntTag(t: IntType)
    ensures var tag := AnySer.IntTag(t);
      (tag.I8? || tag.I16? || tag.I32? || tag.I64? || tag.I128? || tag.U8? || tag.U16? || tag.U32? || tag.U64? || tag.U128?)
      && AnyDe.IntOfTag(tag) == t
  {
  }

  /** The four character tags all go to `deserialize_char`. */
  lemma CharByTag(t: Tags.Tag, input: seq<u8>)
    requires t.Char1? || t.Char2? || t.Char3? || t.Char4?
    ensures AnyDe.AnyByTag(t, input) == AnyDe.AnyScalar(AnyDe.DecodeChar(input))
  {
    match t
    case Char1 =>
    case Char2 =>
    case Char3 =>
    case Char4 =>
  }

  lemma ScalarFloat32(bits: nat, rest: seq<u8>)
    requires bits < Pow256(4)
    ensures AnyDe.DecodeAny(AnySer.Encode(Float32(bits)) + rest) == Ok((Values.Number(Values.F32(bits)), rest))
  {
    assert AnySer.Encode(Float32(bits))[0] == AnySer.TagByte(Tags.F32);
    PeekTagAt(Tags.F32, AnySer.Encode(Float32(bits)) + rest);
    DecodeAnyPeek(Tags.F32, AnySer.Encode(Float32(bits)) + rest);
    AnyRoundTrip.RoundTripFloat32(bits, rest);
  }

  lemma ScalarFloat64(bits: nat, rest: seq<u8>)
    requires bits < Pow256(8)
    ensures AnyDe.DecodeAny(AnySer.Encode(Float64(bits)) + rest) == Ok((Values.Number(Values.F64(bits)), rest))
  {
    assert AnySer.Encode(Float64(bits))[0] == AnySer.TagByte(Tags.F64);
    PeekTagAt(Tags.F64, AnySer.Encode(Float64(bits)) + rest);
    DecodeAnyPeek(Tags.F64, AnySer.Encode(Float64(bits)) + rest);
    AnyRoundTrip.RoundTripFloat64(bits, rest);
  }

  lemma ScalarChar(c: char, rest: seq<u8>)
    ensures AnyDe.DecodeAny(AnySer.Encode(Char(c)) + rest) == Ok((Values.Char(c), rest))
  {
    var (tag, bytes) := Tags.EncodeChar(c);
    assert AnySer.Encode(Char(c))[0] == AnySer.TagByte(tag);
    PeekTagAt(tag, AnySer.Encode(Char(c)) + rest);
    DecodeAnyPeek(tag, AnySer.Encode(Char(c)) + rest);
    CharByTag(tag, AnySer.Encode(Char(c)) + rest);
    AnyRoundTrip.RoundTripChar(c, rest);
  }

  lemma ScalarStr(s: string, rest: seq<u8>)
    requires |EncodeUtf8(s)| < MaxLen
    ensures AnyDe.DecodeAny(AnySer.Encode(Str(s)) + rest) == Ok((Values.String(s), rest))
  {
    assert AnySer.Encode(Str(s))[0] == AnySer.TagByte(Tags.String);
    PeekTagAt(Tags.String, AnySer.Encode(Str(s)) + rest);
    DecodeAnyPeek(Tags.String, AnySer.Encode(Str(s)) + rest);
    AnyRoundTrip.RoundTripStr(s, rest);
  }

  lemma ScalarDisplay(ps: seq<string>, rest: seq<u8>)
    ensures AnyDe.DecodeAny(AnySer.Encode(DisplayStr(ps)) + rest) == Ok((Values.String(Joined(ps)), rest))
  {
    assert AnySer.Encode(DisplayStr(ps))[0] == AnySer.TagByte(Tags.NullTerminatedString);
    PeekTagAt(Tags.NullTerminatedString, AnySer.Encode(DisplayStr(ps)) + rest);
    DecodeAnyPeek(Tags.NullTerminatedString, AnySer.Encode(DisplayStr(ps)) + rest);
    AnyRoundTrip.RoundTripDisplay(ps, rest);
  }

  lemma ScalarBytes(b: seq<u8>, rest: seq<u8>)
    requires |b| < MaxLen
    ensures AnyDe.DecodeAny(AnySer.Encode(ByteArray(b)) + rest) == Ok((Values.Bytes(b), rest))
  {
    assert AnySer.Encode(ByteArray(b))[0] == AnySer.TagByte(Tags.ByteArray);
    PeekTagAt(Tags.ByteArray, AnySer.Encode(ByteArray(b)) + rest);
    DecodeAnyPeek(Tags.ByteArray, AnySer.Encode(ByteArray(b)) + rest);
    AnyRoundTrip.RoundTripBytes(b, rest);
  }

  lemma {:induction false} AnySome(v: Data, rest: seq<u8>)
    requires v.SomeValue? && Readable(v)
    ensures AnyDe.DecodeAny(AnySer.Encode(v) + rest) == Ok((ToValue(v), rest))
    decreases v, 1
  {
    var x := v.inner;
    assert AnySer.Encode(v) == [AnySer.TagByte(Tags.Some)] + AnySer.Encode(x);
    AppendAssoc([AnySer.TagByte(Tags.Some)], AnySer.Encode(x), rest);
    PeekTagAt(Tags.Some, [AnySer.TagByte(Tags.Some)] + (AnySer.Encode(x) + rest));
    DispatchOption([AnySer.TagByte(Tags.Some)] + (AnySer.Encode(x) + rest));
    AnyRoundTrip.PopTagOf(Tags.Some, AnySer.Encode(x) + rest);
    DecodeAnyEncode(x, rest);
  }

  lemma {:induction false} AnyNewtype(v: Data, rest: seq<u8>)
    requires v.NewtypeStruct? && Readable(v)
    ensures AnyDe.DecodeAny(AnySer.Encode(v) + rest) == Ok((ToValue(v), rest))
    decreases v, 1
  {
    var x := v.inner;
    assert AnySer.Encode(v) == [AnySer.TagByte(Tags.NewTypeStruct)] + AnySer.Encode(x);
    AppendAssoc([AnySer.TagByte(Tags.NewTypeStruct)], AnySer.Encode(x), rest);
    PeekTagAt(Tags.NewTypeStruct, [AnySer.TagByte(Tags.NewTypeStruct)] + (AnySer.Encode(x) + rest));
    DispatchNewtype([AnySer.TagByte(Tags.NewTypeStruct)] + (AnySer.Encode(x) + rest));
    AnyRoundTrip.ExpectTagOf(Tags.NewTypeStruct, "NewTypeStruct", AnySer.Encode(x) + rest);
    DecodeAnyEncode(x, rest);
  }

  lemma AllReadableTail(es: seq<Data>)
    requires AllReadable(es) && |es| >= 1
    ensures AllReadable(es[1..])
  {
    forall j | 0 <= j < |es[1..]|
      ensures Readable(es[1..][j])
    {
      assert es[1..][j] == es[j + 1];
    }
  }

  lemma EntriesReadableTail(ents: seq<Entry>)
    requires EntriesReadable(ents) && |ents| >= 1
    ensures EntriesReadable(ents[1..])
  {
    forall j | 0 <= j < |ents[1..]|
      ensures Readable(ents[1..][j].key) && Readable(ents[1..][j].value)
    {
      assert ents[1..][j] == ents[j + 1];
    }
  }

  /** `n` values read with `deserialize_any` are the elements, in order. */
  lemma {:induction false} AnyElemsOf(es: seq<Data>, rest: seq<u8>)
    requires AllReadable(es)
    ensures AnyDe.AnyElems(|es|, AnySer.EncodeList(es) + rest) == Ok((ToValues(es), rest))
    decreases es, 0
  {
    if es != [] {
      var tail := AnySer.EncodeList(es[1..]);
      AnyRoundTrip.EncodeListFirst(es);
      AppendAssoc(AnySer.Encode(es[0]), tail, rest);
      DecodeAnyEncode(es[0], tail + rest);
      AllReadableTail(es);
      AnyElemsOf(es[1..], rest);
      assert AnyDe.AnyElems(|es| - 1, tail + rest) == Ok((ToValues(es[1..]), rest));
    } else {
      assert AnySer.EncodeList(es) + rest == rest;
    }
  }

  lemma {:induction false} AnyEntriesOf(ents: seq<Entry>, rest: seq<u8>)
    requires EntriesReadable(ents)
    ensures AnyDe.AnyEntries(|ents|, AnySer.EncodeEntries(ents) + rest) == Ok((ToEntries(ents), rest))
    decreases ents, 0
  {
    if ents != [] {
      var tail := AnySer.EncodeEntries(ents[1..]);
      AnyRoundTrip.EncodeEntriesFirst(ents);
      AppendAssoc(AnySer.EncodeEntry(ents[0]), tail, rest);
      AnyEntryOf(ents[0], tail + rest);
      EntriesReadableTail(ents);
      AnyEntriesOf(ents[1..], rest);
      assert AnyDe.AnyEntries(|ents| - 1, tail + rest) == Ok((ToEntries(ents[1..]), rest));
    } else {
      assert AnySer.EncodeEntries(ents) + rest == rest;
    }
  }

  /** One entry: its key, then its value, both read with `deserialize_any`. */
  lemma {:induction false} AnyEntryOf(e: Entry, rest: seq<u8>)
    requires Readable(e.key) && Readable(e.value)
    ensures AnyDe.AnyEntry(AnySer.EncodeEntry(e) + rest) == Ok((ToEntry(e), rest))
    decreases e, 1
  {
    AppendAssoc(AnySer.Encode(e.key), AnySer.Encode(e.value), rest);
    DecodeAnyEncode(e.key, AnySer.Encode(e.value) + rest);
    DecodeAnyEncode(e.value, rest);
  }

  /** The fields from position `index` on, each keyed by its position. */
  lemma {:induction false} AnyFieldsOf(fs: seq<Data>, index: nat, rest: seq<u8>)
    requires AllReadable(fs)
    ensures AnyDe.AnyFields(|fs|, index, AnySer.EncodeList(fs) + rest) == Ok((ToFields(fs, index), rest))
    decreases fs, 0
  {
    if fs != [] {
      var tail := AnySer.EncodeList(fs[1..]);
      AnyRoundTrip.EncodeListFirst(fs);
      AppendAssoc(AnySer.Encode(fs[0]), tail, rest);
      DecodeAnyEncode(fs[0], tail + rest);
      AllReadableTail(fs);
      AnyFieldsOf(fs[1..], index + 1, rest);
      assert AnyDe.AnyFields(|fs| - 1, index + 1, tail + rest) == Ok((ToFields(fs[1..], index + 1), rest));
    } else {
      assert AnySer.EncodeList(fs) + rest == rest;
    }
  }

  /** The elements of a readable sequence, tuple or tuple struct are
      readable. */
  lemma ElemsReadable(v: Data)
    requires (v.Tuple? || v.TupleStruct? || v.Seq?) && Readable(v)
    ensures AllReadable(v.elems)
  {
    assert AllWellFormed(v.elems);
    forall j | 0 <= j < |v.elems|
      ensures Readable(v.elems[j])
    {
      assert WellFormed(v.elems[j]);
    }
  }

  lemma FieldsReadable(v: Data)
    requires v.Struct? && Readable(v)
    ensures AllReadable(v.fields)
  {
    assert AllWellFormed(v.fields);
    forall j | 0 <= j < |v.fields|
      ensures Readable(v.fields[j])
    {
      assert WellFormed(v.fields[j]);
    }
  }

  lemma EntriesReadableOf(v: Data)
    requires v.Map? && Readable(v)
    ensures EntriesReadable(v.entries)
  {
  }

  /** A tuple tag and a one-byte count followed by `n` values. */
  lemma CountedHeader(t: Tags.Tag, what: string, n: nat, tail: seq<u8>, elems: seq<Values.Value>, rest: seq<u8>)
    requires (t == Tags.Tuple && what == "Tuple") || (t == Tags.TupleStruct && what == "TupleStruct")
    requires n < 256 && AnyDe.AnyElems(n, tail) == Ok((elems, rest))
    ensures AnyDe.DecodeAny([AnySer.TagByte(t)] + [n as u8] + tail) == Ok((Values.Array(elems), rest))
  {
    var input := [AnySer.TagByte(t)] + ([n as u8] + tail);
    AppendAssoc([AnySer.TagByte(t)], [n as u8], tail);
    PeekTagAt(t, input);
    DispatchCounted(t, what, input);
    AnyRoundTrip.ExpectTagOf(t, what, [n as u8] + tail);
    AnyRoundTrip.PopSliceOf([n as u8], tail);
  }

  /** A `Seq` tag and a `usize` length followed by `n` values. */
  lemma SeqHeader(n: nat, tail: seq<u8>, elems: seq<Values.Value>, rest: seq<u8>)
    requires n < MaxLen && AnyDe.AnyElems(n, tail) == Ok((elems, rest))
    ensures AnyDe.DecodeAny([AnySer.TagByte(Tags.Seq)] + BeBytes(n, 8) + tail) == Ok((Values.Array(elems), rest))
  {
    var input := [AnySer.TagByte(Tags.Seq)] + (BeBytes(n, 8) + tail);
    AppendAssoc([AnySer.TagByte(Tags.Seq)], BeBytes(n, 8), tail);
    PeekTagAt(Tags.Seq, input);
    DispatchSeq(input);
    AnyRoundTrip.PopTagOf(Tags.Seq, BeBytes(n, 8) + tail);
    AnyRoundTrip.MaxLenFits();
    AnyRoundTrip.PopUsizeOf(n, tail);
    assert AnyDe.AnySeq(input) == Ok((Values.Array(elems), rest));
  }

  /** A `Map` tag and a `usize` length followed by `n` entries. */
  lemma MapHeader(n: nat, tail: seq<u8>, ents: seq<Values.ValueEntry>, rest: seq<u8>)
    requires n < MaxLen && AnyDe.AnyEntries(n, tail) == Ok((ents, rest))
    ensures AnyDe.DecodeAny([AnySer.TagByte(Tags.Map)] + BeBytes(n, 8) + tail) == Ok((Values.Map(ents), rest))
  {
    var input := [AnySer.TagByte(Tags.Map)] + (BeBytes(n, 8) + tail);
    AppendAssoc([AnySer.TagByte(Tags.Map)], BeBytes(n, 8), tail);
    PeekTagAt(Tags.Map, input);
    DispatchMap(input);
    AnyRoundTrip.PopTagOf(Tags.Map, BeBytes(n, 8) + tail);
    AnyRoundTrip.MaxLenFits();
    AnyRoundTrip.PopUsizeOf(n, tail);
    assert AnyDe.AnyMap(input) == Ok((Values.Map(ents), rest));
  }

  /** A `Struct` tag and a one-byte count followed by `n` fields. */
  lemma StructHeader(n: nat, tail: seq<u8>, ents: seq<Values.ValueEntry>, rest: seq<u8>)
    requires n < 256 && AnyDe.AnyFields(n, 0, tail) == Ok((ents, rest))
    ensures AnyDe.DecodeAny([AnySer.TagByte(Tags.Struct)] + [n as u8] + tail) == Ok((Values.Map(ents), rest))
  {
    var input := [AnySer.TagByte(Tags.Struct)] + ([n as u8] + tail);
    AppendAssoc([AnySer.TagByte(Tags.Struct)], [n as u8], tail);
    PeekTagAt(Tags.Struct, input);
    DispatchStruct(input);
    AnyRoundTrip.ExpectTagOf(Tags.Struct, "Struct", [n as u8] + tail);
    AnyRoundTrip.PopSliceOf([n as u8], tail);
  }

  lemma {:induction false} AnyCountedOf(v: Data, rest: seq<u8>)
    requires (v.Tuple? || v.TupleStruct?) && Readable(v)
    ensures AnyDe.DecodeAny(AnySer.Encode(v) + rest) == Ok((ToValue(v), rest))
    decreases v, 1
  {
    var es := v.elems;
    var t, what := if v.Tuple? then Tags.Tuple else Tags.TupleStruct, if v.Tuple? then "Tuple" else "TupleStruct";
    assert |es| < 256;
    assert AnySer.Encode(v) == [AnySer.TagByte(t)] + [|es| as u8] + AnySer.EncodeList(es);
    AppendAssoc([AnySer.TagByte(t)] + [|es| as u8], AnySer.EncodeList(es), rest);
    assert ToValue(v) == Values.Array(ToValues(es));
    ElemsReadable(v);
    AnyElemsOf(es, rest);
    CountedHeader(t, what, |es|, AnySer.EncodeList(es) + rest, ToValues(es), rest);
  }

  lemma {:induction false} AnySeqOf(v: Data, rest: seq<u8>)
    requires v.Seq? && Readable(v)
    ensures AnyDe.DecodeAny(AnySer.Encode(v) + rest) == Ok((ToValue(v), rest))
    decreases v, 1
  {
    var es := v.elems;
    assert v.known && |es| < MaxLen;
    assert AnySer.Encode(v) == [AnySer.TagByte(Tags.Seq)] + BeBytes(|es|, 8) + AnySer.EncodeList(es);
    AppendAssoc([AnySer.TagByte(Tags.Seq)] + BeBytes(|es|, 8), AnySer.EncodeList(es), rest);
    assert ToValue(v) == Values.Array(ToValues(es));
    ElemsReadable(v);
    AnyElemsOf(es, rest);
    SeqHeader(|es|, AnySer.EncodeList(es) + rest, ToValues(es), rest);
  }

  lemma {:induction false} AnyMapOf(v: Data, rest: seq<u8>)
    requires v.Map? && Readable(v)
    ensures AnyDe.DecodeAny(AnySer.Encode(v) + rest) == Ok((ToValue(v), rest))
    decreases v, 1
  {
    var ents := v.entries;
    assert v.known && |ents| < MaxLen;
    assert AnySer.Encode(v) == [AnySer.TagByte(Tags.Map)] + BeBytes(|ents|, 8) + AnySer.EncodeEntries(ents);
    AppendAssoc([AnySer.TagByte(Tags.Map)] + BeBytes(|ents|, 8), AnySer.EncodeEntries(ents), rest);
    assert ToValue(v) == Values.Map(ToEntries(ents));
    EntriesReadableOf(v);
    AnyEntriesOf(ents, rest);
    MapHeader(|ents|, AnySer.EncodeEntries(ents) + rest, ToEntries(ents), rest);
  }

  lemma {:induction false} AnyStructOf(v: Data, rest: seq<u8>)
    requires v.Struct? && Readable(v)
    ensures AnyDe.DecodeAny(AnySer.Encode(v) + rest) == Ok((ToValue(v), rest))
    decreases v, 1
  {
    var fs := v.fields;
    assert |fs| < 256;
    assert AnySer.Encode(v) == [AnySer.TagByte(Tags.Struct)] + [|fs| as u8] + AnySer.EncodeList(fs);
    AppendAssoc([AnySer.TagByte(Tags.Struct)] + [|fs| as u8], AnySer.EncodeList(fs), rest);
    assert ToValue(v) == Values.Map(ToFields(fs, 0));
    FieldsReadable(v);
    AnyFieldsOf(fs, 0, rest);
    StructHeader(|fs|, AnySer.EncodeList(fs) + rest, ToFields(fs, 0), rest);
  }
}
