/** The untagged decoder of src/de.rs as functions of the input still to be
    read, in the style of module `AnyDe`: nothing in the input says what
    comes next, so every step is chosen by the shape that is asked for. The
    `Deserializer` class of module `LegacyDeserializer` performs the same
    steps on a mutable cursor. */
module LegacyDe {
  import opened Bytes
  import opened Wrappers
  import opened Errors
  import opened DataModel
  import AnyDe
  import Values

  type Parsed<T> = AnyDe.Parsed<T>

  // ---------------------------------------------------------------------
  // Cursor operations
  // ---------------------------------------------------------------------

  /** `pop_n::<N>()`: the first `n` bytes, or `Eof` when fewer remain. */
  function PopN(input: seq<u8>, n: nat): (r: Parsed<seq<u8>>)
    ensures r == AnyDe.PopSlice(input, n)
    ensures r.Ok? <==> n <= |input|
    ensures r.Ok? ==> |r.value.0| == n && r.value.0 + r.value.1 == input
  {
    AnyDe.PopSlice(input, n)
  }

  /** `pop_usize`: `pop_n::<8>` read as a big-endian `u64`. */
  function PopUsize(input: seq<u8>): (r: Parsed<nat>)
    ensures r == AnyDe.PopUsize(input)
    ensures r.Ok? <==> |input| >= 8
    ensures r.Ok? ==> input == BeBytes(r.value.0, 8) + r.value.1
  {
    AnyDe.PopUsize(input)
  }

  /** `pop_slice`: a `usize` length, then that many bytes. */
  function PopSlice(input: seq<u8>): (r: Parsed<seq<u8>>)
    ensures r.Ok? <==> |input| >= 8 && FromBe(input[..8]) <= |input| - 8
    ensures r.Ok? ==> input == BeBytes(|r.value.0|, 8) + r.value.0 + r.value.1
    ensures r.Err? ==> r.error == Eof
    ensures r.Ok? ==> r.value == (input[8..8 + FromBe(input[..8])], input[8 + FromBe(input[..8])..])
  {
    var n :- PopUsize(input);
    assert n.1 == input[8..] && n.0 == FromBe(input[..8]) by {
      FromBeBytes(n.0, 8);
      assert input[..8] == BeBytes(n.0, 8);
    }
    var p :- PopN(n.1, n.0);
    assert input == BeBytes(|p.0|, 8) + p.0 + p.1;
    Ok(p)
  }

  /** `parse_str`: a slice that must be well-formed UTF-8. */
  function ParseStr(input: seq<u8>): (r: Parsed<string>)
    ensures r.Ok? ==> |r.value.1| < |input|
    ensures PopSlice(input).Err? ==> r == Err(Eof)
    ensures PopSlice(input).Ok? ==> (r.Ok? <==> DecodeUtf8(PopSlice(input).value.0).Some?)
    ensures PopSlice(input).Ok? && DecodeUtf8(PopSlice(input).value.0).None? ==> r == Err(InvalidStr)
    ensures r.Ok? ==>
      r.value == (DecodeUtf8(PopSlice(input).value.0).value, PopSlice(input).value.1)
  {
    var p :- PopSlice(input);
    match DecodeUtf8(p.0)
    case None => Err(InvalidStr)
    case Some(text) => Ok((text, p.1))
  }

  /** What `char::from_u32` accepts: a Unicode scalar value. */
  predicate IsScalarValue(c: nat)
  {
    c < 0xD800 || 0xE000 <= c < 0x11_0000
  }

  // ---------------------------------------------------------------------
  // Typed decoding: what `T::deserialize` reads for a type of shape `s`
  // ---------------------------------------------------------------------

  function Decode(s: Shape, input: seq<u8>): (r: Parsed<Data>)
    ensures r.Ok? ==> |r.value.1| <= |input|
    decreases s, 2, 0
  {
    match s
    case SBool => DecodeBool(input)
    case SInt(t) => DecodeInt(t, input)
    case SFloat32 => DecodeFloat32(input)
    case SFloat64 => DecodeFloat64(input)
    case SChar => DecodeChar(input)
    case SStr => DecodeStr(input)
    case SBytes => DecodeBytes(input)
    case SOption(_) => DecodeOption(s, input)
    case SUnit => Ok((Unit, input))
    case SUnitStruct => Ok((UnitStruct, input))
    case SNewtypeStruct(x) =>
      var q :- Decode(x, input);
      Ok((NewtypeStruct(q.0), q.1))
    case STuple(ss) =>
      var q :- DecodeElems(ss, input);
      Ok((Tuple(q.0), q.1))
    case STupleStruct(ss) =>
      var q :- DecodeElems(ss, input);
      Ok((TupleStruct(q.0), q.1))
    case SSeq(_) => DecodeSeq(s, input)
    case SMap(_, _) => DecodeMap(s, input)
    case SStruct(fs) =>
      var q :- DecodeElems(fs, input);
      Ok((Struct(q.0), q.1))
    case SEnum(_) => DecodeEnum(s, input)
  }

  /** `deserialize_bool`: one byte, 0 or 1. */
  function DecodeBool(input: seq<u8>): (r: Parsed<Data>)
    ensures r.Ok? <==> |input| >= 1 && input[0] <= 1
    ensures r.Ok? ==> r.value == (Bool(input[0] == 1), input[1..])
    ensures |input| >= 1 && input[0] > 1 ==> r == Err(InvalidBool(input[0]))
    ensures |input| == 0 ==> r == Err(Eof)
  {
    var p :- PopN(input, 1);
    match p.0[0]
    case 0 => Ok((Bool(false), p.1))
    case 1 => Ok((Bool(true), p.1))
    case b => Err(InvalidBool(b))
  }

  /** `deserialize_iN` / `deserialize_uN`: `from_be_bytes` of the width. */
  function DecodeInt(t: IntType, input: seq<u8>): (r: Parsed<Data>)
    ensures r.Ok? <==> |input| >= t.Size()
    ensures r.Ok? ==> r.value.0.Int? && r.value.0.ty == t
    ensures r.Ok? ==> InRange(r.value.0.x, t.Size(), t.Signed())
    ensures r.Ok? ==> r.value == (Int(t, IntFromBytes(input[..t.Size()], t.Signed())), input[t.Size()..])
    ensures r.Err? ==> r == Err(Eof)
  {
    var p :- PopN(input, t.Size());
    Ok((Int(t, IntFromBytes(p.0, t.Signed())), p.1))
  }

  /** `deserialize_f32`: the bits of `f32::from_be_bytes`. */
  function DecodeFloat32(input: seq<u8>): (r: Parsed<Data>)
    ensures r.Ok? <==> |input| >= 4
    ensures r.Err? ==> r == Err(Eof)
    ensures r.Ok? ==> r.value == (Float32(FromBe(input[..4])), input[4..])
  {
    var p :- PopN(input, 4);
    Ok((Float32(FromBe(p.0)), p.1))
  }

  /** `deserialize_f64`: the bits of `f64::from_be_bytes`. */
  function DecodeFloat64(input: seq<u8>): (r: Parsed<Data>)
    ensures r.Ok? <==> |input| >= 8
    ensures r.Err? ==> r == Err(Eof)
    ensures r.Ok? ==> r.value == (Float64(FromBe(input[..8])), input[8..])
  {
    var p :- PopN(input, 8);
    Ok((Float64(FromBe(p.0)), p.1))
  }

  /** `deserialize_str` / `deserialize_string`: `parse_str`. */
  function DecodeStr(input: seq<u8>): (r: Parsed<Data>)
    ensures r.Ok? <==> ParseStr(input).Ok?
    ensures PopSlice(input).Err? ==> r == Err(Eof)
    ensures PopSlice(input).Ok? && DecodeUtf8(PopSlice(input).value.0).None? ==> r == Err(InvalidStr)
    ensures r.Ok? ==>
      r.value == (Str(DecodeUtf8(PopSlice(input).value.0).value), PopSlice(input).value.1)
  {
    var p :- ParseStr(input);
    Ok((Str(p.0), p.1))
  }

  /** `deserialize_bytes` / `deserialize_byte_buf`: `pop_slice`. */
  function DecodeBytes(input: seq<u8>): (r: Parsed<Data>)
    ensures r.Ok? <==> PopSlice(input).Ok?
    ensures r.Err? ==> r == Err(Eof)
    ensures r.Ok? ==> r.value == (ByteArray(PopSlice(input).value.0), PopSlice(input).value.1)
  {
    var p :- PopSlice(input);
    Ok((ByteArray(p.0), p.1))
  }

  /** `deserialize_char`: a big-endian `u32` that must be a scalar value. */
  function DecodeChar(input: seq<u8>): (r: Parsed<Data>)
    ensures r.Ok? <==> |input| >= 4 && IsScalarValue(FromBe(input[..4]))
    ensures |input| < 4 ==> r == Err(Eof)
    ensures r.Ok? ==> r.value == (Char(FromBe(input[..4]) as char), input[4..])
    ensures |input| >= 4 && !IsScalarValue(FromBe(input[..4])) ==> r == Err(InvalidChar(FromBe(input[..4])))
  {
    var p :- PopN(input, 4);
    var c := FromBe(p.0);
    if IsScalarValue(c) then Ok((Char(c as char), p.1)) else Err(InvalidChar(c))
  }

  /** `deserialize_option`: a byte 0 (`None`) or 1 (`Some` and the content). */
  function DecodeOption(s: Shape, input: seq<u8>): (r: Parsed<Data>)
    requires s.SOption?
    ensures r.Ok? ==> |r.value.1| < |input|
    ensures |input| == 0 ==> r == Err(Eof)
    ensures |input| >= 1 && input[0] == 0 ==> r == Ok((NoneValue, input[1..]))
    ensures |input| >= 1 && input[0] == 1 ==>
      (r.Ok? <==> Decode(s.inner, input[1..]).Ok?) &&
      (r.Ok? ==> r.value == (SomeValue(Decode(s.inner, input[1..]).value.0), Decode(s.inner, input[1..]).value.1))
    ensures |input| >= 1 && input[0] > 1 ==> r == Err(InvalidOptionTag(input[0]))
    decreases s, 1, 0
  {
    var p :- PopN(input, 1);
    match p.0[0]
    case 0 => Ok((NoneValue, p.1))
    case 1 =>
      var q :- Decode(s.inner, p.1);
      Ok((SomeValue(q.0), q.1))
    case b => Err(InvalidOptionTag(b))
  }

  /** `SeqDeserializer::new_with_len(len)` read to the end: one element of
      each shape of `ss`, in order, with no count in the input. */
  function DecodeElems(ss: seq<Shape>, input: seq<u8>): (r: Parsed<seq<Data>>)
    ensures r.Ok? ==> |r.value.1| <= |input| && |r.value.0| == |ss|
    ensures r.Ok? && ss != [] ==> Decode(ss[0], input).Ok? && r.value.0[0] == Decode(ss[0], input).value.0
    decreases ss, 0, 0
  {
    if ss == [] then Ok(([], input))
    else
      var p :- Decode(ss[0], input);
      var q :- DecodeElems(ss[1..], p.1);
      Ok(([p.0] + q.0, q.1))
  }

  /** `deserialize_seq`: `SeqDeserializer::new` pops a `usize` count, then
      that many elements. */
  function DecodeSeq(s: Shape, input: seq<u8>): (r: Parsed<Data>)
    requires s.SSeq?
    ensures r.Ok? ==> |r.value.1| < |input|
    ensures |input| < 8 ==> r == Err(Eof)
    ensures r.Ok? ==> |input| >= 8 && r.value.0.Seq? && r.value.0.known
    ensures r.Ok? ==> |r.value.0.elems| == FromBe(input[..8])
    decreases s, 1, 0
  {
    var n :- PopUsize(input);
    var q :- DecodeRepeat(s, n.0, n.1);
    Ok((Seq(true, q.0), q.1))
  }

  function DecodeRepeat(s: Shape, n: nat, input: seq<u8>): (r: Parsed<seq<Data>>)
    requires s.SSeq?
    ensures r.Ok? ==> |r.value.1| <= |input| && |r.value.0| == n
    ensures r.Ok? && n > 0 ==> Decode(s.elem, input).Ok? && r.value.0[0] == Decode(s.elem, input).value.0
    decreases s, 0, n
  {
    if n == 0 then Ok(([], input))
    else
      var p :- Decode(s.elem, input);
      var q :- DecodeRepeat(s, n - 1, p.1);
      Ok(([p.0] + q.0, q.1))
  }

  /** `deserialize_map`: a `usize` count, then that many keys, each
      followed by its value. */
  function DecodeMap(s: Shape, input: seq<u8>): (r: Parsed<Data>)
    requires s.SMap?
    ensures r.Ok? ==> |r.value.1| < |input|
    ensures |input| < 8 ==> r == Err(Eof)
    ensures r.Ok? ==> |input| >= 8 && r.value.0.Map? && r.value.0.known
    ensures r.Ok? ==> |r.value.0.entries| == FromBe(input[..8])
    decreases s, 1, 0
  {
    var n :- PopUsize(input);
    var q :- DecodeEntries(s, n.0, n.1);
    Ok((Map(true, q.0), q.1))
  }

  function DecodeEntries(s: Shape, n: nat, input: seq<u8>): (r: Parsed<seq<Entry>>)
    requires s.SMap?
    ensures r.Ok? ==> |r.value.1| <= |input| && |r.value.0| == n
    ensures r.Ok? && n > 0 ==> Decode(s.key, input).Ok? && r.value.0[0].key == Decode(s.key, input).value.0
    decreases s, 0, n
  {
    if n == 0 then Ok(([], input))
    else
      var k :- Decode(s.key, input);
      var v :- Decode(s.value, k.1);
      var q :- DecodeEntries(s, n - 1, v.1);
      Ok(([Entry(k.0, v.0)] + q.0, q.1))
  }

  // ---------------------------------------------------------------------
  // Enums
  // ---------------------------------------------------------------------

  /** `deserialize_identifier` is `deserialize_u32`: a 4-byte index. */
  function DecodeIdentifier(input: seq<u8>): (r: Parsed<nat>)
    ensures r.Ok? <==> |input| >= 4
    ensures r.Err? ==> r == Err(Eof)
    ensures r.Ok? ==> input == BeBytes(r.value.0, 4) + r.value.1
  {
    var p :- PopN(input, 4);
    BeBytesFromBe(p.0);
    Ok((FromBe(p.0), p.1))
  }

  /** `deserialize_enum` with `EnumDeserializer`: the variant index, which
      the derived visitor resolves, then the payload of that variant. */
  function DecodeEnum(s: Shape, input: seq<u8>): (r: Parsed<Data>)
    requires s.SEnum?
    ensures r.Ok? ==> |r.value.1| < |input|
    ensures |input| < 4 ==> r == Err(Eof)
    ensures |input| >= 4 && FromBe(input[..4]) >= |s.variants| ==> r == Err(UnknownVariant)
    ensures |input| >= 4 && FromBe(input[..4]) < |s.variants| ==>
      r == DecodeVariant(s, FromBe(input[..4]), input[4..])
    decreases s, 1, 0
  {
    var p :- DecodeIdentifier(input);
    var i :- AnyDe.ResolveVariant(s.variants, AnyDe.Index(p.0));
    DecodeVariant(s, i, p.1)
  }

  /** `VariantAccess` of `EnumDeserializer`: nothing for a unit variant, the
      content for a newtype variant, and the declared number of elements,
      uncounted, for tuple and struct variants. */
  function DecodeVariant(s: Shape, i: nat, input: seq<u8>): (r: Parsed<Data>)
    requires s.SEnum? && i < |s.variants|
    ensures r.Ok? ==> |r.value.1| <= |input|
    decreases s, 0, 0
  {
    match s.variants[i].kind
    case VUnit => Ok((UnitVariant(i), input))
    case VNewtype(x) =>
      var q :- Decode(x, input);
      Ok((NewtypeVariant(i, q.0), q.1))
    case VTuple(ss) =>
      var q :- DecodeElems(ss, input);
      Ok((TupleVariant(i, q.0), q.1))
    case VStruct(fs) =>
      var q :- DecodeElems(fs, input);
      Ok((StructVariant(i, q.0), q.1))
  }

  /** `deserialize_any`: the untagged format cannot describe itself, so any
      schema-less request fails before reading anything. */
  function DecodeAny(input: seq<u8>): (r: Parsed<Values.Value>)
    ensures r.Err? && r.error.Unimplemented?
  {
    Err(Unimplemented("serde::de::Deserializer::deserialize_any"))
  }

  /** `deserialize_ignored_any`: skipping a value is not possible either. */
  function DecodeIgnoredAny(input: seq<u8>): (r: Parsed<()>)
    ensures r.Err? && r.error.Unimplemented?
  {
    Err(Unimplemented("serde::de::Deserializer::deserialize_ignored_any"))
  }

  /** `from_bytes`: decode, then insist that nothing is left. */
  function FromBytes(s: Shape, input: seq<u8>): (r: Wrappers.Result<Data, Error>)
    ensures r.Ok? <==> Decode(s, input).Ok? && Decode(s, input).value.1 == []
    ensures r.Ok? ==> r.value == Decode(s, input).value.0
    ensures Decode(s, input).Err? ==> r == Err(Decode(s, input).error)
    ensures Decode(s, input).Ok? && Decode(s, input).value.1 != [] ==>
      r == Err(TrailingBytes(|Decode(s, input).value.1|))
  {
    var p :- Decode(s, input);
    if |p.1| == 0 then Ok(p.0) else Err(TrailingBytes(|p.1|))
  }
}
