/** The untagged decoder of src/de.rs as it runs: a `Deserializer` whose
    `input` is replaced by a shorter suffix at every pop, the
    `SeqDeserializer` accessor with its counter, and the visitor loops that
    drain it. Every method is specified by the decoding function of module
    `LegacyDe` for the same step, through the `Follows` relation of module
    `AnyDeserializer`: it yields what the function yields and leaves `input`
    equal to the rest the function returns, or fails with the same error. */
module LegacyDeserializer {
  import opened Bytes
  import opened Wrappers
  import opened Errors
  import opened DataModel
  import AnyDe
  import LegacyDe
  import Values
  import AnyDeserializer

  class Deserializer {
    /** The bytes not read yet. */
    var input: seq<u8>

    constructor (input: seq<u8>)
      ensures this.input == input
    {
      this.input := input;
    }

    // -------------------------------------------------------------------
    // Cursor operations
    // -------------------------------------------------------------------

    /** `pop_n::<N>`: `get(..N)`, `Eof` when it is out of range. */
    method PopN(n: nat) returns (r: Errors.Result<seq<u8>>)
      modifies this
      ensures AnyDeserializer.Follows(r, input, LegacyDe.PopN(old(input), n))
      ensures r.Ok? ==> |r.value| == n
    {
      if |input| < n {
        return Err(Eof);
      }
      r := Ok(input[..n]);
      input := input[n..];
    }

    method PopUsize() returns (r: Errors.Result<nat>)
      modifies this
      ensures AnyDeserializer.Follows(r, input, LegacyDe.PopUsize(old(input)))
    {
      var bytes :- PopN(8);
      r := Ok(FromBe(bytes));
    }

    method PopSlice() returns (r: Errors.Result<seq<u8>>)
      modifies this
      ensures AnyDeserializer.Follows(r, input, LegacyDe.PopSlice(old(input)))
    {
      var len :- PopUsize();
      r := PopN(len);
    }

    method ParseStr() returns (r: Errors.Result<string>)
      modifies this
      ensures AnyDeserializer.Follows(r, input, LegacyDe.ParseStr(old(input)))
    {
      var bytes :- PopSlice();
      match DecodeUtf8(bytes)
      case None =>
        r := Err(InvalidStr);
      case Some(text) =>
        r := Ok(text);
    }

    // -------------------------------------------------------------------
    // Typed decoding
    // -------------------------------------------------------------------

    /** `T::deserialize(&mut deserializer)` for a type of shape `s`. */
    method Deserialize(s: Shape) returns (r: Errors.Result<Data>)
      modifies this
      ensures AnyDeserializer.Follows(r, input, LegacyDe.Decode(s, old(input)))
      decreases s, 2
    {
      match s
      case SBool => r := DeserializeBool();
      case SInt(t) => r := DeserializeInt(t);
      case SFloat32 => r := DeserializeFloat32();
      case SFloat64 => r := DeserializeFloat64();
      case SChar => r := DeserializeChar();
      case SStr => r := DeserializeStr();
      case SBytes => r := DeserializeBytes();
      case SOption(_) => r := DeserializeOption(s);
      case SUnit => r := DeserializeUnit();
      case SUnitStruct => r := DeserializeUnitStruct();
      case SNewtypeStruct(_) => r := DeserializeNewtypeStruct(s);
      case STuple(_) => r := DeserializeTuple(s);
      case STupleStruct(_) => r := DeserializeTupleStruct(s);
      case SSeq(_) => r := DeserializeSeq(s);
      case SMap(_, _) => r := DeserializeMap(s);
      case SStruct(_) => r := DeserializeStruct(s);
      case SEnum(_) => r := DeserializeEnum(s);
    }

    /** `deserialize_bool`: a 0 or 1 byte, `InvalidBool` for any other. */
    method DeserializeBool() returns (r: Errors.Result<Data>)
      modifies this
      ensures AnyDeserializer.Follows(r, input, LegacyDe.DecodeBool(old(input)))
    {
      var bytes :- PopN(1);
      var b := bytes[0];
      if b == 0 {
        r := Ok(Bool(false));
      } else if b == 1 {
        r := Ok(Bool(true));
      } else {
        r := Err(InvalidBool(b));
      }
    }

    /** `deserialize_i8` ... `deserialize_u128`. */
    method DeserializeInt(t: IntType) returns (r: Errors.Result<Data>)
      modifies this
      ensures AnyDeserializer.Follows(r, input, LegacyDe.DecodeInt(t, old(input)))
    {
      var bytes :- PopN(t.Size());
      r := Ok(Int(t, IntFromBytes(bytes, t.Signed())));
    }

    method DeserializeFloat32() returns (r: Errors.Result<Data>)
      modifies this
      ensures AnyDeserializer.Follows(r, input, LegacyDe.Decode(SFloat32, old(input)))
    {
      var bytes :- PopN(4);
      r := Ok(Float32(FromBe(bytes)));
    }

    method DeserializeFloat64() returns (r: Errors.Result<Data>)
      modifies this
      ensures AnyDeserializer.Follows(r, input, LegacyDe.Decode(SFloat64, old(input)))
    {
      var bytes :- PopN(8);
      r := Ok(Float64(FromBe(bytes)));
    }

    /** `deserialize_char`: `char::from_u32`, `InvalidChar` when it fails. */
    method DeserializeChar() returns (r: Errors.Result<Data>)
      modifies this
      ensures AnyDeserializer.Follows(r, input, LegacyDe.DecodeChar(old(input)))
    {
      var bytes :- PopN(4);
      var c := FromBe(bytes);
      if !LegacyDe.IsScalarValue(c) {
        return Err(InvalidChar(c));
      }
      r := Ok(Char(c as char));
    }

    /** `deserialize_str` and `deserialize_string`. */
    method DeserializeStr() returns (r: Errors.Result<Data>)
      modifies this
      ensures AnyDeserializer.Follows(r, input, LegacyDe.Decode(SStr, old(input)))
    {
      var text :- ParseStr();
      r := Ok(Str(text));
    }

    /** `deserialize_bytes` and `deserialize_byte_buf`. */
    method DeserializeBytes() returns (r: Errors.Result<Data>)
      modifies this
      ensures AnyDeserializer.Follows(r, input, LegacyDe.Decode(SBytes, old(input)))
    {
      var bytes :- PopSlice();
      r := Ok(ByteArray(bytes));
    }

    /** `deserialize_option`: 0 is `None`, 1 `Some`, anything else
        `InvalidOptionTag`. */
    method DeserializeOption(s: Shape) returns (r: Errors.Result<Data>)
      requires s.SOption?
      modifies this
      ensures AnyDeserializer.Follows(r, input, LegacyDe.DecodeOption(s, old(input)))
      decreases s, 1
    {
      var bytes :- PopN(1);
      var b := bytes[0];
      if b == 0 {
        r := Ok(NoneValue);
      } else if b == 1 {
        var inner :- Deserialize(s.inner);
        r := Ok(SomeValue(inner));
      } else {
        r := Err(InvalidOptionTag(b));
      }
    }

    /** `deserialize_unit`: reads nothing. */
    method DeserializeUnit() returns (r: Errors.Result<Data>)
      ensures AnyDeserializer.Follows(r, input, LegacyDe.Decode(SUnit, input))
    {
      r := Ok(Unit);
    }

    method DeserializeUnitStruct() returns (r: Errors.Result<Data>)
      ensures AnyDeserializer.Follows(r, input, LegacyDe.Decode(SUnitStruct, input))
    {
      r := Ok(UnitStruct);
    }

    /** `deserialize_newtype_struct`: the content, with no framing. */
    method DeserializeNewtypeStruct(s: Shape) returns (r: Errors.Result<Data>)
      requires s.SNewtypeStruct?
      modifies this
      ensures AnyDeserializer.Follows(r, input, LegacyDe.Decode(s, old(input)))
      decreases s, 1
    {
      var inner :- Deserialize(s.inner);
      r := Ok(NewtypeStruct(inner));
    }

    /** `deserialize_tuple`: `new_with_len(len)`, no count in the input. */
    method DeserializeTuple(s: Shape) returns (r: Errors.Result<Data>)
      requires s.STuple?
      modifies this
      ensures AnyDeserializer.Follows(r, input, LegacyDe.Decode(s, old(input)))
      decreases s, 1
    {
      var access := new SeqDeserializer(this, |s.elems|);
      var elems :- ReadElems(access, s.elems);
      r := Ok(Tuple(elems));
    }

    method DeserializeTupleStruct(s: Shape) returns (r: Errors.Result<Data>)
      requires s.STupleStruct?
      modifies this
      ensures AnyDeserializer.Follows(r, input, LegacyDe.Decode(s, old(input)))
      decreases s, 1
    {
      var access := new SeqDeserializer(this, |s.elems|);
      var elems :- ReadElems(access, s.elems);
      r := Ok(TupleStruct(elems));
    }

    /** `deserialize_struct`: a sequence of `fields.len()` values, read by
        the derived `visit_seq` in declaration order. */
    method DeserializeStruct(s: Shape) returns (r: Errors.Result<Data>)
      requires s.SStruct?
      modifies this
      ensures AnyDeserializer.Follows(r, input, LegacyDe.Decode(s, old(input)))
      decreases s, 1
    {
      var access := new SeqDeserializer(this, |s.fields|);
      var fields :- ReadElems(access, s.fields);
      r := Ok(Struct(fields));
    }

    /** `deserialize_seq`: `SeqDeserializer::new`, which pops the count. */
    method DeserializeSeq(s: Shape) returns (r: Errors.Result<Data>)
      requires s.SSeq?
      modifies this
      ensures AnyDeserializer.Follows(r, input, LegacyDe.DecodeSeq(s, old(input)))
      decreases s, 1
    {
      var len :- PopUsize();
      var access := new SeqDeserializer(this, len);
      var elems :- ReadRepeat(access, s);
      r := Ok(Seq(true, elems));
    }

    /** `deserialize_map`: the same accessor, as a `MapAccess`. */
    method DeserializeMap(s: Shape) returns (r: Errors.Result<Data>)
      requires s.SMap?
      modifies this
      ensures AnyDeserializer.Follows(r, input, LegacyDe.DecodeMap(s, old(input)))
      decreases s, 1
    {
      var len :- PopUsize();
      var access := new SeqDeserializer(this, len);
      var entries :- ReadEntries(access, s);
      r := Ok(Map(true, entries));
    }

    /** `deserialize_identifier`, which is `deserialize_u32`. */
    method DeserializeIdentifier() returns (r: Errors.Result<nat>)
      modifies this
      ensures AnyDeserializer.Follows(r, input, LegacyDe.DecodeIdentifier(old(input)))
    {
      var bytes :- PopN(4);
      r := Ok(FromBe(bytes));
    }

    /** `deserialize_enum` with `EnumDeserializer`: `variant_seed` reads the
        identifier, the derived visitor resolves it, and the `VariantAccess`
        call the variant's kind selects reads the payload. */
    method DeserializeEnum(s: Shape) returns (r: Errors.Result<Data>)
      requires s.SEnum?
      modifies this
      ensures AnyDeserializer.Follows(r, input, LegacyDe.DecodeEnum(s, old(input)))
      decreases s, 1
    {
      var index :- DeserializeIdentifier();
      var i :- AnyDe.ResolveVariant(s.variants, AnyDe.Index(index));
      r := DeserializeVariant(s, i);
    }

    /** `unit_variant`, `newtype_variant_seed`, `tuple_variant` and
        `struct_variant` of `EnumDeserializer`. */
    method DeserializeVariant(s: Shape, i: nat) returns (r: Errors.Result<Data>)
      requires s.SEnum? && i < |s.variants|
      modifies this
      ensures AnyDeserializer.Follows(r, input, LegacyDe.DecodeVariant(s, i, old(input)))
      decreases s, 0
    {
      match s.variants[i].kind
      case VUnit =>
        r := Ok(UnitVariant(i));
      case VNewtype(x) =>
        var inner :- Deserialize(x);
        r := Ok(NewtypeVariant(i, inner));
      case VTuple(ss) =>
        var access := new SeqDeserializer(this, |ss|);
        var elems :- ReadElems(access, ss);
        r := Ok(TupleVariant(i, elems));
      case VStruct(fs) =>
        var access := new SeqDeserializer(this, |fs|);
        var fields :- ReadElems(access, fs);
        r := Ok(StructVariant(i, fields));
    }

    /** `deserialize_any`: refused, and nothing is read. */
    method DeserializeAny() returns (r: Errors.Result<Values.Value>)
      ensures AnyDeserializer.Follows(r, input, LegacyDe.DecodeAny(input))
    {
      r := Err(Unimplemented("serde::de::Deserializer::deserialize_any"));
    }

    /** `deserialize_ignored_any`: refused, and nothing is read. */
    method DeserializeIgnoredAny() returns (r: Errors.Result<()>)
      ensures AnyDeserializer.Follows(r, input, LegacyDe.DecodeIgnoredAny(input))
    {
      r := Err(Unimplemented("serde::de::Deserializer::deserialize_ignored_any"));
    }
  }

  /** `from_bytes`: a `Deserializer` over `input`, one value, then
      `TrailingBytes` unless the input is used up. */
  method FromBytes(s: Shape, input: seq<u8>) returns (r: Errors.Result<Data>)
    ensures r == LegacyDe.FromBytes(s, input)
  {
    var de := new Deserializer(input);
    var d :- de.Deserialize(s);
    var len := |de.input|;
    if len == 0 {
      r := Ok(d);
    } else {
      r := Err(TrailingBytes(len));
    }
  }

  /** The accessor of src/de.rs for sequences, tuples, structs, maps and
      variant payloads: it hands out `remaining` more items. */
  class SeqDeserializer {
    const de: Deserializer
    var remaining: nat

    /** `new_with_len`; `new` is `pop_usize` followed by it. */
    constructor (de: Deserializer, len: nat)
      ensures this.de == de && remaining == len
    {
      this.de := de;
      remaining := len;
    }

    /** `next_element_seed`: nothing once the count is exhausted, otherwise
        one decoded element. */
    method NextElement(s: Shape) returns (r: Errors.Result<Option<Data>>)
      modifies this, de
      ensures old(remaining) == 0 ==> r == Ok(None) && remaining == 0 && de.input == old(de.input)
      ensures old(remaining) > 0 ==>
        remaining == old(remaining) - 1 &&
        AnyDeserializer.Follows(r, de.input, AnyDeserializer.Yielded(LegacyDe.Decode(s, old(de.input))))
      decreases s, 3
    {
      if remaining == 0 {
        return Ok(None);
      }
      remaining := remaining - 1;
      var d :- de.Deserialize(s);
      r := Ok(Some(d));
    }

    /** `next_key_seed`: the same count, decremented once per key. */
    method NextKey(s: Shape) returns (r: Errors.Result<Option<Data>>)
      modifies this, de
      ensures old(remaining) == 0 ==> r == Ok(None) && remaining == 0 && de.input == old(de.input)
      ensures old(remaining) > 0 ==>
        remaining == old(remaining) - 1 &&
        AnyDeserializer.Follows(r, de.input, AnyDeserializer.Yielded(LegacyDe.Decode(s, old(de.input))))
      decreases s, 4
    {
      if remaining == 0 {
        return Ok(None);
      }
      remaining := remaining - 1;
      var d :- de.Deserialize(s);
      r := Ok(Some(d));
    }

    /** `next_value_seed`: the value after a key, whatever the count. */
    method NextValue(s: Shape) returns (r: Errors.Result<Data>)
      modifies de
      ensures AnyDeserializer.Follows(r, de.input, LegacyDe.Decode(s, old(de.input)))
      decreases s, 3
    {
      r := de.Deserialize(s);
    }
  }

  /** The derived `visit_seq` of a tuple, tuple struct, struct or variant
      payload: one element of each component shape, in order. */
  method ReadElems(access: SeqDeserializer, ss: seq<Shape>) returns (r: Errors.Result<seq<Data>>)
    requires access.remaining == |ss|
    modifies access, access.de
    ensures AnyDeserializer.Follows(r, access.de.input, LegacyDe.DecodeElems(ss, old(access.de.input)))
    decreases ss, 1
  {
    var elems: seq<Data> := [];
    ghost var start := access.de.input;
    AnyDeserializer.ThenNone(LegacyDe.DecodeElems(ss, start));
    while |elems| < |ss|
      invariant access.remaining + |elems| == |ss|
      invariant LegacyDe.DecodeElems(ss, start) ==
        AnyDeserializer.Then(elems, LegacyDe.DecodeElems(ss[|elems|..], access.de.input))
      decreases |ss| - |elems|
    {
      ghost var before := access.de.input;
      var k := |elems|;
      assert ss[k..][0] == ss[k] && ss[k..][1..] == ss[k + 1..];
      var next := access.NextElement(ss[k]);
      if next.Err? {
        return Err(next.error);
      }
      var d := next.value.value;
      assert LegacyDe.DecodeElems(ss[k..], before) ==
        AnyDeserializer.Cons(d, LegacyDe.DecodeElems(ss[k + 1..], access.de.input));
      AnyDeserializer.ThenCons(elems, d, LegacyDe.DecodeElems(ss[k + 1..], access.de.input));
      elems := elems + [d];
    }
    assert ss[|elems|..] == [];
    AnyDeserializer.ThenAll(elems, access.de.input);
    return Ok(elems);
  }

  /** The derived `visit_seq` of a growable sequence: elements are taken
      until the accessor reports none is left. */
  method ReadRepeat(access: SeqDeserializer, s: Shape) returns (r: Errors.Result<seq<Data>>)
    requires s.SSeq?
    modifies access, access.de
    ensures AnyDeserializer.Follows(r, access.de.input,
      LegacyDe.DecodeRepeat(s, old(access.remaining), old(access.de.input)))
    decreases s, 0
  {
    var elems: seq<Data> := [];
    ghost var start := access.de.input;
    ghost var n := access.remaining;
    AnyDeserializer.ThenNone(LegacyDe.DecodeRepeat(s, n, start));
    while true
      invariant LegacyDe.DecodeRepeat(s, n, start) ==
        AnyDeserializer.Then(elems, LegacyDe.DecodeRepeat(s, access.remaining, access.de.input))
      decreases access.remaining
    {
      ghost var before := access.de.input;
      ghost var m := access.remaining;
      var next := access.NextElement(s.elem);
      if next.Err? {
        return Err(next.error);
      }
      match next.value
      case None =>
        AnyDeserializer.ThenAll(elems, access.de.input);
        return Ok(elems);
      case Some(d) =>
        assert LegacyDe.DecodeRepeat(s, m, before) ==
          AnyDeserializer.Cons(d, LegacyDe.DecodeRepeat(s, access.remaining, access.de.input));
        AnyDeserializer.ThenCons(elems, d, LegacyDe.DecodeRepeat(s, access.remaining, access.de.input));
        elems := elems + [d];
    }
  }

  /** The derived `visit_map` of a map type: a key, then its value, until no
      key is left. */
  method ReadEntries(access: SeqDeserializer, s: Shape) returns (r: Errors.Result<seq<Entry>>)
    requires s.SMap?
    modifies access, access.de
    ensures AnyDeserializer.Follows(r, access.de.input,
      LegacyDe.DecodeEntries(s, old(access.remaining), old(access.de.input)))
    decreases s, 0
  {
    var entries: seq<Entry> := [];
    ghost var start := access.de.input;
    ghost var n := access.remaining;
    AnyDeserializer.ThenNone(LegacyDe.DecodeEntries(s, n, start));
    while true
      invariant LegacyDe.DecodeEntries(s, n, start) ==
        AnyDeserializer.Then(entries, LegacyDe.DecodeEntries(s, access.remaining, access.de.input))
      decreases access.remaining
    {
      ghost var before := access.de.input;
      ghost var m := access.remaining;
      var key := access.NextKey(s.key);
      if key.Err? {
        return Err(key.error);
      }
      match key.value
      case None =>
        AnyDeserializer.ThenAll(entries, access.de.input);
        return Ok(entries);
      case Some(k) =>
        ghost var middle := access.de.input;
        var value := access.NextValue(s.value);
        if value.Err? {
          assert LegacyDe.Decode(s.key, before) == Ok((k, middle));
          return Err(value.error);
        }
        var e := Entry(k, value.value);
        assert LegacyDe.DecodeEntries(s, m, before) ==
          AnyDeserializer.Cons(e, LegacyDe.DecodeEntries(s, access.remaining, access.de.input));
        AnyDeserializer.ThenCons(entries, e, LegacyDe.DecodeEntries(s, access.remaining, access.de.input));
        entries := entries + [e];
    }
  }
}
