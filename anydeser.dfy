/** The self-describing decoder of src/any/de.rs as it runs: a `Deserializer`
    whose `input` is replaced by a shorter suffix at every pop, the
    `SeqDeserializer` and `StructDeserializer` accessors with their counters,
    and the visitor loops that drain them. Every method is specified by the
    decoding function of module `AnyDe` for the same step: it yields what the
    function yields and leaves `input` equal to the rest the function
    returns, or fails with the same error. */
module AnyDeserializer {
  import opened Bytes
  import opened Wrappers
  import opened Errors
  import opened DataModel
  import Tags
  import AnySer
  import AnyDe
  import Values

  type Tag = Tags.Tag
  type Value = Values.Value

  /** A cursor method's outcome `r`, with the input it left, agrees with the
      function `spec` of the input it started from. */
  predicate Follows<T(==)>(r: Errors.Result<T>, input: seq<u8>, spec: AnyDe.Parsed<T>)
  {
    match spec
    case Ok(p) => r == Ok(p.0) && input == p.1
    case Err(e) => r == Err(e)
  }

  /** The same as `Follows` for a step that only consumes input. */
  predicate Consumes(r: Errors.Result<()>, input: seq<u8>, spec: Errors.Result<seq<u8>>)
  {
    match spec
    case Ok(rest) => r == Ok(()) && input == rest
    case Err(e) => r == Err(e)
  }

  /** What an accessor's `next_*_seed` reports: the decoded item wrapped in
      `Some`. */
  function Yielded<T>(p: AnyDe.Parsed<T>): AnyDe.Parsed<Option<T>>
  {
    match p
    case Ok(q) => Ok((Some(q.0), q.1))
    case Err(e) => Err(e)
  }

  /** `acc` followed by the items a decoding function still has to read. */
  function Then<T>(acc: seq<T>, r: AnyDe.Parsed<seq<T>>): AnyDe.Parsed<seq<T>>
  {
    match r
    case Ok(p) => Ok((acc + p.0, p.1))
    case Err(e) => Err(e)
  }

  /** A decoding function that reads `x` first and then the items of `r`. */
  function Cons<T>(x: T, r: AnyDe.Parsed<seq<T>>): AnyDe.Parsed<seq<T>>
  {
    match r
    case Ok(p) => Ok(([x] + p.0, p.1))
    case Err(e) => Err(e)
  }

  // Bookkeeping for the loop invariants of the `visit_seq`/`visit_map`
  // readers below: sequence identities about `Then`, not properties of the
  // crate.

  /** Nothing read yet. */
  lemma ThenNone<T>(r: AnyDe.Parsed<seq<T>>)
    ensures Then([], r) == r
  {
    match r
    case Ok(p) =>
      assert [] + p.0 == p.0;
    case Err(_) =>
  }

  /** Nothing left to read. */
  lemma ThenAll<T>(acc: seq<T>, rest: seq<u8>)
    ensures Then(acc, Ok(([], rest))) == Ok((acc, rest))
  {
    assert acc + [] == acc;
  }

  /** One item moves from what is still to be read to what has been read. */
  lemma ThenCons<T>(acc: seq<T>, x: T, r: AnyDe.Parsed<seq<T>>)
    ensures Then(acc, Cons(x, r)) == Then(acc + [x], r)
  {
    match r
    case Ok(p) =>
      assert acc + ([x] + p.0) == (acc + [x]) + p.0;
    case Err(_) =>
  }

  /** A typed decoder's outcome handed to `ValueVisitor`. */
  function Scalar(d: Errors.Result<Data>): (r: Errors.Result<Value>)
    ensures d.Ok? <==> r.Ok?
    ensures d.Err? ==> r == Err(d.error)
  {
    match d
    case Ok(x) => Ok(AnyDe.ScalarValue(x))
    case Err(e) => Err(e)
  }

  class Deserializer {
    /** The bytes not read yet. */
    var input: seq<u8>

    constructor (input: seq<u8>)
      ensures this.input == input
    {
      this.input := input;
    }

    // -------------------------------------------------------------------
    // Cursor operations
    // -------------------------------------------------------------------

    method PopSlice(len: nat) returns (r: Errors.Result<seq<u8>>)
      modifies this
      ensures Follows(r, input, AnyDe.PopSlice(old(input), len))
    {
      if |input| < len {
        return Err(Eof);
      }
      r := Ok(input[..len]);
      input := input[len..];
    }

    /** `pop_n::<N>`: `pop_slice(N)` copied into an array of length `N`. */
    method PopN(n: nat) returns (r: Errors.Result<seq<u8>>)
      modifies this
      ensures Follows(r, input, AnyDe.PopSlice(old(input), n))
      ensures r.Ok? ==> |r.value| == n
    {
      r := PopSlice(n);
    }

    method PopTag() returns (r: Errors.Result<Tag>)
      modifies this
      ensures Follows(r, input, AnyDe.PopTag(old(input)))
    {
      var bytes :- PopN(1);
      match Tags.FromByte(bytes[0])
      case Ok(t) =>
        r := Ok(t);
      case Err(e) =>
        r := Err(TagParsingError(e));
    }

    method PeekTag() returns (r: Errors.Result<Tag>)
      ensures r == AnyDe.PeekTag(input)
    {
      if |input| == 0 {
        return Err(Eof);
      }
      match Tags.FromByte(input[0])
      case Ok(t) =>
        r := Ok(t);
      case Err(e) =>
        r := Err(TagParsingError(e));
    }

    method PopUsize() returns (r: Errors.Result<nat>)
      modifies this
      ensures Follows(r, input, AnyDe.PopUsize(old(input)))
    {
      var bytes :- PopN(8);
      r := Ok(FromBe(bytes));
    }

    /** `check_tag!(want, self.pop_tag()?, what)`. */
    method ExpectTag(want: Tag, what: string) returns (r: Errors.Result<()>)
      modifies this
      ensures Consumes(r, input, AnyDe.ExpectTag(want, what, old(input)))
    {
      var t :- PopTag();
      if t != want {
        return Unexpected(what, t);
      }
      r := Ok(());
    }

    // -------------------------------------------------------------------
    // Strings
    // -------------------------------------------------------------------

    method ParseStrInner(len: nat) returns (r: Errors.Result<string>)
      modifies this
      ensures Follows(r, input, AnyDe.ParseStrInner(old(input), len))
    {
      var bytes :- PopSlice(len);
      match DecodeUtf8(bytes)
      case None =>
        r := Err(InvalidStr);
      case Some(text) =>
        r := Ok(text);
    }

    /** The position of the first window of `input` equal to the end marker. */
    method MarkerPosition() returns (pos: Option<nat>)
      ensures pos == AnyDe.MarkerPosition(input)
    {
      var i := 0;
      while i + |AnySer.EndMarker| <= |input|
        invariant AnyDe.FindMarker(input, i) == AnyDe.MarkerPosition(input)
        decreases |input| - i
      {
        if input[i..i + |AnySer.EndMarker|] == AnySer.EndMarker {
          return Some(i);
        }
        i := i + 1;
      }
      return None;
    }

    method ParseUnknownLenStr() returns (r: Errors.Result<string>)
      modifies this
      ensures Follows(r, input, AnyDe.ParseUnknownLenStr(old(input)))
    {
      var pos := MarkerPosition();
      if pos.None? {
        return Err(Eof);
      }
      var text :- ParseStrInner(pos.value);
      // The marker was found inside the input, so this pop cannot fail.
      var _ := PopSlice(|AnySer.EndMarker|);
      r := Ok(text);
    }

    method ParseKnownLenStr() returns (r: Errors.Result<string>)
      modifies this
      ensures Follows(r, input, AnyDe.ParseKnownLenStr(old(input)))
    {
      var len :- PopUsize();
      r := ParseStrInner(len);
    }

    method ParseStr() returns (r: Errors.Result<string>)
      modifies this
      ensures Follows(r, input, AnyDe.ParseStr(old(input)))
    {
      var t :- PopTag();
      match t
      case String =>
        r := ParseKnownLenStr();
      case NullTerminatedString =>
        r := ParseUnknownLenStr();
      case _ =>
        r := Unexpected("String", t);
    }

    // -------------------------------------------------------------------
    // Typed decoding
    // -------------------------------------------------------------------

    /** `T::deserialize(&mut deserializer)` for a type of shape `s`. */
    method Deserialize(s: Shape) returns (r: Errors.Result<Data>)
      modifies this
      ensures Follows(r, input, AnyDe.Decode(s, old(input)))
      decreases s, 2
    {
      match s
      case SBool => r := DeserializeBool();
      case SInt(t) => r := DeserializeInt(t);
      case SFloat32 => r := DeserializeFloat32();
      case SFloat64 => r := DeserializeFloat64();
      case SChar => r := DeserializeChar();
      case SStr => r := DeserializeStr();
      case SBytes => r := DeserializeBytes();
      case SOption(_) => r := DeserializeOption(s);
      case SUnit => r := DeserializeUnit();
      case SUnitStruct => r := DeserializeUnitStruct();
      case SNewtypeStruct(_) => r := DeserializeNewtypeStruct(s);
      case STuple(_) => r := DeserializeTuple(s);
      case STupleStruct(_) => r := DeserializeTupleStruct(s);
      case SSeq(_) => r := DeserializeSeq(s);
      case SMap(_, _) => r := DeserializeMap(s);
      case SStruct(_) => r := DeserializeStruct(s);
      case SEnum(_) => r := DeserializeEnum(s);
    }

    method DeserializeBool() returns (r: Errors.Result<Data>)
      modifies this
      ensures Follows(r, input, AnyDe.DecodeBool(old(input)))
    {
      var t :- PopTag();
      match t
      case BoolFalse =>
        r := Ok(Bool(false));
      case BoolTrue =>
        r := Ok(Bool(true));
      case _ =>
        r := Unexpected("Boolean", t);
    }

    /** `implement_number!` for an integer type. */
    method DeserializeInt(t: IntType) returns (r: Errors.Result<Data>)
      modifies this
      ensures Follows(r, input, AnyDe.DecodeInt(t, old(input)))
    {
      var _ :- ExpectTag(AnySer.IntTag(t), t.Label());
      var bytes :- PopN(t.Size());
      r := Ok(Int(t, IntFromBytes(bytes, t.Signed())));
    }

    method DeserializeFloat32() returns (r: Errors.Result<Data>)
      modifies this
      ensures Follows(r, input, AnyDe.DecodeFloat32(old(input)))
    {
      var _ :- ExpectTag(Tags.F32, "f32");
      var bytes :- PopN(4);
      r := Ok(Float32(FromBe(bytes)));
    }

    method DeserializeFloat64() returns (r: Errors.Result<Data>)
      modifies this
      ensures Follows(r, input, AnyDe.DecodeFloat64(old(input)))
    {
      var _ :- ExpectTag(Tags.F64, "f64");
      var bytes :- PopN(8);
      r := Ok(Float64(FromBe(bytes)));
    }

    method DeserializeChar() returns (r: Errors.Result<Data>)
      modifies this
      ensures Follows(r, input, AnyDe.DecodeChar(old(input)))
    {
      var t :- PopTag();
      if !(t.Char1? || t.Char2? || t.Char3? || t.Char4?) {
        return Unexpected("char", t);
      }
      var len := Tags.CharLen(t);
      var bytes :- PopSlice(len);
      match DecodeUtf8(bytes)
      case None =>
        r := Err(InvalidStr);
      case Some(text) =>
        r := Ok(Char(if |text| == 0 then '\0' else text[0]));
    }

    /** `deserialize_str`, and `deserialize_string`, which calls it. */
    method DeserializeStr() returns (r: Errors.Result<Data>)
      modifies this
      ensures Follows(r, input, AnyDe.DecodeStr(old(input)))
    {
      var text :- ParseStr();
      r := Ok(Str(text));
    }

    /** `deserialize_bytes`, and `deserialize_byte_buf`, which calls it. */
    method DeserializeBytes() returns (r: Errors.Result<Data>)
      modifies this
      ensures Follows(r, input, AnyDe.DecodeBytes(old(input)))
    {
      var _ :- ExpectTag(Tags.ByteArray, "ByteArray");
      var len :- PopUsize();
      var bytes :- PopSlice(len);
      r := Ok(ByteArray(bytes));
    }

    method DeserializeOption(s: Shape) returns (r: Errors.Result<Data>)
      requires s.SOption?
      modifies this
      ensures Follows(r, input, AnyDe.DecodeOption(s, old(input)))
      decreases s, 1
    {
      var t :- PopTag();
      match t
      case None =>
        r := Ok(NoneValue);
      case Some =>
        var inner :- Deserialize(s.inner);
        r := Ok(SomeValue(inner));
      case _ =>
        r := Unexpected("Option", t);
    }

    method DeserializeUnit() returns (r: Errors.Result<Data>)
      modifies this
      ensures Follows(r, input, AnyDe.DecodeUnit(old(input)))
    {
      var _ :- ExpectTag(Tags.Unit, "Unit");
      r := Ok(Unit);
    }

    method DeserializeUnitStruct() returns (r: Errors.Result<Data>)
      modifies this
      ensures Follows(r, input, AnyDe.DecodeUnitStruct(old(input)))
    {
      var _ :- ExpectTag(Tags.UnitStruct, "UnitStruct");
      r := Ok(UnitStruct);
    }

    method DeserializeNewtypeStruct(s: Shape) returns (r: Errors.Result<Data>)
      requires s.SNewtypeStruct?
      modifies this
      ensures Follows(r, input, AnyDe.DecodeNewtypeStruct(s, old(input)))
      decreases s, 1
    {
      var _ :- ExpectTag(Tags.NewTypeStruct, "NewTypeStruct");
      var inner :- Deserialize(s.inner);
      r := Ok(NewtypeStruct(inner));
    }

    /** The body shared by `deserialize_tuple` and `deserialize_tuple_struct`:
        the tag, the count byte checked against the arity, then the derived
        visitor's `visit_seq` on a `SeqDeserializer` of that length. */
    method DeserializeCounted(t: Tag, what: string, ss: seq<Shape>) returns (r: Errors.Result<seq<Data>>)
      modifies this
      ensures Follows(r, input, AnyDe.DecodeCounted(t, what, ss, old(input)))
      decreases ss, 2
    {
      var _ :- ExpectTag(t, what);
      var count :- PopN(1);
      if |ss| != count[0] as int {
        return Err(SeqSizeMismatch(|ss|, count[0] as nat));
      }
      var access := new SeqDeserializer(this, |ss|);
      r := ReadElems(access, ss);
    }

    method DeserializeTuple(s: Shape) returns (r: Errors.Result<Data>)
      requires s.STuple?
      modifies this
      ensures Follows(r, input, AnyDe.DecodeTuple(s, old(input)))
      decreases s, 1
    {
      var elems :- DeserializeCounted(Tags.Tuple, "Tuple", s.elems);
      r := Ok(Tuple(elems));
    }

    method DeserializeTupleStruct(s: Shape) returns (r: Errors.Result<Data>)
      requires s.STupleStruct?
      modifies this
      ensures Follows(r, input, AnyDe.DecodeTupleStruct(s, old(input)))
      decreases s, 1
    {
      var elems :- DeserializeCounted(Tags.TupleStruct, "TupleStruct", s.elems);
      r := Ok(TupleStruct(elems));
    }

    /** `deserialize_struct`: the tag, the count byte checked against the
        number of fields, then the derived visitor's `visit_map` on a
        `StructDeserializer`. */
    method DeserializeStruct(s: Shape) returns (r: Errors.Result<Data>)
      requires s.SStruct?
      modifies this
      ensures Follows(r, input, AnyDe.DecodeStruct(s, old(input)))
      decreases s, 1
    {
      var _ :- ExpectTag(Tags.Struct, "Struct");
      var count :- PopN(1);
      if |s.fields| != count[0] as int {
        return Err(SeqSizeMismatch(|s.fields|, count[0] as nat));
      }
      var access := new StructDeserializer(this, |s.fields|);
      var fields :- ReadFields(access, s.fields);
      r := Ok(Struct(fields));
    }

    /** `deserialize_seq` with the visitor of a growable sequence type. */
    method DeserializeSeq(s: Shape) returns (r: Errors.Result<Data>)
      requires s.SSeq?
      modifies this
      ensures Follows(r, input, AnyDe.DecodeSeq(s, old(input)))
      decreases s, 1
    {
      var t :- PopTag();
      match t
      case Seq =>
        var len :- PopUsize();
        var access := new SeqDeserializer(this, len);
        var elems :- ReadRepeat(access, s);
        r := Ok(Seq(true, elems));
      case _ =>
        r := Unexpected("Sequence", t);
    }

    /** `deserialize_map` with the visitor of a map type. */
    method DeserializeMap(s: Shape) returns (r: Errors.Result<Data>)
      requires s.SMap?
      modifies this
      ensures Follows(r, input, AnyDe.DecodeMap(s, old(input)))
      decreases s, 1
    {
      var t :- PopTag();
      match t
      case Map =>
        var len :- PopUsize();
        var access := new SeqDeserializer(this, len);
        var entries :- ReadEntries(access, s);
        r := Ok(Map(true, entries));
      case _ =>
        r := Unexpected("Map", t);
    }

    /** `deserialize_identifier`. */
    method DeserializeIdentifier() returns (r: Errors.Result<AnyDe.Identifier>)
      modifies this
      ensures Follows(r, input, AnyDe.DecodeIdentifier(old(input)))
    {
      var t :- PopTag();
      if t.IsVariant() {
        var bytes :- PopN(4);
        r := Ok(AnyDe.Index(FromBe(bytes)));
      } else if t == Tags.String {
        var name :- ParseKnownLenStr();
        r := Ok(AnyDe.Name(name));
      } else {
        r := Unexpected("Identifier", t);
      }
    }

    /** `deserialize_enum`, then `variant_seed` (the identifier and the
        derived variant visitor) and the `VariantAccess` call of the kind the
        chosen variant declares. */
    method DeserializeEnum(s: Shape) returns (r: Errors.Result<Data>)
      requires s.SEnum?
      modifies this
      ensures Follows(r, input, AnyDe.DecodeEnum(s, old(input)))
      decreases s, 1
    {
      var t :- PeekTag();
      if !t.IsVariant() {
        return Unexpected("Enum", t);
      }
      var id :- DeserializeIdentifier();
      var i :- AnyDe.ResolveVariant(s.variants, id);
      r := DeserializeVariant(s, i);
    }

    /** `unit_variant`, `newtype_variant_seed`, `tuple_variant` and
        `struct_variant`: none of them looks at the tag again. */
    method DeserializeVariant(s: Shape, i: nat) returns (r: Errors.Result<Data>)
      requires s.SEnum? && i < |s.variants|
      modifies this
      ensures Follows(r, input, AnyDe.DecodeVariant(s, i, old(input)))
      decreases s, 0
    {
      match s.variants[i].kind
      case VUnit =>
        r := Ok(UnitVariant(i));
      case VNewtype(x) =>
        var inner :- Deserialize(x);
        r := Ok(NewtypeVariant(i, inner));
      case VTuple(ss) =>
        var access := new SeqDeserializer(this, |ss|);
        var elems :- ReadElems(access, ss);
        r := Ok(TupleVariant(i, elems));
      case VStruct(fs) =>
        var access := new SeqDeserializer(this, |fs|);
        var fields :- ReadElems(access, fs);
        r := Ok(StructVariant(i, fields));
    }

    // -------------------------------------------------------------------
    // Schema-less decoding with `ValueVisitor`
    // -------------------------------------------------------------------

    /** `deserialize_any`: the peeked tag picks the `deserialize_*` method. */
    method DeserializeAny() returns (r: Errors.Result<Value>)
      modifies this
      ensures Follows(r, input, AnyDe.DecodeAny(old(input)))
      decreases |input|, 3
    {
      var t :- PeekTag();
      match t
      case None | Some =>
        r := AnyOption();
      case BoolFalse | BoolTrue =>
        var d := DeserializeBool();
        r := Scalar(d);
      case I8 | I16 | I32 | I64 | I128 | U8 | U16 | U32 | U64 | U128 =>
        var d := DeserializeInt(AnyDe.IntOfTag(t));
        r := Scalar(d);
      case F32 =>
        var d := DeserializeFloat32();
        r := Scalar(d);
      case F64 =>
        var d := DeserializeFloat64();
        r := Scalar(d);
      case Char1 | Char2 | Char3 | Char4 =>
        var d := DeserializeChar();
        r := Scalar(d);
      case String | NullTerminatedString =>
        var d := DeserializeStr();
        r := Scalar(d);
      case ByteArray =>
        var d := DeserializeBytes();
        r := Scalar(d);
      case Unit =>
        var d := DeserializeUnit();
        r := Scalar(d);
      case UnitStruct =>
        var d := DeserializeUnitStruct();
        r := Scalar(d);
      case UnitVariant | NewTypeVariant | TupleVariant | StructVariant =>
        r := Err(Panic("not yet implemented"));
      case NewTypeStruct =>
        r := AnyNewtypeStruct();
      case Seq =>
        r := AnySeq();
      case Tuple =>
        r := AnyCounted(Tags.Tuple, "Tuple");
      case TupleStruct =>
        r := AnyCounted(Tags.TupleStruct, "TupleStruct");
      case Map =>
        r := AnyMap();
      case Struct =>
        r := AnyStruct();
      case UnsizedSeq | UnsizedMap | UnsizedSeqEnd =>
        // no byte converts to these tags, so `peek_tag` never returns them
        assert false;
    }

    /** `deserialize_option`; `visit_some` reads on with `deserialize_any`. */
    method AnyOption() returns (r: Errors.Result<Value>)
      modifies this
      ensures Follows(r, input, AnyDe.AnyOption(old(input)))
      decreases |input|, 2
    {
      var t :- PopTag();
      match t
      case None =>
        r := Ok(Values.VisitNone());
      case Some =>
        var inner :- DeserializeAny();
        r := Ok(Values.VisitSome(inner));
      case _ =>
        r := Unexpected("Option", t);
    }

    method AnyNewtypeStruct() returns (r: Errors.Result<Value>)
      modifies this
      ensures Follows(r, input, AnyDe.AnyNewtypeStruct(old(input)))
      decreases |input|, 2
    {
      var _ :- ExpectTag(Tags.NewTypeStruct, "NewTypeStruct");
      var inner :- DeserializeAny();
      r := Ok(Values.VisitNewtypeStruct(inner));
    }

    method AnySeq() returns (r: Errors.Result<Value>)
      modifies this
      ensures Follows(r, input, AnyDe.AnySeq(old(input)))
      decreases |input|, 2
    {
      var t :- PopTag();
      match t
      case Seq =>
        var len :- PopUsize();
        var access := new SeqDeserializer(this, len);
        var elems :- CollectElems(access);
        r := Ok(Values.Value.Array(elems));
      case _ =>
        r := Unexpected("Sequence", t);
    }

    /** `parse_tuple` and `parse_tuple_struct`. */
    method AnyCounted(t: Tag, what: string) returns (r: Errors.Result<Value>)
      modifies this
      ensures Follows(r, input, AnyDe.AnyCounted(t, what, old(input)))
      decreases |input|, 2
    {
      var _ :- ExpectTag(t, what);
      var count :- PopN(1);
      var access := new SeqDeserializer(this, count[0] as nat);
      var elems :- CollectElems(access);
      r := Ok(Values.Value.Array(elems));
    }

    method AnyMap() returns (r: Errors.Result<Value>)
      modifies this
      ensures Follows(r, input, AnyDe.AnyMap(old(input)))
      decreases |input|, 2
    {
      var t :- PopTag();
      match t
      case Map =>
        var len :- PopUsize();
        var access := new SeqDeserializer(this, len);
        var entries :- CollectEntries(access);
        r := Ok(Values.Value.Map(entries));
      case _ =>
        r := Unexpected("Map", t);
    }

    /** `parse_struct`: `StructDeserializer::new` pops the count byte. */
    method AnyStruct() returns (r: Errors.Result<Value>)
      modifies this
      ensures Follows(r, input, AnyDe.AnyStruct(old(input)))
      decreases |input|, 2
    {
      var _ :- ExpectTag(Tags.Struct, "Struct");
      var count :- PopN(1);
      var access := new StructDeserializer(this, count[0] as nat);
      var entries :- CollectFields(access);
      r := Ok(Values.Value.Map(entries));
    }
  }

  /** `from_bytes`: decode a value of shape `s`, then insist that the whole
      input was read. */
  method FromBytes(s: Shape, input: seq<u8>) returns (r: Errors.Result<Data>)
    ensures r == AnyDe.FromBytes(s, input)
  {
    var de := new Deserializer(input);
    var d :- de.Deserialize(s);
    var len := |de.input|;
    if len == 0 {
      r := Ok(d);
    } else {
      r := Err(TrailingBytes(len));
    }
  }

  /** The sequence and map accessor of a sized `Seq`, `Map`, `Tuple`
      or `TupleStruct`, and of the payload of a tuple or struct variant. */
  class SeqDeserializer {
    const de: Deserializer
    /** The elements (for a map: the keys) still to be handed out. */
    var remaining: nat

    /** `new_with_len`; `new` is `pop_usize` followed by it. */
    constructor (de: Deserializer, len: nat)
      ensures this.de == de && remaining == len
    {
      this.de := de;
      remaining := len;
    }

    /** `next_element_seed` with a typed seed: nothing once the count is
        exhausted, otherwise one decoded element. */
    method NextElement(s: Shape) returns (r: Errors.Result<Option<Data>>)
      modifies this, de
      ensures old(remaining) == 0 ==> r == Ok(None) && remaining == 0 && de.input == old(de.input)
      ensures old(remaining) > 0 ==>
        remaining == old(remaining) - 1 && Follows(r, de.input, Yielded(AnyDe.Decode(s, old(de.input))))
      decreases s, 3
    {
      if remaining == 0 {
        return Ok(None);
      }
      remaining := remaining - 1;
      var d :- de.Deserialize(s);
      r := Ok(Some(d));
    }

    /** `next_key_seed`, which is `next_element_seed`. */
    method NextKey(s: Shape) returns (r: Errors.Result<Option<Data>>)
      modifies this, de
      ensures old(remaining) == 0 ==> r == Ok(None) && remaining == 0 && de.input == old(de.input)
      ensures old(remaining) > 0 ==>
        remaining == old(remaining) - 1 && Follows(r, de.input, Yielded(AnyDe.Decode(s, old(de.input))))
      decreases s, 4
    {
      r := NextElement(s);
    }

    /** `next_value_seed`: the value after a key, whatever the count. */
    method NextValue(s: Shape) returns (r: Errors.Result<Data>)
      modifies de
      ensures Follows(r, de.input, AnyDe.Decode(s, old(de.input)))
      decreases s, 3
    {
      r := de.Deserialize(s);
    }

    /** `next_element_seed` with the seed of `ValueVisitor`. */
    method NextAny() returns (r: Errors.Result<Option<Value>>)
      modifies this, de
      ensures old(remaining) == 0 ==> r == Ok(None) && remaining == 0 && de.input == old(de.input)
      ensures old(remaining) > 0 ==>
        remaining == old(remaining) - 1 && Follows(r, de.input, Yielded(AnyDe.DecodeAny(old(de.input))))
      decreases |de.input|, 4
    {
      if remaining == 0 {
        return Ok(None);
      }
      remaining := remaining - 1;
      var v :- de.DeserializeAny();
      r := Ok(Some(v));
    }

    /** `next_value_seed` with the seed of `ValueVisitor`. */
    method NextAnyValue() returns (r: Errors.Result<Value>)
      modifies de
      ensures Follows(r, de.input, AnyDe.DecodeAny(old(de.input)))
      decreases |de.input|, 4
    {
      r := de.DeserializeAny();
    }

    /** `next_entry` with the seeds of `ValueVisitor`: `next_key`, then
        `next_value` when a key came. */
    method NextAnyEntry() returns (r: Errors.Result<Option<Values.ValueEntry>>)
      modifies this, de
      ensures old(remaining) == 0 ==> r == Ok(None) && remaining == 0 && de.input == old(de.input)
      ensures old(remaining) > 0 ==>
        remaining == old(remaining) - 1 && Follows(r, de.input, Yielded(AnyDe.AnyEntry(old(de.input))))
      decreases |de.input|, 5
    {
      var key :- NextAny();
      match key
      case None =>
        r := Ok(None);
      case Some(k) =>
        var v :- NextAnyValue();
        r := Ok(Some(Values.ValueEntry(k, v)));
    }
  }

  /** The accessor of a `Struct`: its keys are the field positions, counted
      by `current_index`, and only its values are read from the input. */
  class StructDeserializer {
    const de: Deserializer
    var remaining: nat
    var currentIndex: nat

    /** `new_with_len`; `new` is `pop_n::<1>` followed by it. */
    constructor (de: Deserializer, len: nat)
      ensures this.de == de && remaining == len && currentIndex == 0
    {
      this.de := de;
      remaining := len;
      currentIndex := 0;
    }

    /** `next_key_seed`: the next position, or nothing once `len` keys were
        handed out; the input is not touched. */
    method NextKey() returns (key: Option<nat>)
      modifies this
      ensures old(remaining) == 0 ==> key == None && remaining == 0 && currentIndex == old(currentIndex)
      ensures old(remaining) > 0 ==>
        key == Some(old(currentIndex)) && remaining == old(remaining) - 1 && currentIndex == old(currentIndex) + 1
    {
      if remaining == 0 {
        return None;
      }
      key := Some(currentIndex);
      remaining := remaining - 1;
      currentIndex := currentIndex + 1;
    }

    /** `next_value_seed` with a typed seed. */
    method NextValue(s: Shape) returns (r: Errors.Result<Data>)
      modifies de
      ensures Follows(r, de.input, AnyDe.Decode(s, old(de.input)))
      decreases s, 3
    {
      r := de.Deserialize(s);
    }

    /** `next_value_seed` with the seed of `ValueVisitor`. */
    method NextAnyValue() returns (r: Errors.Result<Value>)
      modifies de
      ensures Follows(r, de.input, AnyDe.DecodeAny(old(de.input)))
      decreases |de.input|, 4
    {
      r := de.DeserializeAny();
    }
  }

  // ---------------------------------------------------------------------
  // Visitors of the requested types
  // ---------------------------------------------------------------------

  /** The derived `visit_seq` of a tuple, tuple struct, tuple variant or
      struct variant: one `next_element` per component, in order. */
  method ReadElems(access: SeqDeserializer, ss: seq<Shape>) returns (r: Errors.Result<seq<Data>>)
    requires access.remaining == |ss|
    modifies access, access.de
    ensures Follows(r, access.de.input, AnyDe.DecodeElems(ss, old(access.de.input)))
    decreases ss, 1
  {
    var elems: seq<Data> := [];
    ghost var start := access.de.input;
    ThenNone(AnyDe.DecodeElems(ss, start));
    while |elems| < |ss|
      invariant access.remaining + |elems| == |ss|
      invariant AnyDe.DecodeElems(ss, start) == Then(elems, AnyDe.DecodeElems(ss[|elems|..], access.de.input))
      decreases |ss| - |elems|
    {
      ghost var before := access.de.input;
      var k := |elems|;
      assert ss[k..][0] == ss[k] && ss[k..][1..] == ss[k + 1..];
      var next := access.NextElement(ss[k]);
      if next.Err? {
        return Err(next.error);
      }
      var d := next.value.value;
      assert AnyDe.DecodeElems(ss[k..], before) == Cons(d, AnyDe.DecodeElems(ss[k + 1..], access.de.input));
      ThenCons(elems, d, AnyDe.DecodeElems(ss[k + 1..], access.de.input));
      elems := elems + [d];
    }
    assert ss[|elems|..] == [];
    ThenAll(elems, access.de.input);
    return Ok(elems);
  }

  /** The derived `visit_seq` of a growable sequence: elements are taken
      until the accessor reports none is left. */
  method ReadRepeat(access: SeqDeserializer, s: Shape) returns (r: Errors.Result<seq<Data>>)
    requires s.SSeq?
    modifies access, access.de
    ensures Follows(r, access.de.input, AnyDe.DecodeRepeat(s, old(access.remaining), old(access.de.input)))
    decreases s, 0
  {
    var elems: seq<Data> := [];
    ghost var start := access.de.input;
    ghost var n := access.remaining;
    ThenNone(AnyDe.DecodeRepeat(s, n, start));
    while true
      invariant AnyDe.DecodeRepeat(s, n, start) == Then(elems, AnyDe.DecodeRepeat(s, access.remaining, access.de.input))
      decreases access.remaining
    {
      ghost var before := access.de.input;
      ghost var m := access.remaining;
      if m > 0 {
        RepeatStep(s, m, before);
      }
      var next := access.NextElement(s.elem);
      if next.Err? {
        return Err(next.error);
      }
      match next.value
      case None =>
        ThenAll(elems, access.de.input);
        return Ok(elems);
      case Some(d) =>
        ThenCons(elems, d, AnyDe.DecodeRepeat(s, access.remaining, access.de.input));
        elems := elems + [d];
    }
  }

  /** One step of `DecodeRepeat`: the first element, then the others. */
  lemma RepeatStep(s: Shape, m: nat, before: seq<u8>)
    requires s.SSeq? && m > 0
    ensures AnyDe.Decode(s.elem, before).Err? ==>
      AnyDe.DecodeRepeat(s, m, before) == Err(AnyDe.Decode(s.elem, before).error)
    ensures AnyDe.Decode(s.elem, before).Ok? ==>
      AnyDe.DecodeRepeat(s, m, before)
      == Cons(AnyDe.Decode(s.elem, before).value.0, AnyDe.DecodeRepeat(s, m - 1, AnyDe.Decode(s.elem, before).value.1))
  {
  }

  /** One step of `DecodeEntries`: a key that fails to read fails the
      whole, ... */
  lemma EntriesKeyFails(s: Shape, m: nat, before: seq<u8>, e: Error)
    requires s.SMap? && m > 0 && AnyDe.Decode(s.key, before) == Err(e)
    ensures AnyDe.DecodeEntries(s, m, before) == Err(e)
  {
  }

  /** ... and so does a value that fails to read after its key, ... */
  lemma EntriesValueFails(s: Shape, m: nat, before: seq<u8>, k: Data, middle: seq<u8>, e: Error)
    requires s.SMap? && m > 0 && AnyDe.Decode(s.key, before) == Ok((k, middle))
    requires AnyDe.Decode(s.value, middle) == Err(e)
    ensures AnyDe.DecodeEntries(s, m, before) == Err(e)
  {
  }

  /** ... while a key and its value are the first entry, before the rest. */
  lemma EntriesStep(s: Shape, m: nat, before: seq<u8>, k: Data, middle: seq<u8>, v: Data, after: seq<u8>)
    requires s.SMap? && m > 0 && AnyDe.Decode(s.key, before) == Ok((k, middle))
    requires AnyDe.Decode(s.value, middle) == Ok((v, after))
    ensures AnyDe.DecodeEntries(s, m, before) == Cons(Entry(k, v), AnyDe.DecodeEntries(s, m - 1, after))
  {
  }

  /** The derived `visit_map` of a map type: `next_entry`, which is
      `next_key` followed by `next_value`, until no key is left. */
  method ReadEntries(access: SeqDeserializer, s: Shape) returns (r: Errors.Result<seq<Entry>>)
    requires s.SMap?
    modifies access, access.de
    ensures Follows(r, access.de.input, AnyDe.DecodeEntries(s, old(access.remaining), old(access.de.input)))
    decreases s, 0
  {
    var entries: seq<Entry> := [];
    ghost var start := access.de.input;
    ghost var n := access.remaining;
    ThenNone(AnyDe.DecodeEntries(s, n, start));
    while true
      invariant AnyDe.DecodeEntries(s, n, start) == Then(entries, AnyDe.DecodeEntries(s, access.remaining, access.de.input))
      decreases access.remaining
    {
      ghost var before := access.de.input;
      ghost var m := access.remaining;
      var key := access.NextKey(s.key);
      if key.Err? {
        EntriesKeyFails(s, m, before, key.error);
        return Err(key.error);
      }
      match key.value
      case None =>
        ThenAll(entries, access.de.input);
        return Ok(entries);
      case Some(k) =>
        ghost var middle := access.de.input;
        var value := access.NextValue(s.value);
        if value.Err? {
          EntriesValueFails(s, m, before, k, middle, value.error);
          return Err(value.error);
        }
        var e := Entry(k, value.value);
        EntriesStep(s, m, before, k, middle, value.value, access.de.input);
        ThenCons(entries, e, AnyDe.DecodeEntries(s, access.remaining, access.de.input));
        entries := entries + [e];
    }
  }

  /** The derived `visit_map` of a struct: the keys are positions handed
      out in order, so field `i` is read at the `i`-th key and every field
      is set exactly once (no duplicate and no missing field can occur). */
  method ReadFields(access: StructDeserializer, fs: seq<Shape>) returns (r: Errors.Result<seq<Data>>)
    requires access.remaining == |fs| && access.currentIndex == 0
    modifies access, access.de
    ensures Follows(r, access.de.input, AnyDe.DecodeElems(fs, old(access.de.input)))
    decreases fs, 1
  {
    var fields: seq<Data> := [];
    ghost var start := access.de.input;
    ThenNone(AnyDe.DecodeElems(fs, start));
    while true
      invariant access.currentIndex == |fields| && access.remaining + |fields| == |fs|
      invariant AnyDe.DecodeElems(fs, start) == Then(fields, AnyDe.DecodeElems(fs[|fields|..], access.de.input))
      decreases access.remaining
    {
      ghost var before := access.de.input;
      var key := access.NextKey();
      match key
      case None =>
        assert fs[|fields|..] == [];
        ThenAll(fields, access.de.input);
        return Ok(fields);
      case Some(i) =>
        assert fs[i..][0] == fs[i] && fs[i..][1..] == fs[i + 1..];
        var value := access.NextValue(fs[i]);
        if value.Err? {
          return Err(value.error);
        }
        var d := value.value;
        assert AnyDe.DecodeElems(fs[i..], before) == Cons(d, AnyDe.DecodeElems(fs[i + 1..], access.de.input));
        ThenCons(fields, d, AnyDe.DecodeElems(fs[i + 1..], access.de.input));
        fields := fields + [d];
    }
  }

  // ---------------------------------------------------------------------
  // Visitors of `Value`
  // ---------------------------------------------------------------------

  /** `ValueVisitor::visit_seq`: every element the accessor hands out, read
      with `deserialize_any`, collected in order. */
  method CollectElems(access: SeqDeserializer) returns (r: Errors.Result<seq<Value>>)
    modifies access, access.de
    ensures Follows(r, access.de.input, AnyDe.AnyElems(old(access.remaining), old(access.de.input)))
    decreases |access.de.input|, 5
  {
    var elems: seq<Value> := [];
    ghost var start := access.de.input;
    ghost var n := access.remaining;
    ThenNone(AnyDe.AnyElems(n, start));
    while true
      invariant |access.de.input| <= |start|
      invariant AnyDe.AnyElems(n, start) == Then(elems, AnyDe.AnyElems(access.remaining, access.de.input))
      decreases access.remaining
    {
      ghost var before := access.de.input;
      ghost var m := access.remaining;
      var next := access.NextAny();
      if next.Err? {
        return Err(next.error);
      }
      match next.value
      case None =>
        ThenAll(elems, access.de.input);
        return Ok(elems);
      case Some(v) =>
        assert AnyDe.AnyElems(m, before) == Cons(v, AnyDe.AnyElems(access.remaining, access.de.input));
        ThenCons(elems, v, AnyDe.AnyElems(access.remaining, access.de.input));
        elems := elems + [v];
    }
  }

  /** `ValueVisitor::visit_map` over a `Map`: each key and its value read
      with `deserialize_any`, collected as entries in order. */
  method CollectEntries(access: SeqDeserializer) returns (r: Errors.Result<seq<Values.ValueEntry>>)
    modifies access, access.de
    ensures Follows(r, access.de.input, AnyDe.AnyEntries(old(access.remaining), old(access.de.input)))
    decreases |access.de.input|, 6
  {
    var entries: seq<Values.ValueEntry> := [];
    ghost var start := access.de.input;
    ghost var n := access.remaining;
    ThenNone(AnyDe.AnyEntries(n, start));
    while true
      invariant |access.de.input| <= |start|
      invariant AnyDe.AnyEntries(n, start) == Then(entries, AnyDe.AnyEntries(access.remaining, access.de.input))
      decreases access.remaining
    {
      ghost var before := access.de.input;
      ghost var m := access.remaining;
      var next := access.NextAnyEntry();
      if next.Err? {
        return Err(next.error);
      }
      match next.value
      case None =>
        ThenAll(entries, access.de.input);
        return Ok(entries);
      case Some(e) =>
        assert AnyDe.AnyEntries(m, before) == Cons(e, AnyDe.AnyEntries(access.remaining, access.de.input));
        ThenCons(entries, e, AnyDe.AnyEntries(access.remaining, access.de.input));
        entries := entries + [e];
    }
  }

  /** `ValueVisitor::visit_map` over a `Struct`: the key of each field is
      its position, as `visit_u64` sees it, and its value is read with
      `deserialize_any`. */
  method CollectFields(access: StructDeserializer) returns (r: Errors.Result<seq<Values.ValueEntry>>)
    modifies access, access.de
    ensures Follows(r, access.de.input, AnyDe.AnyFields(old(access.remaining), old(access.currentIndex), old(access.de.input)))
    decreases |access.de.input|, 5
  {
    var entries: seq<Values.ValueEntry> := [];
    ghost var start := access.de.input;
    ghost var n := access.remaining;
    ghost var index := access.currentIndex;
    ThenNone(AnyDe.AnyFields(n, index, start));
    while true
      invariant |access.de.input| <= |start|
      invariant AnyDe.AnyFields(n, index, start) == Then(entries, AnyDe.AnyFields(access.remaining, access.currentIndex, access.de.input))
      decreases access.remaining
    {
      ghost var before := access.de.input;
      ghost var m := access.remaining;
      var key := access.NextKey();
      match key
      case None =>
        ThenAll(entries, access.de.input);
        return Ok(entries);
      case Some(i) =>
        var value := access.NextAnyValue();
        if value.Err? {
          return Err(value.error);
        }
        var e := Values.ValueEntry(AnyDe.FieldKey(i), value.value);
        assert AnyDe.AnyFields(m, i, before) == Cons(e, AnyDe.AnyFields(access.remaining, access.currentIndex, access.de.input));
        ThenCons(entries, e, AnyDe.AnyFields(access.remaining, access.currentIndex, access.de.input));
        entries := entries + [e];
    }
  }
}
