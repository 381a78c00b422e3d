/** The self-describing decoder (src/any/de.rs) as functions of the input
    still to be read. Every function returns what it decoded together with
    the input left after it (`Parsed`), so that a sequence of cursor
    operations is a chain of `:-` steps. The `Deserializer` class of
    module `AnyDeserializer` performs the same steps on a mutable cursor. */
module AnyDe {
  import opened Bytes
  import opened Wrappers
  import opened Errors
  import opened DataModel
  import Tags
  import AnySer
  import Values

  type Tag = Tags.Tag
  type Value = Values.Value

  /** A decoded value and the input after it. */
  type Parsed<T> = Wrappers.Result<(T, seq<u8>), Error>

  // ---------------------------------------------------------------------
  // Cursor operations
  // ---------------------------------------------------------------------

  /** `pop_slice(len)`: the first `len` bytes, or `Eof` when fewer remain. */
  function PopSlice(input: seq<u8>, len: nat): (r: Parsed<seq<u8>>)
    ensures r.Ok? <==> len <= |input|
    ensures r.Ok? ==> |r.value.0| == len && r.value.0 + r.value.1 == input
    ensures r.Err? ==> r.error == Eof
  {
    if |input| < len then Err(Eof) else Ok((input[..len], input[len..]))
  }

  /** `pop_tag`: one byte, converted with `TryFrom<u8> for Tag`. */
  function PopTag(input: seq<u8>): (r: Parsed<Tag>)
    ensures |input| == 0 ==> r == Err(Eof)
    ensures |input| >= 1 ==> (r.Ok? <==> input[0] < Tags.TagCount)
    ensures r.Ok? ==> r.value.0.HasByte() && Tags.ToByte(r.value.0) == input[0] && r.value.1 == input[1..]
    ensures |input| >= 1 && input[0] >= Tags.TagCount ==> r == Err(TagParsingError(Tags.InvalidTag(input[0])))
  {
    var p :- PopSlice(input, 1);
    match Tags.FromByte(p.0[0])
    case Ok(t) => Tags.FromByteToByte(p.0[0]); Ok((t, p.1))
    case Err(e) => Err(TagParsingError(e))
  }

  /** `peek_tag`: the tag `pop_tag` would return, without consuming it. */
  function PeekTag(input: seq<u8>): (r: Wrappers.Result<Tag, Error>)
    ensures r.Ok? <==> PopTag(input).Ok?
    ensures r.Ok? ==> r.value == PopTag(input).value.0
    ensures r.Err? ==> r.error == PopTag(input).error
  {
    if |input| == 0 then Err(Eof)
    else
      match Tags.FromByte(input[0])
      case Ok(t) => Ok(t)
      case Err(e) => Err(TagParsingError(e))
  }

  /** `pop_usize`: an 8-byte big-endian length. With a 64-bit `usize` the
      conversion from `u64` cannot fail, so `InvalidSize` never arises. */
  function PopUsize(input: seq<u8>): (r: Parsed<nat>)
    ensures r.Ok? <==> |input| >= 8
    ensures r.Ok? ==> r.value.0 < Pow256(8) && input == BeBytes(r.value.0, 8) + r.value.1
    ensures r.Ok? ==> r.value == (FromBe(input[..8]), input[8..])
    ensures r.Err? ==> r.error == Eof
  {
    var p :- PopSlice(input, 8);
    BeBytesFromBe(p.0);
    Ok((FromBe(p.0), p.1))
  }

  /** Reading `k` bytes after the first `a` is reading `input[a..a + k]`. */
  lemma SliceAfter(input: seq<u8>, a: nat, k: nat)
    ensures a + k <= |input| ==> input[a..][..k] == input[a..a + k] && input[a..][k..] == input[a + k..]
  {
  }

  /** `check_tag!`: pops a tag and fails with `UnexpectedTag` unless it is
      `want`. */
  function ExpectTag(want: Tag, what: string, input: seq<u8>): (r: Wrappers.Result<seq<u8>, Error>)
    ensures PopTag(input).Err? ==> r == Err(PopTag(input).error)
    ensures PopTag(input).Ok? ==> (r.Ok? <==> PopTag(input).value.0 == want)
    ensures r.Ok? ==> r.value == input[1..]
    ensures PopTag(input).Ok? && PopTag(input).value.0 != want ==>
      r == Unexpected(what, PopTag(input).value.0)
  {
    var p :- PopTag(input);
    if p.0 == want then Ok(p.1) else Unexpected(what, p.0)
  }

  // ---------------------------------------------------------------------
  // Strings
  // ---------------------------------------------------------------------

  /** `parse_str_inner(len)`: `len` bytes that must be well-formed UTF-8. */
  function ParseStrInner(input: seq<u8>, len: nat): (r: Parsed<string>)
    ensures len > |input| ==> r == Err(Eof)
    ensures len <= |input| ==> (r.Ok? <==> DecodeUtf8(input[..len]).Some?)
    ensures len <= |input| && DecodeUtf8(input[..len]).None? ==> r == Err(InvalidStr)
    ensures r.Ok? ==> r.value == (DecodeUtf8(input[..len]).value, input[len..])
  {
    var p :- PopSlice(input, len);
    match DecodeUtf8(p.0)
    case None => Err(InvalidStr)
    case Some(text) => Ok((text, p.1))
  }

  /** Whether the end marker starts at offset `i` of `s`. */
  predicate MarkerAt(s: seq<u8>, i: nat)
  {
    i + |AnySer.EndMarker| <= |s| && s[i..i + |AnySer.EndMarker|] == AnySer.EndMarker
  }

  /** The first window of `s` at or after `from` that equals the end marker. */
  function FindMarker(s: seq<u8>, from: nat): (r: Option<nat>)
    ensures r.Some? ==> from <= r.value && MarkerAt(s, r.value)
    ensures r.Some? ==> forall j: nat :: from <= j < r.value ==> !MarkerAt(s, j)
    ensures r.None? ==> forall j: nat :: from <= j ==> !MarkerAt(s, j)
    decreases |s| - from
  {
    if from + |AnySer.EndMarker| > |s| then None
    else if MarkerAt(s, from) then Some(from)
    else FindMarker(s, from + 1)
  }

  /** `windows(marker.len()).position(|w| w == marker)`. */
  function MarkerPosition(s: seq<u8>): Option<nat>
  {
    FindMarker(s, 0)
  }

  /** `parse_unknown_len_str`: the text up to the first end marker, then the
      marker itself; `Eof` when no marker follows. */
  function ParseUnknownLenStr(input: seq<u8>): (r: Parsed<string>)
    ensures MarkerPosition(input).None? ==> r == Err(Eof)
    ensures MarkerPosition(input).Some? ==>
      var n := MarkerPosition(input).value;
      n + |AnySer.EndMarker| <= |input|
      && (r.Ok? <==> DecodeUtf8(input[..n]).Some?)
      && (DecodeUtf8(input[..n]).None? ==> r == Err(InvalidStr))
      && (r.Ok? ==> r.value == (DecodeUtf8(input[..n]).value, input[n + |AnySer.EndMarker|..]))
  {
    match MarkerPosition(input)
    case None => Err(Eof)
    case Some(len) =>
      var p :- ParseStrInner(input, len);
      var q :- PopSlice(p.1, |AnySer.EndMarker|);
      Ok((p.0, q.1))
  }

  /** `parse_known_len_str`: a `usize` length, then that many bytes. */
  function ParseKnownLenStr(input: seq<u8>): (r: Parsed<string>)
    ensures |input| < 8 ==> r == Err(Eof)
    ensures |input| >= 8 ==> r == ParseStrInner(input[8..], FromBe(input[..8]))
  {
    var n :- PopUsize(input);
    ParseStrInner(n.1, n.0)
  }

  /** `parse_str`: a `String` or a `NullTerminatedString`. */
  function ParseStr(input: seq<u8>): (r: Parsed<string>)
    ensures r.Ok? ==> |r.value.1| < |input|
    ensures PopTag(input).Err? ==> r == Err(PopTag(input).error)
    ensures PopTag(input).Ok? ==>
      var t := PopTag(input).value.0;
      (t == Tag.String ==> r == ParseKnownLenStr(input[1..]))
      && (t == Tag.NullTerminatedString ==> r == ParseUnknownLenStr(input[1..]))
      && (t != Tag.String && t != Tag.NullTerminatedString ==> r == Unexpected("String", t))
  {
    var p :- PopTag(input);
    match p.0
    case String => ParseKnownLenStr(p.1)
    case NullTerminatedString => ParseUnknownLenStr(p.1)
    case _ => Unexpected("String", p.0)
  }

  // ---------------------------------------------------------------------
  // Typed decoding: what `T::deserialize` reads for a type of shape `s`
  // ---------------------------------------------------------------------

  function Decode(s: Shape, input: seq<u8>): (r: Parsed<Data>)
    ensures r.Ok? ==> |r.value.1| < |input|
    ensures PopTag(input).Err? ==> r == Err(PopTag(input).error)
    decreases s, 2, 0
  {
    match s
    case SBool => DecodeBool(input)
    case SInt(t) => DecodeInt(t, input)
    case SFloat32 => DecodeFloat32(input)
    case SFloat64 => DecodeFloat64(input)
    case SChar => DecodeChar(input)
    case SStr => DecodeStr(input)
    case SBytes => DecodeBytes(input)
    case SOption(_) => DecodeOption(s, input)
    case SUnit => DecodeUnit(input)
    case SUnitStruct => DecodeUnitStruct(input)
    case SNewtypeStruct(_) => DecodeNewtypeStruct(s, input)
    case STuple(_) => DecodeTuple(s, input)
    case STupleStruct(_) => DecodeTupleStruct(s, input)
    case SSeq(_) => DecodeSeq(s, input)
    case SMap(_, _) => DecodeMap(s, input)
    case SStruct(_) => DecodeStruct(s, input)
    case SEnum(_) => DecodeEnum(s, input)
  }

  /** `deserialize_bool`. */
  function DecodeBool(input: seq<u8>): (r: Parsed<Data>)
    ensures r.Ok? ==> |r.value.1| < |input|
    ensures PopTag(input).Err? ==> r == Err(PopTag(input).error)
    ensures PopTag(input).Ok? ==>
      var t := PopTag(input).value.0;
      (r.Ok? <==> t.BoolFalse? || t.BoolTrue?)
      && (r.Ok? ==> r.value == (Bool(t.BoolTrue?), input[1..]))
      && (!(t.BoolFalse? || t.BoolTrue?) ==> r == Unexpected("Boolean", t))
  {
    var p :- PopTag(input);
    match p.0
    case BoolFalse => Ok((Bool(false), p.1))
    case BoolTrue => Ok((Bool(true), p.1))
    case _ => Unexpected("Boolean", p.0)
  }

  /** `implement_number!` for the integer types: the type's tag, then
      `from_be_bytes` of its width. */
  function DecodeInt(t: IntType, input: seq<u8>): (r: Parsed<Data>)
    ensures r.Ok? ==> |r.value.1| < |input|
    ensures PopTag(input).Err? ==> r == Err(PopTag(input).error)
    ensures PopTag(input).Ok? ==>
      var tag := PopTag(input).value.0;
      (tag != AnySer.IntTag(t) ==> r == Unexpected(t.Label(), tag))
      && (tag == AnySer.IntTag(t) ==> (r.Ok? <==> 1 + t.Size() <= |input|))
      && (tag == AnySer.IntTag(t) && |input| < 1 + t.Size() ==> r == Err(Eof))
    ensures r.Ok? ==>
      r.value == (Int(t, IntFromBytes(input[1..1 + t.Size()], t.Signed())), input[1 + t.Size()..])
  {
    SliceAfter(input, 1, t.Size());
    var rest :- ExpectTag(AnySer.IntTag(t), t.Label(), input);
    var p :- PopSlice(rest, t.Size());
    Ok((Int(t, IntFromBytes(p.0, t.Signed())), p.1))
  }

  function DecodeFloat32(input: seq<u8>): (r: Parsed<Data>)
    ensures r.Ok? ==> |r.value.1| < |input|
    ensures PopTag(input).Err? ==> r == Err(PopTag(input).error)
    ensures PopTag(input).Ok? ==>
      var tag := PopTag(input).value.0;
      (tag != Tag.F32 ==> r == Unexpected("f32", tag))
      && (tag == Tag.F32 ==> (r.Ok? <==> 5 <= |input|))
      && (tag == Tag.F32 && |input| < 5 ==> r == Err(Eof))
    ensures r.Ok? ==> r.value == (Float32(FromBe(input[1..5])), input[5..])
  {
    SliceAfter(input, 1, 4);
    var rest :- ExpectTag(Tag.F32, "f32", input);
    var p :- PopSlice(rest, 4);
    Ok((Float32(FromBe(p.0)), p.1))
  }

  function DecodeFloat64(input: seq<u8>): (r: Parsed<Data>)
    ensures r.Ok? ==> |r.value.1| < |input|
    ensures PopTag(input).Err? ==> r == Err(PopTag(input).error)
    ensures PopTag(input).Ok? ==>
      var tag := PopTag(input).value.0;
      (tag != Tag.F64 ==> r == Unexpected("f64", tag))
      && (tag == Tag.F64 ==> (r.Ok? <==> 9 <= |input|))
      && (tag == Tag.F64 && |input| < 9 ==> r == Err(Eof))
    ensures r.Ok? ==> r.value == (Float64(FromBe(input[1..9])), input[9..])
  {
    SliceAfter(input, 1, 8);
    var rest :- ExpectTag(Tag.F64, "f64", input);
    var p :- PopSlice(rest, 8);
    Ok((Float64(FromBe(p.0)), p.1))
  }

  /** `deserialize_char`: a `CharN` tag, N bytes, and the first character of
      their UTF-8 decoding (`unwrap_or_default` for none, which cannot
      happen as N is at least 1). */
  function DecodeChar(input: seq<u8>): (r: Parsed<Data>)
    ensures r.Ok? ==> |r.value.1| < |input|
    ensures PopTag(input).Err? ==> r == Err(PopTag(input).error)
    ensures PopTag(input).Ok? ==>
      var t := PopTag(input).value.0;
      (!(t.Char1? || t.Char2? || t.Char3? || t.Char4?) ==> r == Unexpected("char", t))
      && (t.Char1? || t.Char2? || t.Char3? || t.Char4? ==>
            var n := Tags.CharLen(t);
            (|input| < 1 + n ==> r == Err(Eof))
            && (1 + n <= |input| ==> (r.Ok? <==> DecodeUtf8(input[1..1 + n]).Some?))
            && (1 + n <= |input| && DecodeUtf8(input[1..1 + n]).None? ==> r == Err(InvalidStr))
            && (r.Ok? ==>
                  var text := DecodeUtf8(input[1..1 + n]).value;
                  |text| > 0 && r.value == (Char(text[0]), input[1 + n..])))
  {
    var p :- PopTag(input);
    if !(p.0.Char1? || p.0.Char2? || p.0.Char3? || p.0.Char4?) then Unexpected("char", p.0)
    else
      SliceAfter(input, 1, Tags.CharLen(p.0));
      var q :- PopSlice(p.1, Tags.CharLen(p.0));
      match DecodeUtf8(q.0)
      case None => Err(InvalidStr)
      case Some(text) => Ok((Char(if |text| == 0 then '\0' else text[0]), q.1))
  }

  /** `deserialize_str` / `deserialize_string`. */
  function DecodeStr(input: seq<u8>): (r: Parsed<Data>)
    ensures r.Ok? ==> |r.value.1| < |input|
    ensures r.Ok? <==> ParseStr(input).Ok?
    ensures r.Ok? ==> r.value == (Str(ParseStr(input).value.0), ParseStr(input).value.1)
    ensures r.Err? ==> r.error == ParseStr(input).error
  {
    var p :- ParseStr(input);
    Ok((Str(p.0), p.1))
  }

  /** `deserialize_bytes` / `deserialize_byte_buf`. */
  function DecodeBytes(input: seq<u8>): (r: Parsed<Data>)
    ensures r.Ok? ==> |r.value.1| < |input|
    ensures PopTag(input).Err? ==> r == Err(PopTag(input).error)
    ensures PopTag(input).Ok? ==>
      var t := PopTag(input).value.0;
      (t != Tag.ByteArray ==> r == Unexpected("ByteArray", t))
      && (t == Tag.ByteArray && |input| < 9 ==> r == Err(Eof))
      && (t == Tag.ByteArray && 9 <= |input| ==>
            var n := FromBe(input[1..9]);
            (r.Ok? <==> 9 + n <= |input|)
            && (r.Ok? ==> r.value == (ByteArray(input[9..9 + n]), input[9 + n..]))
            && (|input| < 9 + n ==> r == Err(Eof)))
  {
    SliceAfter(input, 1, 8);
    var rest :- ExpectTag(Tag.ByteArray, "ByteArray", input);
    assert rest == input[1..];
    var n :- PopUsize(rest);
    assert n == (FromBe(input[1..9]), input[9..]);
    SliceAfter(input, 9, n.0);
    var p :- PopSlice(n.1, n.0);
    Ok((ByteArray(p.0), p.1))
  }

  /** `deserialize_option`: `None`, or `Some` and the content. */
  function DecodeOption(s: Shape, input: seq<u8>): (r: Parsed<Data>)
    requires s.SOption?
    ensures r.Ok? ==> |r.value.1| < |input|
    ensures PopTag(input).Err? ==> r == Err(PopTag(input).error)
    ensures PopTag(input).Ok? ==>
      var t := PopTag(input).value.0;
      (t == Tag.None ==> r == Ok((NoneValue, input[1..])))
      && (t == Tag.Some ==>
            (r.Ok? <==> Decode(s.inner, input[1..]).Ok?)
            && (r.Ok? ==>
                  r.value == (SomeValue(Decode(s.inner, input[1..]).value.0), Decode(s.inner, input[1..]).value.1)))
      && (t != Tag.None && t != Tag.Some ==> r == Unexpected("Option", t))
    decreases s, 1, 0
  {
    var p :- PopTag(input);
    match p.0
    case None => Ok((NoneValue, p.1))
    case Some =>
      var q :- Decode(s.inner, p.1);
      Ok((SomeValue(q.0), q.1))
    case _ => Unexpected("Option", p.0)
  }

  function DecodeUnit(input: seq<u8>): (r: Parsed<Data>)
    ensures r.Ok? ==> |r.value.1| < |input|
    ensures PopTag(input).Err? ==> r == Err(PopTag(input).error)
    ensures PopTag(input).Ok? ==>
      var t := PopTag(input).value.0;
      (t == Tag.Unit ==> r == Ok((Unit, input[1..])))
      && (t != Tag.Unit ==> r == Unexpected("Unit", t))
  {
    var rest :- ExpectTag(Tag.Unit, "Unit", input);
    Ok((Unit, rest))
  }

  function DecodeUnitStruct(input: seq<u8>): (r: Parsed<Data>)
    ensures r.Ok? ==> |r.value.1| < |input|
    ensures PopTag(input).Err? ==> r == Err(PopTag(input).error)
    ensures PopTag(input).Ok? ==>
      var t := PopTag(input).value.0;
      (t == Tag.UnitStruct ==> r == Ok((UnitStruct, input[1..])))
      && (t != Tag.UnitStruct ==> r == Unexpected("UnitStruct", t))
  {
    var rest :- ExpectTag(Tag.UnitStruct, "UnitStruct", input);
    Ok((UnitStruct, rest))
  }

  function DecodeNewtypeStruct(s: Shape, input: seq<u8>): (r: Parsed<Data>)
    requires s.SNewtypeStruct?
    ensures r.Ok? ==> |r.value.1| < |input|
    ensures PopTag(input).Err? ==> r == Err(PopTag(input).error)
    ensures PopTag(input).Ok? && PopTag(input).value.0 != Tag.NewTypeStruct ==>
      r == Unexpected("NewTypeStruct", PopTag(input).value.0)
    ensures r.Ok? ==> PopTag(input).Ok? && PopTag(input).value.0 == Tag.NewTypeStruct
    ensures PopTag(input).Ok? && PopTag(input).value.0 == Tag.NewTypeStruct ==>
      (r.Ok? <==> Decode(s.inner, input[1..]).Ok?)
      && (r.Ok? ==>
            r.value == (NewtypeStruct(Decode(s.inner, input[1..]).value.0), Decode(s.inner, input[1..]).value.1))
    decreases s, 1, 0
  {
    var rest :- ExpectTag(Tag.NewTypeStruct, "NewTypeStruct", input);
    var q :- Decode(s.inner, rest);
    Ok((NewtypeStruct(q.0), q.1))
  }

  /** `deserialize_tuple`, `deserialize_tuple_struct` and
      `deserialize_struct`: the tag, the one-byte count, which must equal the
      requested arity, then one element per component in order. */
  function DecodeCounted(t: Tag, what: string, ss: seq<Shape>, input: seq<u8>): (r: Parsed<seq<Data>>)
    ensures r.Ok? ==> |r.value.1| < |input| && |r.value.0| == |ss|
    ensures PopTag(input).Err? ==> r == Err(PopTag(input).error)
    ensures PopTag(input).Ok? ==>
      var tag := PopTag(input).value.0;
      (tag != t ==> r == Unexpected(what, tag))
      && (tag == t && |input| < 2 ==> r == Err(Eof))
      && (tag == t && 2 <= |input| && input[1] as nat != |ss| ==>
            r == Err(SeqSizeMismatch(|ss|, input[1] as nat)))
    ensures r.Ok? ==> PopTag(input).Ok? && PopTag(input).value.0 == t && 2 <= |input| && input[1] as nat == |ss|
    decreases ss, 1, 0
  {
    var rest :- ExpectTag(t, what, input);
    var p :- PopSlice(rest, 1);
    var got := p.0[0];
    if |ss| != got then Err(SeqSizeMismatch(|ss|, got))
    else DecodeElems(ss, p.1)
  }

  function DecodeTuple(s: Shape, input: seq<u8>): (r: Parsed<Data>)
    requires s.STuple?
    ensures r.Ok? ==> |r.value.1| < |input|
    ensures PopTag(input).Err? ==> r == Err(PopTag(input).error)
    ensures PopTag(input).Ok? ==>
      var tag := PopTag(input).value.0;
      (tag != Tag.Tuple ==> r == Unexpected("Tuple", tag))
      && (tag == Tag.Tuple && |input| < 2 ==> r == Err(Eof))
      && (tag == Tag.Tuple && 2 <= |input| && input[1] as nat != |s.elems| ==>
            r == Err(SeqSizeMismatch(|s.elems|, input[1] as nat)))
    ensures r.Ok? ==> r.value.0.Tuple? && |r.value.0.elems| == |s.elems|
    decreases s, 1, 0
  {
    var p :- DecodeCounted(Tag.Tuple, "Tuple", s.elems, input);
    Ok((Tuple(p.0), p.1))
  }

  function DecodeTupleStruct(s: Shape, input: seq<u8>): (r: Parsed<Data>)
    requires s.STupleStruct?
    ensures r.Ok? ==> |r.value.1| < |input|
    ensures PopTag(input).Err? ==> r == Err(PopTag(input).error)
    ensures PopTag(input).Ok? ==>
      var tag := PopTag(input).value.0;
      (tag != Tag.TupleStruct ==> r == Unexpected("TupleStruct", tag))
      && (tag == Tag.TupleStruct && |input| < 2 ==> r == Err(Eof))
      && (tag == Tag.TupleStruct && 2 <= |input| && input[1] as nat != |s.elems| ==>
            r == Err(SeqSizeMismatch(|s.elems|, input[1] as nat)))
    ensures r.Ok? ==> r.value.0.TupleStruct? && |r.value.0.elems| == |s.elems|
    decreases s, 1, 0
  {
    var p :- DecodeCounted(Tag.TupleStruct, "TupleStruct", s.elems, input);
    Ok((TupleStruct(p.0), p.1))
  }

  /** A struct's fields arrive through `StructDeserializer`, whose keys are
      the positions 0, 1, ... and whose values are read in that order. */
  function DecodeStruct(s: Shape, input: seq<u8>): (r: Parsed<Data>)
    requires s.SStruct?
    ensures r.Ok? ==> |r.value.1| < |input|
    ensures PopTag(input).Err? ==> r == Err(PopTag(input).error)
    ensures PopTag(input).Ok? ==>
      var tag := PopTag(input).value.0;
      (tag != Tag.Struct ==> r == Unexpected("Struct", tag))
      && (tag == Tag.Struct && |input| < 2 ==> r == Err(Eof))
      && (tag == Tag.Struct && 2 <= |input| && input[1] as nat != |s.fields| ==>
            r == Err(SeqSizeMismatch(|s.fields|, input[1] as nat)))
    ensures r.Ok? ==> r.value.0.Struct? && |r.value.0.fields| == |s.fields|
    decreases s, 1, 0
  {
    var p :- DecodeCounted(Tag.Struct, "Struct", s.fields, input);
    Ok((Struct(p.0), p.1))
  }

  /** One element of each shape of `ss`, in order. */
  function DecodeElems(ss: seq<Shape>, input: seq<u8>): (r: Parsed<seq<Data>>)
    ensures r.Ok? ==> |r.value.1| <= |input| && |r.value.0| == |ss|
    decreases ss, 0, 0
  {
    if ss == [] then Ok(([], input))
    else
      var p :- Decode(ss[0], input);
      var q :- DecodeElems(ss[1..], p.1);
      Ok(([p.0] + q.0, q.1))
  }

  /** `deserialize_seq`: the `Seq` tag, a `usize` count, then that many
      elements of the element shape. */
  function DecodeSeq(s: Shape, input: seq<u8>): (r: Parsed<Data>)
    requires s.SSeq?
    ensures r.Ok? ==> |r.value.1| < |input|
    ensures PopTag(input).Err? ==> r == Err(PopTag(input).error)
    ensures PopTag(input).Ok? ==>
      var tag := PopTag(input).value.0;
      (tag != Tag.Seq ==> r == Unexpected("Sequence", tag))
      && (tag == Tag.Seq && |input| < 9 ==> r == Err(Eof))
    ensures r.Ok? ==>
      9 <= |input| && r.value.0.Seq? && r.value.0.known && |r.value.0.elems| == FromBe(input[1..9])
    decreases s, 1, 0
  {
    var p :- PopTag(input);
    match p.0
    case Seq =>
      SliceAfter(input, 1, 8);
      var n :- PopUsize(p.1);
      var q :- DecodeRepeat(s, n.0, n.1);
      Ok((Seq(true, q.0), q.1))
    case _ => Unexpected("Sequence", p.0)
  }

  /** `n` elements of the element shape of the sequence shape `s`. */
  function DecodeRepeat(s: Shape, n: nat, input: seq<u8>): (r: Parsed<seq<Data>>)
    requires s.SSeq?
    ensures r.Ok? ==> |r.value.1| <= |input| && |r.value.0| == n
    decreases s, 0, n
  {
    if n == 0 then Ok(([], input))
    else
      var p :- Decode(s.elem, input);
      var q :- DecodeRepeat(s, n - 1, p.1);
      Ok(([p.0] + q.0, q.1))
  }

  /** `deserialize_map`: the `Map` tag, a `usize` count, then that many
      entries, each a key and its value. */
  function DecodeMap(s: Shape, input: seq<u8>): (r: Parsed<Data>)
    requires s.SMap?
    ensures r.Ok? ==> |r.value.1| < |input|
    ensures PopTag(input).Err? ==> r == Err(PopTag(input).error)
    ensures PopTag(input).Ok? ==>
      var tag := PopTag(input).value.0;
      (tag != Tag.Map ==> r == Unexpected("Map", tag))
      && (tag == Tag.Map && |input| < 9 ==> r == Err(Eof))
    ensures r.Ok? ==>
      9 <= |input| && r.value.0.Map? && r.value.0.known && |r.value.0.entries| == FromBe(input[1..9])
    decreases s, 1, 0
  {
    var p :- PopTag(input);
    match p.0
    case Map =>
      SliceAfter(input, 1, 8);
      var n :- PopUsize(p.1);
      var q :- DecodeEntries(s, n.0, n.1);
      Ok((Map(true, q.0), q.1))
    case _ => Unexpected("Map", p.0)
  }

  /** `n` entries of the map shape `s`: the count is decremented once per
      key (`next_key_seed`), and each key is followed by its value. */
  function DecodeEntries(s: Shape, n: nat, input: seq<u8>): (r: Parsed<seq<Entry>>)
    requires s.SMap?
    ensures r.Ok? ==> |r.value.1| <= |input| && |r.value.0| == n
    decreases s, 0, n
  {
    if n == 0 then Ok(([], input))
    else
      var k :- Decode(s.key, input);
      var v :- Decode(s.value, k.1);
      var q :- DecodeEntries(s, n - 1, v.1);
      Ok(([Entry(k.0, v.0)] + q.0, q.1))
  }

  // ---------------------------------------------------------------------
  // Enums
  // ---------------------------------------------------------------------

  /** What `deserialize_identifier` hands the variant visitor. */
  datatype Identifier = Index(index: nat) | Name(name: string)

  /** `deserialize_identifier`: a variant tag and a 4-byte big-endian
      index, or a `String` with a known length. */
  function DecodeIdentifier(input: seq<u8>): (r: Parsed<Identifier>)
    ensures r.Ok? ==> |r.value.1| < |input|
    ensures PopTag(input).Err? ==> r == Err(PopTag(input).error)
    ensures PopTag(input).Ok? ==>
      var t := PopTag(input).value.0;
      (t.IsVariant() ==> (r.Ok? <==> 5 <= |input|))
      && (t.IsVariant() && |input| < 5 ==> r == Err(Eof))
      && (t.IsVariant() && r.Ok? ==> r.value == (Index(FromBe(input[1..5])), input[5..]))
      && (t == Tag.String ==> (r.Ok? <==> ParseKnownLenStr(input[1..]).Ok?))
      && (t == Tag.String && r.Ok? ==>
            r.value == (Name(ParseKnownLenStr(input[1..]).value.0), ParseKnownLenStr(input[1..]).value.1))
      && (t == Tag.String && r.Err? ==> r.error == ParseKnownLenStr(input[1..]).error)
      && (!t.IsVariant() && t != Tag.String ==> r == Unexpected("Identifier", t))
  {
    SliceAfter(input, 1, 4);
    var p :- PopTag(input);
    if p.0.IsVariant() then
      var q :- PopSlice(p.1, 4);
      Ok((Index(FromBe(q.0)), q.1))
    else if p.0 == Tag.String then
      var q :- ParseKnownLenStr(p.1);
      Ok((Name(q.0), q.1))
    else Unexpected("Identifier", p.0)
  }

  /** The first variant at or after `from` called `name`. */
  function FindVariant(vs: seq<Variant>, name: string, from: nat): (r: Option<nat>)
    ensures r.Some? ==> from <= r.value < |vs| && vs[r.value].name == name
    ensures r.Some? ==> forall j :: from <= j < r.value ==> vs[j].name != name
    ensures r.None? ==> forall j :: from <= j < |vs| ==> vs[j].name != name
    decreases |vs| - from
  {
    if from >= |vs| then None
    else if vs[from].name == name then Some(from)
    else FindVariant(vs, name, from + 1)
  }

  /** The derived variant visitor: an index names the variant at that
      position, a string the first variant of that name; any other is an
      unknown variant. */
  function ResolveVariant(vs: seq<Variant>, id: Identifier): (r: Wrappers.Result<nat, Error>)
    ensures r.Ok? ==> r.value < |vs|
    ensures id.Index? ==> (r.Ok? <==> id.index < |vs|) && (r.Ok? ==> r.value == id.index)
    ensures id.Name? ==> (r.Ok? <==> exists j :: 0 <= j < |vs| && vs[j].name == id.name)
    ensures id.Name? && r.Ok? ==> vs[r.value].name == id.name
    ensures r.Err? ==> r.error == UnknownVariant
  {
    match id
    case Index(i) => if i < |vs| then Ok(i) else Err(UnknownVariant)
    case Name(n) =>
      match FindVariant(vs, n, 0)
      case None => Err(UnknownVariant)
      case Some(i) => Ok(i)
  }

  /** `deserialize_enum`: only peeks that a variant tag follows; the
      identifier then pops it, and the payload is read as the kind the
      requested variant declares, whatever the tag said. */
  function DecodeEnum(s: Shape, input: seq<u8>): (r: Parsed<Data>)
    requires s.SEnum?
    ensures r.Ok? ==> |r.value.1| < |input|
    ensures PopTag(input).Err? ==> r == Err(PopTag(input).error)
    ensures PopTag(input).Ok? && !PopTag(input).value.0.IsVariant() ==>
      r == Unexpected("Enum", PopTag(input).value.0)
    ensures (PopTag(input).Ok? && PopTag(input).value.0.IsVariant() && 5 <= |input|
             && FromBe(input[1..5]) >= |s.variants|) ==> r == Err(UnknownVariant)
    ensures r.Ok? ==> PopTag(input).Ok? && PopTag(input).value.0.IsVariant()
    decreases s, 1, 0
  {
    var t :- PeekTag(input);
    if !t.IsVariant() then Unexpected("Enum", t)
    else
      var p :- DecodeIdentifier(input);
      var i :- ResolveVariant(s.variants, p.0);
      DecodeVariant(s, i, p.1)
  }

  /** `VariantAccess`: `unit_variant` reads nothing, `newtype_variant_seed`
      the content, `tuple_variant` and `struct_variant` a counted sequence of
      the declared length. */
  function DecodeVariant(s: Shape, i: nat, input: seq<u8>): (r: Parsed<Data>)
    requires s.SEnum? && i < |s.variants|
    ensures r.Ok? ==> |r.value.1| <= |input|
    decreases s, 0, 0
  {
    match s.variants[i].kind
    case VUnit => Ok((UnitVariant(i), input))
    case VNewtype(x) =>
      var q :- Decode(x, input);
      Ok((NewtypeVariant(i, q.0), q.1))
    case VTuple(ss) =>
      var q :- DecodeElems(ss, input);
      Ok((TupleVariant(i, q.0), q.1))
    case VStruct(fs) =>
      var q :- DecodeElems(fs, input);
      Ok((StructVariant(i, q.0), q.1))
  }

  /** `from_bytes`: decode, then insist that nothing is left. */
  function FromBytes(s: Shape, input: seq<u8>): (r: Wrappers.Result<Data, Error>)
    ensures r.Ok? <==> Decode(s, input).Ok? && Decode(s, input).value.1 == []
    ensures r.Ok? ==> r.value == Decode(s, input).value.0
    ensures Decode(s, input).Err? ==> r == Err(Decode(s, input).error)
    ensures Decode(s, input).Ok? && Decode(s, input).value.1 != [] ==>
      r == Err(TrailingBytes(|Decode(s, input).value.1|))
  {
    var p :- Decode(s, input);
    if |p.1| == 0 then Ok(p.0) else Err(TrailingBytes(|p.1|))
  }

  // ---------------------------------------------------------------------
  // Schema-less decoding: `deserialize_any` with `ValueVisitor`
  // ---------------------------------------------------------------------

  /** The visit call a typed decoder makes for a scalar value. */
  function ScalarValue(d: Data): Value
  {
    match d
    case Bool(b) => Values.VisitBool(b)
    case Int(t, x) => Values.VisitInt(t, x)
    case Float32(bits) => Values.VisitF32(bits)
    case Float64(bits) => Values.VisitF64(bits)
    case Char(c) => Values.VisitChar(c)
    case Str(text) => Values.VisitBorrowedStr(text)
    case ByteArray(b) => Values.VisitBorrowedBytes(b)
    case _ => Values.VisitUnit()
  }

  /** A typed scalar decoder run with `ValueVisitor`. */
  function AnyScalar(d: Parsed<Data>): Parsed<Value>
  {
    var p :- d;
    Ok((ScalarValue(p.0), p.1))
  }

  /** The integer type whose `deserialize_*` method a number tag selects. */
  function IntOfTag(t: Tag): (r: IntType)
    requires t.I8? || t.I16? || t.I32? || t.I64? || t.I128? || t.U8? || t.U16? || t.U32? || t.U64? || t.U128?
    ensures AnySer.IntTag(r) == t
  {
    match t
    case I8 => IntType.I8
    case I16 => IntType.I16
    case I32 => IntType.I32
    case I64 => IntType.I64
    case I128 => IntType.I128
    case U8 => IntType.U8
    case U16 => IntType.U16
    case U32 => IntType.U32
    case U64 => IntType.U64
    case U128 => IntType.U128
  }

  /** `deserialize_any`: peeks the tag and reads what it announces, building
      a `Value`; any variant tag reaches `visit_enum`, which aborts. */
  function DecodeAny(input: seq<u8>): (r: Parsed<Value>)
    ensures r.Ok? ==> |r.value.1| < |input|
    decreases |input|, 2
  {
    var t :- PeekTag(input);
    AnyByTag(t, input)
  }

  /** The `deserialize_*` call `deserialize_any` makes for the peeked tag. */
  function AnyByTag(t: Tag, input: seq<u8>): (r: Parsed<Value>)
    ensures r.Ok? ==> |r.value.1| < |input|
    decreases |input|, 2, 0
  {
    match t
    case None | Some => AnyOption(input)
    case BoolFalse | BoolTrue => AnyScalar(DecodeBool(input))
    case I8 | I16 | I32 | I64 | I128 | U8 | U16 | U32 | U64 | U128 => AnyScalar(DecodeInt(IntOfTag(t), input))
    case F32 => AnyScalar(DecodeFloat32(input))
    case F64 => AnyScalar(DecodeFloat64(input))
    case Char1 | Char2 | Char3 | Char4 => AnyScalar(DecodeChar(input))
    case String | NullTerminatedString => AnyScalar(DecodeStr(input))
    case ByteArray => AnyScalar(DecodeBytes(input))
    case Unit => AnyScalar(DecodeUnit(input))
    case UnitStruct => AnyScalar(DecodeUnitStruct(input))
    case UnitVariant | NewTypeVariant | TupleVariant | StructVariant => Err(Panic("not yet implemented"))
    case NewTypeStruct => AnyNewtypeStruct(input)
    case Seq | UnsizedSeq => AnySeq(input)
    case Tuple => AnyCounted(Tag.Tuple, "Tuple", input)
    case TupleStruct => AnyCounted(Tag.TupleStruct, "TupleStruct", input)
    case Map | UnsizedMap => AnyMap(input)
    case Struct => AnyStruct(input)
    case UnsizedSeqEnd => Unexpected("Any tag other than end of sequence", Tag.UnsizedSeqEnd)
  }

  /** `deserialize_option` with `ValueVisitor`: `visit_some` reads the
      content with `deserialize_any`. */
  function AnyOption(input: seq<u8>): (r: Parsed<Value>)
    ensures r.Ok? ==> |r.value.1| < |input|
    decreases |input|, 1
  {
    var p :- PopTag(input);
    match p.0
    case None => Ok((Values.VisitNone(), p.1))
    case Some =>
      var q :- DecodeAny(p.1);
      Ok((Values.VisitSome(q.0), q.1))
    case _ => Unexpected("Option", p.0)
  }

  function AnyNewtypeStruct(input: seq<u8>): (r: Parsed<Value>)
    ensures r.Ok? ==> |r.value.1| < |input|
    decreases |input|, 1
  {
    var rest :- ExpectTag(Tag.NewTypeStruct, "NewTypeStruct", input);
    var q :- DecodeAny(rest);
    Ok((Values.VisitNewtypeStruct(q.0), q.1))
  }

  /** `deserialize_seq` with `ValueVisitor`: `visit_seq` collects the
      elements into an `Array`. */
  function AnySeq(input: seq<u8>): (r: Parsed<Value>)
    ensures r.Ok? ==> |r.value.1| < |input|
    decreases |input|, 1
  {
    var p :- PopTag(input);
    match p.0
    case Seq =>
      var n :- PopUsize(p.1);
      var q :- AnyElems(n.0, n.1);
      Ok((Value.Array(q.0), q.1))
    case _ => Unexpected("Sequence", p.0)
  }

  /** `parse_tuple` / `parse_tuple_struct`: the tag and the one-byte count,
      with no arity to compare it with. */
  function AnyCounted(t: Tag, what: string, input: seq<u8>): (r: Parsed<Value>)
    ensures r.Ok? ==> |r.value.1| < |input|
    decreases |input|, 1
  {
    var rest :- ExpectTag(t, what, input);
    var p :- PopSlice(rest, 1);
    var q :- AnyElems(p.0[0], p.1);
    Ok((Value.Array(q.0), q.1))
  }

  /** `n` values read with `deserialize_any`, in order. */
  function AnyElems(n: nat, input: seq<u8>): (r: Parsed<seq<Value>>)
    ensures r.Ok? ==> |r.value.1| <= |input| && |r.value.0| == n
    decreases |input|, 3
  {
    if n == 0 then Ok(([], input))
    else
      var p :- DecodeAny(input);
      var q :- AnyElems(n - 1, p.1);
      Ok(([p.0] + q.0, q.1))
  }

  /** `deserialize_map` with `ValueVisitor`: the entries in order. */
  function AnyMap(input: seq<u8>): (r: Parsed<Value>)
    ensures r.Ok? ==> |r.value.1| < |input|
    decreases |input|, 1
  {
    var p :- PopTag(input);
    match p.0
    case Map =>
      var n :- PopUsize(p.1);
      var q :- AnyEntries(n.0, n.1);
      Ok((Value.Map(q.0), q.1))
    case _ => Unexpected("Map", p.0)
  }

  /** One entry, `next_entry`: a key and then its value, both read with
      `deserialize_any`. */
  function AnyEntry(input: seq<u8>): (r: Parsed<Values.ValueEntry>)
    ensures r.Ok? ==> |r.value.1| < |input|
    decreases |input|, 3
  {
    var k :- DecodeAny(input);
    var v :- DecodeAny(k.1);
    Ok((Values.ValueEntry(k.0, v.0), v.1))
  }

  /** `n` entries in order. */
  function AnyEntries(n: nat, input: seq<u8>): (r: Parsed<seq<Values.ValueEntry>>)
    ensures r.Ok? ==> |r.value.1| <= |input| && |r.value.0| == n
    decreases |input|, 4
  {
    if n == 0 then Ok(([], input))
    else
      var e :- AnyEntry(input);
      var q :- AnyEntries(n - 1, e.1);
      Ok(([e.0] + q.0, q.1))
  }

  /** `parse_struct`: the tag, the one-byte count, then the fields as the
      entries of a `Map` keyed by their position. */
  function AnyStruct(input: seq<u8>): (r: Parsed<Value>)
    ensures r.Ok? ==> |r.value.1| < |input|
    decreases |input|, 1
  {
    var rest :- ExpectTag(Tag.Struct, "Struct", input);
    var p :- PopSlice(rest, 1);
    var q :- AnyFields(p.0[0], 0, p.1);
    Ok((Value.Map(q.0), q.1))
  }

  /** The key `StructDeserializer` hands out for position `i`:
      `i.into_deserializer()` seen by `deserialize_any` is `visit_u64(i)`. */
  function FieldKey(i: nat): Value
  {
    Values.VisitInt(IntType.U64, i)
  }

  /** `n` struct fields from position `index` on: each key is the position,
      which reads no input, and each value is read with `deserialize_any`. */
  function AnyFields(n: nat, index: nat, input: seq<u8>): (r: Parsed<seq<Values.ValueEntry>>)
    ensures r.Ok? ==> |r.value.1| <= |input| && |r.value.0| == n
    ensures r.Ok? ==> forall j :: 0 <= j < n ==> r.value.0[j].key == FieldKey(index + j)
    decreases |input|, 3
  {
    if n == 0 then Ok(([], input))
    else
      var v :- DecodeAny(input);
      var q :- AnyFields(n - 1, index + 1, v.1);
      Ok(([Values.ValueEntry(FieldKey(index), v.0)] + q.0, q.1))
  }
}
