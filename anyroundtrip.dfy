/** The self-describing format reads back what it wrote: decoding
    `AnySer.Encode(v)` with the shape of `v`'s type yields `v` (with
    `collect_str` text turned into a plain string) and leaves whatever
    followed it untouched. */
module AnyRoundTrip {
  import opened Bytes
  import opened Wrappers
  import opened Errors
  import opened DataModel
  import Tags
  import AnySer
  import AnyDe

  /** Values whose every sequence and map announced its length, and whose
      every tuple, tuple struct and struct has fewer than 256 components, so
      that its one-byte count is exact. */
  predicate Sized(v: Data)
  {
    match v
    case SomeValue(x) => Sized(x)
    case NewtypeStruct(x) => Sized(x)
    case NewtypeVariant(_, x) => Sized(x)
    case Tuple(es) => |es| < 256 && forall j :: 0 <= j < |es| ==> Sized(es[j])
    case TupleStruct(es) => |es| < 256 && forall j :: 0 <= j < |es| ==> Sized(es[j])
    case TupleVariant(_, es) => forall j :: 0 <= j < |es| ==> Sized(es[j])
    case Seq(known, es) => known && forall j :: 0 <= j < |es| ==> Sized(es[j])
    case Map(known, ents) =>
      known && forall j :: 0 <= j < |ents| ==> Sized(ents[j].key) && Sized(ents[j].value)
    case Struct(fs) => |fs| < 256 && forall j :: 0 <= j < |fs| ==> Sized(fs[j])
    case StructVariant(_, fs) => forall j :: 0 <= j < |fs| ==> Sized(fs[j])
    case _ => true
  }

  predicate Codable(v: Data)
  {
    WellFormed(v) && Sized(v)
  }

  predicate AllCodable(es: seq<Data>)
  {
    forall j :: 0 <= j < |es| ==> Codable(es[j])
  }

  /** What the decoder gives back for `v`: `collect_str` output is read as
      the string `Display` produced. */
  function Normalize(v: Data): Data
    decreases v, 1
  {
    match v
    case SomeValue(x) => SomeValue(Normalize(x))
    case NewtypeStruct(x) => NewtypeStruct(Normalize(x))
    case NewtypeVariant(i, x) => NewtypeVariant(i, Normalize(x))
    case Tuple(es) => Tuple(NormalizeAll(es))
    case TupleStruct(es) => TupleStruct(NormalizeAll(es))
    case TupleVariant(i, es) => TupleVariant(i, NormalizeAll(es))
    case Seq(known, es) => Seq(known, NormalizeAll(es))
    case Map(known, ents) => Map(known, NormalizeEntries(ents))
    case Struct(fs) => Struct(NormalizeAll(fs))
    case StructVariant(i, fs) => StructVariant(i, NormalizeAll(fs))
    case DisplayStr(ps) => Str(Joined(ps))
    case _ => v
  }

  function NormalizeAll(es: seq<Data>): (r: seq<Data>)
    ensures |r| == |es|
    decreases es, 0
  {
    if es == [] then [] else [Normalize(es[0])] + NormalizeAll(es[1..])
  }

  function NormalizeEntries(ents: seq<Entry>): (r: seq<Entry>)
    ensures |r| == |ents|
    decreases ents, 0
  {
    if ents == [] then [] else [NormalizeEntry(ents[0])] + NormalizeEntries(ents[1..])
  }

  function NormalizeEntry(e: Entry): Entry
    decreases e, 1
  {
    Entry(Normalize(e.key), Normalize(e.value))
  }

  // ---------------------------------------------------------------------
  // The cursor reads back what the writer appended
  // ---------------------------------------------------------------------

  lemma PopSliceOf(a: seq<u8>, rest: seq<u8>)
    ensures AnyDe.PopSlice(a + rest, |a|) == Ok((a, rest))
  {
    assert (a + rest)[..|a|] == a;
    assert (a + rest)[|a|..] == rest;
  }

  lemma PopTagOf(t: Tags.Tag, rest: seq<u8>)
    requires t.HasByte()
    ensures AnyDe.PopTag([AnySer.TagByte(t)] + rest) == Ok((t, rest))
  {
    Tags.ToByteFromByte(t);
    PopSliceOf([AnySer.TagByte(t)], rest);
  }

  lemma ExpectTagOf(t: Tags.Tag, what: string, rest: seq<u8>)
    requires t.HasByte()
    ensures AnyDe.ExpectTag(t, what, [AnySer.TagByte(t)] + rest) == Ok(rest)
  {
    PopTagOf(t, rest);
  }

  lemma PopUsizeOf(n: nat, rest: seq<u8>)
    requires n < Pow256(8)
    ensures AnyDe.PopUsize(BeBytes(n, 8) + rest) == Ok((n, rest))
  {
    PopSliceOf(BeBytes(n, 8), rest);
    FromBeBytes(n, 8);
  }

  lemma MaxLenFits()
    ensures MaxLen < Pow256(8)
  {
    HalfDoubles(8);
  }

  /** `EncodeList` and `EncodeEntries` append at the end; the decoder reads
      from the front. */
  lemma {:induction false} EncodeListFirst(es: seq<Data>)
    requires |es| >= 1
    ensures AnySer.EncodeList(es) == AnySer.Encode(es[0]) + AnySer.EncodeList(es[1..])
    decreases |es|
  {
    var n := |es|;
    if n > 1 {
      var init := es[..n - 1];
      EncodeListFirst(init);
      assert init[0] == es[0];
      assert init[1..] == es[1..][..n - 2];
      assert es[1..][n - 2] == es[n - 1];
      AppendAssoc(AnySer.Encode(es[0]), AnySer.EncodeList(init[1..]), AnySer.Encode(es[n - 1]));
    } else {
      assert es[..0] == [];
      assert es[1..] == [];
    }
  }

  lemma {:induction false} EncodeEntriesFirst(ents: seq<Entry>)
    requires |ents| >= 1
    ensures AnySer.EncodeEntries(ents) == AnySer.EncodeEntry(ents[0]) + AnySer.EncodeEntries(ents[1..])
    decreases |ents|
  {
    var n := |ents|;
    if n > 1 {
      var init := ents[..n - 1];
      EncodeEntriesFirst(init);
      assert init[0] == ents[0];
      assert init[1..] == ents[1..][..n - 2];
      assert ents[1..][n - 2] == ents[n - 1];
      AppendAssoc(AnySer.EncodeEntry(ents[0]), AnySer.EncodeEntries(init[1..]), AnySer.EncodeEntry(ents[n - 1]));
    } else {
      assert ents[..0] == [];
      assert ents[1..] == [];
    }
  }

  // ---------------------------------------------------------------------
  // Strings
  // ---------------------------------------------------------------------

  /** A length-prefixed UTF-8 string reads back as its text. */
  lemma KnownLenStrOf(s: string, rest: seq<u8>)
    requires |EncodeUtf8(s)| < Pow256(8)
    ensures AnyDe.ParseKnownLenStr(BeBytes(|EncodeUtf8(s)|, 8) + (EncodeUtf8(s) + rest)) == Ok((s, rest))
  {
    var u := EncodeUtf8(s);
    PopUsizeOf(|u|, u + rest);
    PopSliceOf(u, rest);
    DecodeEncodedUtf8(s);
  }

  /** The first end marker after text free of the byte 0xFF is the one
      written after it. */
  lemma {:induction false} FindMarkerAfter(u: seq<u8>, tail: seq<u8>, from: nat)
    requires from <= |u|
    requires forall i :: 0 <= i < |u| ==> u[i] != 0xFF
    ensures AnyDe.FindMarker(u + (AnySer.EndMarker + tail), from) == Some(|u|)
    decreases |u| - from
  {
    var s := u + (AnySer.EndMarker + tail);
    if from == |u| {
      assert s[from..from + 2] == AnySer.EndMarker;
    } else {
      assert s[from] == u[from];
      FindMarkerAfter(u, tail, from + 1);
    }
  }

  lemma UnknownLenStrOf(text: string, rest: seq<u8>)
    ensures AnyDe.ParseUnknownLenStr(EncodeUtf8(text) + (AnySer.EndMarker + rest)) == Ok((text, rest))
  {
    var u := EncodeUtf8(text);
    DecodeEncodedUtf8(text);
    forall i | 0 <= i < |u|
      ensures u[i] != 0xFF
    {
      WellFormedAvoids(u, i);
    }
    FindMarkerAfter(u, rest, 0);
    PopSliceOf(u, AnySer.EndMarker + rest);
    PopSliceOf(AnySer.EndMarker, rest);
  }

  // ---------------------------------------------------------------------
  // What a list of values must satisfy to read back
  // ---------------------------------------------------------------------

  /** Each element is codable and conforms to its component's shape. */
  predicate ListFits(es: seq<Data>, ss: seq<Shape>)
  {
    |es| == |ss| && forall j :: 0 <= j < |es| ==> Codable(es[j]) && Conforms(es[j], ss[j])
  }

  /** Each element is codable and conforms to the one element shape. */
  predicate RepeatFits(es: seq<Data>, s: Shape)
  {
    forall j :: 0 <= j < |es| ==> Codable(es[j]) && Conforms(es[j], s)
  }

  /** A map entry the decoder can read back with key shape `k` and value
      shape `w`. */
  predicate EntryFits(e: Entry, k: Shape, w: Shape)
  {
    Codable(e.key) && Codable(e.value) && Conforms(e.key, k) && Conforms(e.value, w)
  }

  predicate EntriesFit(ents: seq<Entry>, k: Shape, w: Shape)
  {
    forall j :: 0 <= j < |ents| ==> EntryFits(ents[j], k, w)
  }

  lemma ListFitsTail(es: seq<Data>, ss: seq<Shape>)
    requires ListFits(es, ss) && |es| >= 1
    ensures ListFits(es[1..], ss[1..])
  {
    forall j | 0 <= j < |es[1..]|
      ensures Codable(es[1..][j]) && Conforms(es[1..][j], ss[1..][j])
    {
      assert es[1..][j] == es[j + 1];
    }
  }

  lemma RepeatFitsTail(es: seq<Data>, s: Shape)
    requires RepeatFits(es, s) && |es| >= 1
    ensures RepeatFits(es[1..], s)
  {
    forall j | 0 <= j < |es[1..]|
      ensures Codable(es[1..][j]) && Conforms(es[1..][j], s)
    {
      assert es[1..][j] == es[j + 1];
    }
  }

  lemma EntriesFitTail(ents: seq<Entry>, k: Shape, w: Shape)
    requires EntriesFit(ents, k, w) && |ents| >= 1
    ensures EntriesFit(ents[1..], k, w)
  {
    forall j | 0 <= j < |ents[1..]|
      ensures EntryFits(ents[1..][j], k, w)
    {
      assert ents[1..][j] == ents[j + 1];
    }
  }

  /** The components of a codable tuple or struct value that conforms to a
      tuple or struct shape fit that shape's components. */
  lemma ElemsFit(v: Data, ss: seq<Shape>)
    requires Codable(v) && (v.Tuple? || v.TupleStruct? || v.TupleVariant? || v.Seq?)
    requires AllConform(v.elems, ss)
    ensures ListFits(v.elems, ss)
  {
    assert AllWellFormed(v.elems);
  }

  lemma FieldsFit(v: Data, ss: seq<Shape>)
    requires Codable(v) && (v.Struct? || v.StructVariant?)
    requires AllConform(v.fields, ss)
    ensures ListFits(v.fields, ss)
  {
    assert AllWellFormed(v.fields);
  }

  lemma SeqFits(v: Data, s: Shape)
    requires s.SSeq? && Codable(v) && Conforms(v, s)
    ensures RepeatFits(v.elems, s.elem) && |v.elems| < MaxLen
  {
    assert AllWellFormed(v.elems);
  }

  lemma MapFits(v: Data, s: Shape)
    requires s.SMap? && Codable(v) && Conforms(v, s)
    ensures EntriesFit(v.entries, s.key, s.value) && |v.entries| < MaxLen
  {
  }

  // ---------------------------------------------------------------------
  // One lemma per kind of value
  // ---------------------------------------------------------------------

  lemma RoundTripBool(b: bool, rest: seq<u8>)
    ensures AnyDe.DecodeBool([AnySer.TagByte(if b then Tags.BoolTrue else Tags.BoolFalse)] + rest) == Ok((Bool(b), rest))
  {
    PopTagOf(if b then Tags.BoolTrue else Tags.BoolFalse, rest);
  }

  lemma RoundTripInt(t: IntType, x: int, rest: seq<u8>)
    requires InRange(x, t.Size(), t.Signed())
    ensures AnyDe.DecodeInt(t, AnySer.EncodeInt(t, x) + rest) == Ok((Int(t, x), rest))
  {
    var bs := BeBytes(x, t.Size());
    AppendAssoc([AnySer.TagByte(AnySer.IntTag(t))], bs, rest);
    ExpectTagOf(AnySer.IntTag(t), t.Label(), bs + rest);
    PopSliceOf(bs, rest);
    IntRoundTrip(x, t.Size(), t.Signed());
  }

  lemma RoundTripFloat32(bits: nat, rest: seq<u8>)
    requires bits < Pow256(4)
    ensures AnyDe.DecodeFloat32([AnySer.TagByte(Tags.F32)] + BeBytes(bits, 4) + rest) == Ok((Float32(bits), rest))
  {
    var bs := BeBytes(bits, 4);
    AppendAssoc([AnySer.TagByte(Tags.F32)], bs, rest);
    ExpectTagOf(Tags.F32, "f32", bs + rest);
    PopSliceOf(bs, rest);
    FromBeBytes(bits, 4);
  }

  lemma RoundTripFloat64(bits: nat, rest: seq<u8>)
    requires bits < Pow256(8)
    ensures AnyDe.DecodeFloat64([AnySer.TagByte(Tags.F64)] + BeBytes(bits, 8) + rest) == Ok((Float64(bits), rest))
  {
    var bs := BeBytes(bits, 8);
    AppendAssoc([AnySer.TagByte(Tags.F64)], bs, rest);
    ExpectTagOf(Tags.F64, "f64", bs + rest);
    PopSliceOf(bs, rest);
    FromBeBytes(bits, 8);
  }

  lemma RoundTripChar(c: char, rest: seq<u8>)
    ensures AnyDe.DecodeChar(AnySer.EncodeCharValue(c) + rest) == Ok((Char(c), rest))
  {
    var (tag, bytes) := Tags.EncodeChar(c);
    AppendAssoc([AnySer.TagByte(tag)], bytes, rest);
    PopTagOf(tag, bytes + rest);
    PopSliceOf(bytes, rest);
  }

  lemma RoundTripStr(s: string, rest: seq<u8>)
    requires |EncodeUtf8(s)| < MaxLen
    ensures AnyDe.DecodeStr(AnySer.EncodeStr(s) + rest) == Ok((Str(s), rest))
  {
    var u := EncodeUtf8(s);
    var t := [AnySer.TagByte(Tags.String)];
    MaxLenFits();
    AppendAssoc(t + BeBytes(|u|, 8), u, rest);
    AppendAssoc(t, BeBytes(|u|, 8), u + rest);
    ParseStrKnownOf(s, rest);
  }

  lemma ParseStrKnownOf(s: string, rest: seq<u8>)
    requires |EncodeUtf8(s)| < Pow256(8)
    ensures AnyDe.ParseStr([AnySer.TagByte(Tags.String)] + (BeBytes(|EncodeUtf8(s)|, 8) + (EncodeUtf8(s) + rest)))
         == Ok((s, rest))
  {
    PopTagOf(Tags.String, BeBytes(|EncodeUtf8(s)|, 8) + (EncodeUtf8(s) + rest));
    KnownLenStrOf(s, rest);
  }

  /** `collect_str` output reads back as the string `Display` produced. */
  lemma RoundTripDisplay(ps: seq<string>, rest: seq<u8>)
    ensures AnyDe.DecodeStr(AnySer.EncodeDisplay(ps) + rest) == Ok((Str(Joined(ps)), rest))
  {
    var text := Joined(ps);
    var u := EncodeUtf8(text);
    var t := [AnySer.TagByte(Tags.NullTerminatedString)];
    AppendAssoc(t + u, AnySer.EndMarker, rest);
    AppendAssoc(t, u, AnySer.EndMarker + rest);
    ParseStrUnknownOf(text, rest);
  }

  lemma ParseStrUnknownOf(text: string, rest: seq<u8>)
    ensures AnyDe.ParseStr([AnySer.TagByte(Tags.NullTerminatedString)] + (EncodeUtf8(text) + (AnySer.EndMarker + rest)))
         == Ok((text, rest))
  {
    PopTagOf(Tags.NullTerminatedString, EncodeUtf8(text) + (AnySer.EndMarker + rest));
    UnknownLenStrOf(text, rest);
  }

  lemma RoundTripBytes(b: seq<u8>, rest: seq<u8>)
    requires |b| < MaxLen
    ensures AnyDe.DecodeBytes(AnySer.EncodeBytes(b) + rest) == Ok((ByteArray(b), rest))
  {
    var t := [AnySer.TagByte(Tags.ByteArray)];
    MaxLenFits();
    AppendAssoc(t + BeBytes(|b|, 8), b, rest);
    AppendAssoc(t, BeBytes(|b|, 8), b + rest);
    ExpectTagOf(Tags.ByteArray, "ByteArray", BeBytes(|b|, 8) + (b + rest));
    PopUsizeOf(|b|, b + rest);
    PopSliceOf(b, rest);
  }

  /** Typed decoding inverts the tagged encoding, for every value the
      decoder can size and every shape the value conforms to. */
  lemma {:induction false} DecodeEncode(v: Data, s: Shape, rest: seq<u8>)
    requires Codable(v) && Conforms(v, s)
    ensures AnyDe.Decode(s, AnySer.Encode(v) + rest) == Ok((Normalize(v), rest))
    decreases v, 2
  {
    match s
    case SOption(_) => CaseOption(v, s, rest);
    case SNewtypeStruct(_) => CaseNewtypeStruct(v, s, rest);
    case STuple(_) => CaseTuple(v, s, rest);
    case STupleStruct(_) => CaseTupleStruct(v, s, rest);
    case SSeq(_) => CaseSeq(v, s, rest);
    case SMap(_, _) => CaseMap(v, s, rest);
    case SStruct(_) => CaseStruct(v, s, rest);
    case SEnum(_) => CaseEnum(v, s, rest);
    case _ => CaseScalar(v, s, rest);
  }

  /** The shapes with no content. */
  lemma CaseScalar(v: Data, s: Shape, rest: seq<u8>)
    requires Codable(v) && Conforms(v, s)
    requires s.SBool? || s.SInt? || s.SFloat32? || s.SFloat64? || s.SChar? || s.SStr? || s.SBytes? || s.SUnit? || s.SUnitStruct?
    ensures AnyDe.Decode(s, AnySer.Encode(v) + rest) == Ok((Normalize(v), rest))
  {
    match s
    case SBool => CaseBool(v, s, rest);
    case SInt(t) => CaseInt(v, s, rest);
    case SFloat32 => CaseFloat32(v, s, rest);
    case SFloat64 => CaseFloat64(v, s, rest);
    case SChar => CaseChar(v, s, rest);
    case SStr => CaseStr(v, s, rest);
    case SBytes => CaseBytes(v, s, rest);
    case SUnit => CaseUnit(v, s, rest);
    case SUnitStruct => CaseUnitStruct(v, s, rest);
  }

  lemma CaseBool(v: Data, s: Shape, rest: seq<u8>)
    requires s.SBool? && Codable(v) && Conforms(v, s)
    ensures AnyDe.Decode(s, AnySer.Encode(v) + rest) == Ok((Normalize(v), rest))
  {
    RoundTripBool(v.b, rest);
  }

  lemma CaseUnit(v: Data, s: Shape, rest: seq<u8>)
    requires s.SUnit? && Codable(v) && Conforms(v, s)
    ensures AnyDe.Decode(s, AnySer.Encode(v) + rest) == Ok((Normalize(v), rest))
  {
    assert AnySer.Encode(v) == [AnySer.TagByte(Tags.Unit)];
    ExpectTagOf(Tags.Unit, "Unit", rest);
  }

  lemma CaseUnitStruct(v: Data, s: Shape, rest: seq<u8>)
    requires s.SUnitStruct? && Codable(v) && Conforms(v, s)
    ensures AnyDe.Decode(s, AnySer.Encode(v) + rest) == Ok((Normalize(v), rest))
  {
    assert AnySer.Encode(v) == [AnySer.TagByte(Tags.UnitStruct)];
    ExpectTagOf(Tags.UnitStruct, "UnitStruct", rest);
  }

  // The cases of `DecodeEncode`, one shape each.

  lemma CaseInt(v: Data, s: Shape, rest: seq<u8>)
    requires s.SInt? && Codable(v) && Conforms(v, s)
    ensures AnyDe.Decode(s, AnySer.Encode(v) + rest) == Ok((Normalize(v), rest))
  {
    RoundTripInt(s.ty, v.x, rest);
  }

  lemma CaseFloat32(v: Data, s: Shape, rest: seq<u8>)
    requires s.SFloat32? && Codable(v) && Conforms(v, s)
    ensures AnyDe.Decode(s, AnySer.Encode(v) + rest) == Ok((Normalize(v), rest))
  {
    RoundTripFloat32(v.bits32, rest);
  }

  lemma CaseFloat64(v: Data, s: Shape, rest: seq<u8>)
    requires s.SFloat64? && Codable(v) && Conforms(v, s)
    ensures AnyDe.Decode(s, AnySer.Encode(v) + rest) == Ok((Normalize(v), rest))
  {
    RoundTripFloat64(v.bits64, rest);
  }

  lemma CaseChar(v: Data, s: Shape, rest: seq<u8>)
    requires s.SChar? && Codable(v) && Conforms(v, s)
    ensures AnyDe.Decode(s, AnySer.Encode(v) + rest) == Ok((Normalize(v), rest))
  {
    RoundTripChar(v.c, rest);
  }

  lemma CaseStr(v: Data, s: Shape, rest: seq<u8>)
    requires s.SStr? && Codable(v) && Conforms(v, s)
    ensures AnyDe.Decode(s, AnySer.Encode(v) + rest) == Ok((Normalize(v), rest))
  {
    if v.Str? {
      RoundTripStr(v.s, rest);
    } else {
      RoundTripDisplay(v.pieces, rest);
    }
  }

  lemma CaseBytes(v: Data, s: Shape, rest: seq<u8>)
    requires s.SBytes? && Codable(v) && Conforms(v, s)
    ensures AnyDe.Decode(s, AnySer.Encode(v) + rest) == Ok((Normalize(v), rest))
  {
    RoundTripBytes(v.bytes, rest);
  }

  lemma {:induction false} CaseOption(v: Data, s: Shape, rest: seq<u8>)
    requires s.SOption? && Codable(v) && Conforms(v, s)
    ensures AnyDe.Decode(s, AnySer.Encode(v) + rest) == Ok((Normalize(v), rest))
    decreases v, 1
  {
    if v.NoneValue? {
      PopTagOf(Tags.None, rest);
    } else {
      RoundTripSome(s, v.inner, rest);
    }
  }

  lemma {:induction false} CaseNewtypeStruct(v: Data, s: Shape, rest: seq<u8>)
    requires s.SNewtypeStruct? && Codable(v) && Conforms(v, s)
    ensures AnyDe.Decode(s, AnySer.Encode(v) + rest) == Ok((Normalize(v), rest))
    decreases v, 1
  {
    RoundTripNewtypeStruct(s, v.inner, rest);
  }

  lemma {:induction false} CaseTuple(v: Data, s: Shape, rest: seq<u8>)
    requires s.STuple? && Codable(v) && Conforms(v, s)
    ensures AnyDe.Decode(s, AnySer.Encode(v) + rest) == Ok((Normalize(v), rest))
    decreases v, 1
  {
    ElemsFit(v, s.elems);
    RoundTripCounted(Tags.Tuple, "Tuple", v.elems, s.elems, rest);
  }

  lemma {:induction false} CaseTupleStruct(v: Data, s: Shape, rest: seq<u8>)
    requires s.STupleStruct? && Codable(v) && Conforms(v, s)
    ensures AnyDe.Decode(s, AnySer.Encode(v) + rest) == Ok((Normalize(v), rest))
    decreases v, 1
  {
    ElemsFit(v, s.elems);
    RoundTripCounted(Tags.TupleStruct, "TupleStruct", v.elems, s.elems, rest);
  }

  lemma {:induction false} CaseStruct(v: Data, s: Shape, rest: seq<u8>)
    requires s.SStruct? && Codable(v) && Conforms(v, s)
    ensures AnyDe.Decode(s, AnySer.Encode(v) + rest) == Ok((Normalize(v), rest))
    decreases v, 1
  {
    FieldsFit(v, s.fields);
    RoundTripCounted(Tags.Struct, "Struct", v.fields, s.fields, rest);
  }

  lemma {:induction false} CaseSeq(v: Data, s: Shape, rest: seq<u8>)
    requires s.SSeq? && Codable(v) && Conforms(v, s)
    ensures AnyDe.Decode(s, AnySer.Encode(v) + rest) == Ok((Normalize(v), rest))
    decreases v, 1
  {
    SeqFits(v, s);
    RoundTripSeq(s, v.elems, rest);
  }

  lemma {:induction false} CaseMap(v: Data, s: Shape, rest: seq<u8>)
    requires s.SMap? && Codable(v) && Conforms(v, s)
    ensures AnyDe.Decode(s, AnySer.Encode(v) + rest) == Ok((Normalize(v), rest))
    decreases v, 1
  {
    MapFits(v, s);
    RoundTripMap(s, v.entries, rest);
  }

  lemma {:induction false} CaseEnum(v: Data, s: Shape, rest: seq<u8>)
    requires s.SEnum? && Codable(v) && Conforms(v, s)
    ensures AnyDe.Decode(s, AnySer.Encode(v) + rest) == Ok((Normalize(v), rest))
    decreases v, 1
  {
    if v.UnitVariant? {
      AppendAssoc([AnySer.TagByte(Tags.UnitVariant)], BeBytes(v.index, 4), rest);
      EnumHeaderOf(s, Tags.UnitVariant, v.index, rest);
    } else if v.NewtypeVariant? {
      RoundTripNewtypeVariant(s, v.index, v.inner, rest);
    } else if v.TupleVariant? {
      ElemsFit(v, s.variants[v.index].kind.elems);
      RoundTripVariantElems(s, Tags.TupleVariant, v.index, v.elems, rest);
    } else {
      FieldsFit(v, s.variants[v.index].kind.fields);
      RoundTripVariantElems(s, Tags.StructVariant, v.index, v.fields, rest);
    }
  }

  lemma {:induction false} RoundTripSome(s: Shape, x: Data, rest: seq<u8>)
    requires s.SOption? && Codable(x) && Conforms(x, s.inner)
    ensures AnyDe.DecodeOption(s, [AnySer.TagByte(Tags.Some)] + AnySer.Encode(x) + rest) == Ok((SomeValue(Normalize(x)), rest))
    decreases x, 3
  {
    AppendAssoc([AnySer.TagByte(Tags.Some)], AnySer.Encode(x), rest);
    PopTagOf(Tags.Some, AnySer.Encode(x) + rest);
    DecodeEncode(x, s.inner, rest);
  }

  lemma {:induction false} RoundTripNewtypeStruct(s: Shape, x: Data, rest: seq<u8>)
    requires s.SNewtypeStruct? && Codable(x) && Conforms(x, s.inner)
    ensures AnyDe.DecodeNewtypeStruct(s, [AnySer.TagByte(Tags.NewTypeStruct)] + AnySer.Encode(x) + rest)
         == Ok((NewtypeStruct(Normalize(x)), rest))
    decreases x, 3
  {
    AppendAssoc([AnySer.TagByte(Tags.NewTypeStruct)], AnySer.Encode(x), rest);
    ExpectTagOf(Tags.NewTypeStruct, "NewTypeStruct", AnySer.Encode(x) + rest);
    DecodeEncode(x, s.inner, rest);
  }

  /** The identifier a variant tag and its 4-byte index make. */
  lemma IdentifierOf(t: Tags.Tag, i: nat, tail: seq<u8>)
    requires t.IsVariant() && i < Pow256(4)
    ensures AnyDe.DecodeIdentifier([AnySer.TagByte(t)] + (BeBytes(i, 4) + tail)) == Ok((AnyDe.Index(i), tail))
  {
    PopTagOf(t, BeBytes(i, 4) + tail);
    PopSliceOf(BeBytes(i, 4), tail);
    FromBeBytes(i, 4);
  }

  /** A variant's header selects the variant it names, and the rest is read
      as that variant's payload. */
  lemma EnumHeaderOf(s: Shape, t: Tags.Tag, i: nat, tail: seq<u8>)
    requires s.SEnum? && t.IsVariant() && i < |s.variants| && i < Pow256(4)
    ensures AnyDe.DecodeEnum(s, [AnySer.TagByte(t)] + (BeBytes(i, 4) + tail)) == AnyDe.DecodeVariant(s, i, tail)
  {
    PopTagOf(t, BeBytes(i, 4) + tail);
    IdentifierOf(t, i, tail);
  }

  lemma {:induction false} RoundTripNewtypeVariant(s: Shape, i: nat, x: Data, rest: seq<u8>)
    requires s.SEnum? && i < |s.variants| && i < Pow256(4) && s.variants[i].kind.VNewtype?
    requires Codable(x) && Conforms(x, s.variants[i].kind.inner)
    ensures AnyDe.DecodeEnum(s, [AnySer.TagByte(Tags.NewTypeVariant)] + BeBytes(i, 4) + AnySer.Encode(x) + rest)
         == Ok((NewtypeVariant(i, Normalize(x)), rest))
    decreases x, 3
  {
    var t := [AnySer.TagByte(Tags.NewTypeVariant)];
    AppendAssoc(t + BeBytes(i, 4), AnySer.Encode(x), rest);
    AppendAssoc(t, BeBytes(i, 4), AnySer.Encode(x) + rest);
    EnumHeaderOf(s, Tags.NewTypeVariant, i, AnySer.Encode(x) + rest);
    DecodeEncode(x, s.variants[i].kind.inner, rest);
  }

  /** A tuple or struct variant: the header, then the declared components. */
  lemma {:induction false} RoundTripVariantElems(s: Shape, t: Tags.Tag, i: nat, es: seq<Data>, rest: seq<u8>)
    requires s.SEnum? && i < |s.variants| && i < Pow256(4)
    requires (t == Tags.TupleVariant && s.variants[i].kind.VTuple? && ListFits(es, s.variants[i].kind.elems))
          || (t == Tags.StructVariant && s.variants[i].kind.VStruct? && ListFits(es, s.variants[i].kind.fields))
    ensures AnyDe.DecodeEnum(s, AnySer.EncodeVariantElems(t, i, es) + rest)
         == Ok((if t == Tags.TupleVariant then TupleVariant(i, NormalizeAll(es)) else StructVariant(i, NormalizeAll(es)), rest))
    decreases es, 2
  {
    var list := AnySer.EncodeList(es);
    VariantElemsLayout(t, i, es, rest);
    EnumHeaderOf(s, t, i, list + rest);
    var ss := if t == Tags.TupleVariant then s.variants[i].kind.elems else s.variants[i].kind.fields;
    RoundTripElems(es, ss, rest);
    VariantPayloadOf(s, i, list + rest, NormalizeAll(es), rest);
  }

  /** A tuple or struct variant's payload is its declared components. */
  lemma VariantPayloadOf(s: Shape, i: nat, tail: seq<u8>, es: seq<Data>, rest: seq<u8>)
    requires s.SEnum? && i < |s.variants| && (s.variants[i].kind.VTuple? || s.variants[i].kind.VStruct?)
    requires AnyDe.DecodeElems(if s.variants[i].kind.VTuple? then s.variants[i].kind.elems else s.variants[i].kind.fields, tail)
          == Ok((es, rest))
    ensures AnyDe.DecodeVariant(s, i, tail)
         == Ok((if s.variants[i].kind.VTuple? then TupleVariant(i, es) else StructVariant(i, es), rest))
  {
  }

  lemma VariantElemsLayout(t: Tags.Tag, i: nat, es: seq<Data>, rest: seq<u8>)
    requires t.HasByte()
    ensures AnySer.EncodeVariantElems(t, i, es) + rest
         == [AnySer.TagByte(t)] + (BeBytes(i, 4) + (AnySer.EncodeList(es) + rest))
  {
    var h := [AnySer.TagByte(t)];
    var list := AnySer.EncodeList(es);
    AppendAssoc(h + BeBytes(i, 4), list, rest);
    AppendAssoc(h, BeBytes(i, 4), list + rest);
  }

  /** A tuple, tuple struct or struct: its count byte matches the arity the
      shape asks for, and its elements read back in order. */
  lemma {:induction false} RoundTripCounted(t: Tags.Tag, what: string, es: seq<Data>, ss: seq<Shape>, rest: seq<u8>)
    requires t.HasByte() && |es| < 256 && ListFits(es, ss)
    ensures AnyDe.DecodeCounted(t, what, ss, AnySer.EncodeCounted(t, es) + rest) == Ok((NormalizeAll(es), rest))
    decreases es, 1
  {
    var list := AnySer.EncodeList(es);
    assert [AnySer.TagByte(t), |es| % 256] + list + rest
        == [AnySer.TagByte(t)] + ([|es| as u8] + (list + rest));
    ExpectTagOf(t, what, [|es| as u8] + (list + rest));
    PopSliceOf([|es| as u8], list + rest);
    RoundTripElems(es, ss, rest);
  }

  lemma {:induction false} RoundTripElems(es: seq<Data>, ss: seq<Shape>, rest: seq<u8>)
    requires ListFits(es, ss)
    ensures AnyDe.DecodeElems(ss, AnySer.EncodeList(es) + rest) == Ok((NormalizeAll(es), rest))
    decreases es, 0
  {
    if es != [] {
      var tail := AnySer.EncodeList(es[1..]);
      EncodeListFirst(es);
      AppendAssoc(AnySer.Encode(es[0]), tail, rest);
      DecodeEncode(es[0], ss[0], tail + rest);
      ListFitsTail(es, ss);
      RoundTripElems(es[1..], ss[1..], rest);
      assert AnyDe.DecodeElems(ss[1..], tail + rest) == Ok((NormalizeAll(es[1..]), rest));
    } else {
      assert AnySer.EncodeList(es) + rest == rest;
    }
  }

  lemma {:induction false} RoundTripRepeat(s: Shape, es: seq<Data>, rest: seq<u8>)
    requires s.SSeq? && RepeatFits(es, s.elem)
    ensures AnyDe.DecodeRepeat(s, |es|, AnySer.EncodeList(es) + rest) == Ok((NormalizeAll(es), rest))
    decreases es, 0
  {
    if es != [] {
      var tail := AnySer.EncodeList(es[1..]);
      EncodeListFirst(es);
      AppendAssoc(AnySer.Encode(es[0]), tail, rest);
      DecodeEncode(es[0], s.elem, tail + rest);
      RepeatFitsTail(es, s.elem);
      RoundTripRepeat(s, es[1..], rest);
      assert AnyDe.DecodeRepeat(s, |es| - 1, tail + rest) == Ok((NormalizeAll(es[1..]), rest));
    } else {
      assert AnySer.EncodeList(es) + rest == rest;
    }
  }

  lemma {:induction false} RoundTripSeq(s: Shape, es: seq<Data>, rest: seq<u8>)
    requires s.SSeq? && RepeatFits(es, s.elem) && |es| < MaxLen
    ensures AnyDe.DecodeSeq(s, AnySer.EncodeSeq(true, es) + rest) == Ok((Seq(true, NormalizeAll(es)), rest))
    decreases es, 1
  {
    var list := AnySer.EncodeList(es);
    AppendAssoc([AnySer.TagByte(Tags.Seq)] + BeBytes(|es|, 8), list, rest);
    RoundTripRepeat(s, es, rest);
    SeqHeaderOf(s, |es|, list + rest, NormalizeAll(es), rest);
  }

  /** A `Seq` tag and a `usize` length followed by `n` elements. */
  lemma SeqHeaderOf(s: Shape, n: nat, tail: seq<u8>, es: seq<Data>, rest: seq<u8>)
    requires s.SSeq? && n < MaxLen && AnyDe.DecodeRepeat(s, n, tail) == Ok((es, rest))
    ensures AnyDe.DecodeSeq(s, [AnySer.TagByte(Tags.Seq)] + BeBytes(n, 8) + tail) == Ok((Seq(true, es), rest))
  {
    MaxLenFits();
    AppendAssoc([AnySer.TagByte(Tags.Seq)], BeBytes(n, 8), tail);
    PopTagOf(Tags.Seq, BeBytes(n, 8) + tail);
    PopUsizeOf(n, tail);
  }

  lemma {:induction false} RoundTripEntries(s: Shape, ents: seq<Entry>, rest: seq<u8>)
    requires s.SMap? && EntriesFit(ents, s.key, s.value)
    ensures AnyDe.DecodeEntries(s, |ents|, AnySer.EncodeEntries(ents) + rest) == Ok((NormalizeEntries(ents), rest))
    decreases ents, 0
  {
    if ents != [] {
      var tail := AnySer.EncodeEntries(ents[1..]);
      EncodeEntriesFirst(ents);
      AppendAssoc(AnySer.EncodeEntry(ents[0]), tail, rest);
      RoundTripEntry(s, ents[0], tail + rest);
      EntriesFitTail(ents, s.key, s.value);
      RoundTripEntries(s, ents[1..], rest);
      assert AnyDe.DecodeEntries(s, |ents| - 1, tail + rest) == Ok((NormalizeEntries(ents[1..]), rest));
    } else {
      assert AnySer.EncodeEntries(ents) + rest == rest;
    }
  }

  /** One entry: its key, then its value. */
  lemma {:induction false} RoundTripEntry(s: Shape, e: Entry, rest: seq<u8>)
    requires s.SMap? && EntryFits(e, s.key, s.value)
    ensures AnyDe.Decode(s.key, AnySer.EncodeEntry(e) + rest) == Ok((Normalize(e.key), AnySer.Encode(e.value) + rest))
    ensures AnyDe.Decode(s.value, AnySer.Encode(e.value) + rest) == Ok((Normalize(e.value), rest))
    decreases e, 0
  {
    AppendAssoc(AnySer.Encode(e.key), AnySer.Encode(e.value), rest);
    DecodeEncode(e.key, s.key, AnySer.Encode(e.value) + rest);
    DecodeEncode(e.value, s.value, rest);
  }

  lemma {:induction false} RoundTripMap(s: Shape, ents: seq<Entry>, rest: seq<u8>)
    requires s.SMap? && EntriesFit(ents, s.key, s.value) && |ents| < MaxLen
    ensures AnyDe.DecodeMap(s, AnySer.EncodeMap(true, ents) + rest) == Ok((Map(true, NormalizeEntries(ents)), rest))
    decreases ents, 1
  {
    var list := AnySer.EncodeEntries(ents);
    AppendAssoc([AnySer.TagByte(Tags.Map)] + BeBytes(|ents|, 8), list, rest);
    RoundTripEntries(s, ents, rest);
    MapHeaderOf(s, |ents|, list + rest, NormalizeEntries(ents), rest);
  }

  /** A `Map` tag and a `usize` length followed by `n` entries. */
  lemma MapHeaderOf(s: Shape, n: nat, tail: seq<u8>, ents: seq<Entry>, rest: seq<u8>)
    requires s.SMap? && n < MaxLen && AnyDe.DecodeEntries(s, n, tail) == Ok((ents, rest))
    ensures AnyDe.DecodeMap(s, [AnySer.TagByte(Tags.Map)] + BeBytes(n, 8) + tail) == Ok((Map(true, ents), rest))
  {
    MaxLenFits();
    AppendAssoc([AnySer.TagByte(Tags.Map)], BeBytes(n, 8), tail);
    PopTagOf(Tags.Map, BeBytes(n, 8) + tail);
    PopUsizeOf(n, tail);
  }

  /** `from_bytes` of the tagged encoding of `v` is `v`. */
  lemma FromBytesEncode(v: Data, s: Shape)
    requires Codable(v) && Conforms(v, s)
    ensures AnyDe.FromBytes(s, AnySer.Encode(v)) == Ok(Normalize(v))
  {
    DecodeEncode(v, s, []);
    assert AnySer.Encode(v) + [] == AnySer.Encode(v);
  }
}
