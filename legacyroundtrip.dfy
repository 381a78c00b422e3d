/** The untagged format reads back what it wrote: decoding
    `LegacySer.Encode(v)` with the shape of `v`'s type yields `v` (every
    sequence marked as sized, since the count is always written) and leaves
    whatever followed it untouched, for every value that has no
    `collect_str` text and no map of unannounced length. */
module LegacyRoundTrip {
  import opened Bytes
  import opened Wrappers
  import opened Errors
  import opened DataModel
  import AnyDe
  import AnyRoundTrip
  import LegacySer
  import LegacyDe

  /** Values without the two encodings the untagged decoder cannot read
      back: `collect_str` output, whose `u64::MAX` length it takes
      literally, and a map serialized without its length, whose count is of
      keys and values rather than entries. */
  predicate Readable(v: Data)
  {
    match v
    case SomeValue(x) => Readable(x)
    case NewtypeStruct(x) => Readable(x)
    case NewtypeVariant(_, x) => Readable(x)
    case Tuple(es) => forall j :: 0 <= j < |es| ==> Readable(es[j])
    case TupleStruct(es) => forall j :: 0 <= j < |es| ==> Readable(es[j])
    case TupleVariant(_, es) => forall j :: 0 <= j < |es| ==> Readable(es[j])
    case Seq(_, es) => forall j :: 0 <= j < |es| ==> Readable(es[j])
    case Map(known, ents) =>
      known && forall j :: 0 <= j < |ents| ==> Readable(ents[j].key) && Readable(ents[j].value)
    case Struct(fs) => forall j :: 0 <= j < |fs| ==> Readable(fs[j])
    case StructVariant(_, fs) => forall j :: 0 <= j < |fs| ==> Readable(fs[j])
    case DisplayStr(_) => false
    case _ => true
  }

  predicate Codable(v: Data)
  {
    WellFormed(v) && Readable(v)
  }

  /** What the decoder gives back for `v`: a sequence serialized without
      its length carries its count all the same and reads back as sized. */
  function Normalize(v: Data): Data
    decreases v, 1
  {
    match v
    case SomeValue(x) => SomeValue(Normalize(x))
    case NewtypeStruct(x) => NewtypeStruct(Normalize(x))
    case NewtypeVariant(i, x) => NewtypeVariant(i, Normalize(x))
    case Tuple(es) => Tuple(NormalizeAll(es))
    case TupleStruct(es) => TupleStruct(NormalizeAll(es))
    case TupleVariant(i, es) => TupleVariant(i, NormalizeAll(es))
    case Seq(_, es) => Seq(true, NormalizeAll(es))
    case Map(known, ents) => Map(known, NormalizeEntries(ents))
    case Struct(fs) => Struct(NormalizeAll(fs))
    case StructVariant(i, fs) => StructVariant(i, NormalizeAll(fs))
    case _ => v
  }

  function NormalizeAll(es: seq<Data>): (r: seq<Data>)
    ensures |r| == |es|
    decreases es, 0
  {
    if es == [] then [] else [Normalize(es[0])] + NormalizeAll(es[1..])
  }

  function NormalizeEntries(ents: seq<Entry>): (r: seq<Entry>)
    ensures |r| == |ents|
    decreases ents, 0
  {
    if ents == [] then [] else [NormalizeEntry(ents[0])] + NormalizeEntries(ents[1..])
  }

  function NormalizeEntry(e: Entry): Entry
    decreases e, 1
  {
    Entry(Normalize(e.key), Normalize(e.value))
  }

  // ---------------------------------------------------------------------
  // The cursor reads back what the writer appended
  // ---------------------------------------------------------------------

  lemma PopNOf(a: seq<u8>, rest: seq<u8>)
    ensures LegacyDe.PopN(a + rest, |a|) == Ok((a, rest))
  {
    AnyRoundTrip.PopSliceOf(a, rest);
  }

  /** A length-prefixed slice reads back as the slice. */
  lemma PopSliceOf(b: seq<u8>, rest: seq<u8>)
    requires |b| < MaxLen
    ensures LegacyDe.PopSlice(LegacySer.LenThen(b) + rest) == Ok((b, rest))
  {
    AnyRoundTrip.MaxLenFits();
    AppendAssoc(BeBytes(|b|, 8), b, rest);
    AnyRoundTrip.PopUsizeOf(|b|, b + rest);
    PopNOf(b, rest);
  }

  lemma {:induction false} EncodeListFirst(es: seq<Data>)
    requires |es| >= 1
    ensures LegacySer.EncodeList(es) == LegacySer.Encode(es[0]) + LegacySer.EncodeList(es[1..])
    decreases |es|
  {
    var n := |es|;
    if n > 1 {
      var init := es[..n - 1];
      EncodeListFirst(init);
      assert init[0] == es[0];
      assert init[1..] == es[1..][..n - 2];
      assert es[1..][n - 2] == es[n - 1];
      AppendAssoc(LegacySer.Encode(es[0]), LegacySer.EncodeList(init[1..]), LegacySer.Encode(es[n - 1]));
    } else {
      assert es[..0] == [];
      assert es[1..] == [];
    }
  }

  lemma {:induction false} EncodeEntriesFirst(ents: seq<Entry>)
    requires |ents| >= 1
    ensures LegacySer.EncodeEntries(ents) == LegacySer.EncodeEntry(ents[0]) + LegacySer.EncodeEntries(ents[1..])
    decreases |ents|
  {
    var n := |ents|;
    if n > 1 {
      var init := ents[..n - 1];
      EncodeEntriesFirst(init);
      assert init[0] == ents[0];
      assert init[1..] == ents[1..][..n - 2];
      assert ents[1..][n - 2] == ents[n - 1];
      AppendAssoc(LegacySer.EncodeEntry(ents[0]), LegacySer.EncodeEntries(init[1..]), LegacySer.EncodeEntry(ents[n - 1]));
    } else {
      assert ents[..0] == [];
      assert ents[1..] == [];
    }
  }

  // ---------------------------------------------------------------------
  // What a list of values must satisfy to read back
  // ---------------------------------------------------------------------

  predicate ListFits(es: seq<Data>, ss: seq<Shape>)
  {
    |es| == |ss| && forall j :: 0 <= j < |es| ==> Codable(es[j]) && Conforms(es[j], ss[j])
  }

  predicate RepeatFits(es: seq<Data>, s: Shape)
  {
    forall j :: 0 <= j < |es| ==> Codable(es[j]) && Conforms(es[j], s)
  }

  predicate EntryFits(e: Entry, k: Shape, w: Shape)
  {
    Codable(e.key) && Codable(e.value) && Conforms(e.key, k) && Conforms(e.value, w)
  }

  predicate EntriesFit(ents: seq<Entry>, k: Shape, w: Shape)
  {
    forall j :: 0 <= j < |ents| ==> EntryFits(ents[j], k, w)
  }

  lemma ListFitsTail(es: seq<Data>, ss: seq<Shape>)
    requires ListFits(es, ss) && |es| >= 1
    ensures ListFits(es[1..], ss[1..])
  {
    forall j | 0 <= j < |es[1..]|
      ensures Codable(es[1..][j]) && Conforms(es[1..][j], ss[1..][j])
    {
      assert es[1..][j] == es[j + 1];
    }
  }

  lemma RepeatFitsTail(es: seq<Data>, s: Shape)
    requires RepeatFits(es, s) && |es| >= 1
    ensures RepeatFits(es[1..], s)
  {
    forall j | 0 <= j < |es[1..]|
      ensures Codable(es[1..][j]) && Conforms(es[1..][j], s)
    {
      assert es[1..][j] == es[j + 1];
    }
  }

  lemma EntriesFitTail(ents: seq<Entry>, k: Shape, w: Shape)
    requires EntriesFit(ents, k, w) && |ents| >= 1
    ensures EntriesFit(ents[1..], k, w)
  {
    forall j | 0 <= j < |ents[1..]|
      ensures EntryFits(ents[1..][j], k, w)
    {
      assert ents[1..][j] == ents[j + 1];
    }
  }

  lemma ElemsFit(v: Data, ss: seq<Shape>)
    requires Codable(v) && (v.Tuple? || v.TupleStruct? || v.TupleVariant?)
    requires AllConform(v.elems, ss)
    ensures ListFits(v.elems, ss)
  {
    assert AllWellFormed(v.elems);
  }

  lemma FieldsFit(v: Data, ss: seq<Shape>)
    requires Codable(v) && (v.Struct? || v.StructVariant?)
    requires AllConform(v.fields, ss)
    ensures ListFits(v.fields, ss)
  {
    assert AllWellFormed(v.fields);
  }

  lemma SeqFits(v: Data, s: Shape)
    requires s.SSeq? && Codable(v) && Conforms(v, s)
    ensures RepeatFits(v.elems, s.elem) && |v.elems| < MaxLen
  {
    assert AllWellFormed(v.elems);
  }

  lemma MapFits(v: Data, s: Shape)
    requires s.SMap? && Codable(v) && Conforms(v, s)
    ensures EntriesFit(v.entries, s.key, s.value) && |v.entries| < MaxLen && v.known
  {
  }

  // ---------------------------------------------------------------------
  // Scalars
  // ---------------------------------------------------------------------

  lemma RoundTripChar(c: char, rest: seq<u8>)
    ensures LegacyDe.DecodeChar(LegacySer.Encode(Char(c)) + rest) == Ok((Char(c), rest))
  {
    var bs := BeBytes(c as int, 4);
    assert Pow256(4) == 0x1_0000_0000 by {
      assert Pow256(4) == 256 * Pow256(3);
    }
    FromBeBytes(c as int, 4);
    PopNOf(bs, rest);
    assert (bs + rest)[..4] == bs;
  }

  lemma RoundTripStr(s: string, rest: seq<u8>)
    requires |EncodeUtf8(s)| < MaxLen
    ensures LegacyDe.ParseStr(LegacySer.LenThen(EncodeUtf8(s)) + rest) == Ok((s, rest))
  {
    var u := EncodeUtf8(s);
    PopSliceOf(u, rest);
    DecodeEncodedUtf8(s);
    assert DecodeUtf8(u) == Some(s);
  }

  // ---------------------------------------------------------------------
  // The round trip
  // ---------------------------------------------------------------------

  /** Typed decoding inverts the untagged encoding, for every readable value
      and every shape the value conforms to. */
  lemma {:induction false} DecodeEncode(v: Data, s: Shape, rest: seq<u8>)
    requires Codable(v) && Conforms(v, s)
    ensures LegacyDe.Decode(s, LegacySer.Encode(v) + rest) == Ok((Normalize(v), rest))
    decreases v, 2
  {
    match s
    case SOption(_) => CaseOption(v, s, rest);
    case SNewtypeStruct(_) => CaseNewtype(v, s, rest);
    case STuple(_) => CaseTuple(v, s, rest);
    case STupleStruct(_) => CaseTupleStruct(v, s, rest);
    case SSeq(_) => CaseSeq(v, s, rest);
    case SMap(_, _) => CaseMap(v, s, rest);
    case SStruct(_) => CaseStruct(v, s, rest);
    case SEnum(_) => CaseEnum(v, s, rest);
    case _ => CaseScalar(v, s, rest);
  }

  // The cases of `DecodeEncode`, by shape.

  /** Shapes with no nested value. */
  lemma CaseScalar(v: Data, s: Shape, rest: seq<u8>)
    requires !(s.SOption? || s.SNewtypeStruct? || s.STuple? || s.STupleStruct? || s.SSeq?
               || s.SMap? || s.SStruct? || s.SEnum?)
    requires Codable(v) && Conforms(v, s)
    ensures LegacyDe.Decode(s, LegacySer.Encode(v) + rest) == Ok((Normalize(v), rest))
  {
    match s
    case SBool =>
      PopNOf([if v.b then 1 else 0], rest);
    case SInt(t) =>
      PopNOf(BeBytes(v.x, t.Size()), rest);
      IntRoundTrip(v.x, t.Size(), t.Signed());
    case SFloat32 =>
      PopNOf(BeBytes(v.bits32, 4), rest);
      FromBeBytes(v.bits32, 4);
    case SFloat64 =>
      PopNOf(BeBytes(v.bits64, 8), rest);
      FromBeBytes(v.bits64, 8);
    case SChar => RoundTripChar(v.c, rest);
    case SStr => RoundTripStr(v.s, rest);
    case SBytes => PopSliceOf(v.bytes, rest);
    case SUnit => assert [] + rest == rest;
    case SUnitStruct => assert [] + rest == rest;
  }

  lemma {:induction false} CaseOption(v: Data, s: Shape, rest: seq<u8>)
    requires s.SOption? && Codable(v) && Conforms(v, s)
    ensures LegacyDe.Decode(s, LegacySer.Encode(v) + rest) == Ok((Normalize(v), rest))
    decreases v, 1
  {
    if v.NoneValue? {
      PopNOf([0], rest);
    } else {
      var x := LegacySer.Encode(v.inner);
      AppendAssoc([1], x, rest);
      PopNOf([1], x + rest);
      DecodeEncode(v.inner, s.inner, rest);
    }
  }

  lemma {:induction false} CaseNewtype(v: Data, s: Shape, rest: seq<u8>)
    requires s.SNewtypeStruct? && Codable(v) && Conforms(v, s)
    ensures LegacyDe.Decode(s, LegacySer.Encode(v) + rest) == Ok((Normalize(v), rest))
    decreases v, 1
  {
    assert v.NewtypeStruct? && Codable(v.inner) && Conforms(v.inner, s.inner);
    DecodeEncode(v.inner, s.inner, rest);
  }

  lemma {:induction false} CaseTuple(v: Data, s: Shape, rest: seq<u8>)
    requires s.STuple? && Codable(v) && Conforms(v, s)
    ensures LegacyDe.Decode(s, LegacySer.Encode(v) + rest) == Ok((Normalize(v), rest))
    decreases v, 1
  {
    ElemsFit(v, s.elems);
    RoundTripElems(v.elems, s.elems, rest);
  }

  lemma {:induction false} CaseTupleStruct(v: Data, s: Shape, rest: seq<u8>)
    requires s.STupleStruct? && Codable(v) && Conforms(v, s)
    ensures LegacyDe.Decode(s, LegacySer.Encode(v) + rest) == Ok((Normalize(v), rest))
    decreases v, 1
  {
    ElemsFit(v, s.elems);
    RoundTripElems(v.elems, s.elems, rest);
  }

  lemma {:induction false} CaseStruct(v: Data, s: Shape, rest: seq<u8>)
    requires s.SStruct? && Codable(v) && Conforms(v, s)
    ensures LegacyDe.Decode(s, LegacySer.Encode(v) + rest) == Ok((Normalize(v), rest))
    decreases v, 1
  {
    FieldsFit(v, s.fields);
    RoundTripElems(v.fields, s.fields, rest);
  }

  lemma {:induction false} CaseSeq(v: Data, s: Shape, rest: seq<u8>)
    requires s.SSeq? && Codable(v) && Conforms(v, s)
    ensures LegacyDe.Decode(s, LegacySer.Encode(v) + rest) == Ok((Normalize(v), rest))
    decreases v, 1
  {
    SeqFits(v, s);
    var list := LegacySer.EncodeList(v.elems);
    AnyRoundTrip.MaxLenFits();
    AppendAssoc(BeBytes(|v.elems|, 8), list, rest);
    AnyRoundTrip.PopUsizeOf(|v.elems|, list + rest);
    RoundTripRepeat(s, v.elems, rest);
  }

  lemma {:induction false} CaseMap(v: Data, s: Shape, rest: seq<u8>)
    requires s.SMap? && Codable(v) && Conforms(v, s)
    ensures LegacyDe.Decode(s, LegacySer.Encode(v) + rest) == Ok((Normalize(v), rest))
    decreases v, 1
  {
    MapFits(v, s);
    var list := LegacySer.EncodeEntries(v.entries);
    AnyRoundTrip.MaxLenFits();
    AppendAssoc(BeBytes(|v.entries|, 8), list, rest);
    AnyRoundTrip.PopUsizeOf(|v.entries|, list + rest);
    RoundTripEntries(s, v.entries, rest);
  }

  lemma {:induction false} CaseEnum(v: Data, s: Shape, rest: seq<u8>)
    requires s.SEnum? && Codable(v) && Conforms(v, s)
    ensures LegacyDe.Decode(s, LegacySer.Encode(v) + rest) == Ok((Normalize(v), rest))
    decreases v, 1
  {
    var payload := LegacySer.Encode(v)[4..];
    assert LegacySer.Encode(v) == BeBytes(v.index, 4) + payload;
    AppendAssoc(BeBytes(v.index, 4), payload, rest);
    EnumHeaderOf(s, v.index, payload + rest);
    if v.NewtypeVariant? {
      DecodeEncode(v.inner, s.variants[v.index].kind.inner, rest);
    } else if v.TupleVariant? {
      ElemsFit(v, s.variants[v.index].kind.elems);
      RoundTripElems(v.elems, s.variants[v.index].kind.elems, rest);
    } else if v.StructVariant? {
      FieldsFit(v, s.variants[v.index].kind.fields);
      RoundTripElems(v.fields, s.variants[v.index].kind.fields, rest);
    }
  }

  /** A variant index selects that variant, and the rest is read as its
      payload. */
  lemma EnumHeaderOf(s: Shape, i: nat, tail: seq<u8>)
    requires s.SEnum? && i < |s.variants| && i < MaxIndex
    ensures LegacyDe.DecodeEnum(s, BeBytes(i, 4) + tail) == LegacyDe.DecodeVariant(s, i, tail)
  {
    PopNOf(BeBytes(i, 4), tail);
    FromBeBytes(i, 4);
  }

  lemma {:induction false} RoundTripElems(es: seq<Data>, ss: seq<Shape>, rest: seq<u8>)
    requires ListFits(es, ss)
    ensures LegacyDe.DecodeElems(ss, LegacySer.EncodeList(es) + rest) == Ok((NormalizeAll(es), rest))
    decreases es, 0
  {
    if es != [] {
      var tail := LegacySer.EncodeList(es[1..]);
      EncodeListFirst(es);
      AppendAssoc(LegacySer.Encode(es[0]), tail, rest);
      DecodeEncode(es[0], ss[0], tail + rest);
      ListFitsTail(es, ss);
      RoundTripElems(es[1..], ss[1..], rest);
      assert LegacyDe.DecodeElems(ss[1..], tail + rest) == Ok((NormalizeAll(es[1..]), rest));
    } else {
      assert LegacySer.EncodeList(es) + rest == rest;
    }
  }

  lemma {:induction false} RoundTripRepeat(s: Shape, es: seq<Data>, rest: seq<u8>)
    requires s.SSeq? && RepeatFits(es, s.elem)
    ensures LegacyDe.DecodeRepeat(s, |es|, LegacySer.EncodeList(es) + rest) == Ok((NormalizeAll(es), rest))
    decreases es, 0
  {
    if es != [] {
      var tail := LegacySer.EncodeList(es[1..]);
      EncodeListFirst(es);
      AppendAssoc(LegacySer.Encode(es[0]), tail, rest);
      DecodeEncode(es[0], s.elem, tail + rest);
      RepeatFitsTail(es, s.elem);
      RoundTripRepeat(s, es[1..], rest);
      assert LegacyDe.DecodeRepeat(s, |es| - 1, tail + rest) == Ok((NormalizeAll(es[1..]), rest));
    } else {
      assert LegacySer.EncodeList(es) + rest == rest;
    }
  }

  lemma {:induction false} RoundTripEntries(s: Shape, ents: seq<Entry>, rest: seq<u8>)
    requires s.SMap? && EntriesFit(ents, s.key, s.value)
    ensures LegacyDe.DecodeEntries(s, |ents|, LegacySer.EncodeEntries(ents) + rest) == Ok((NormalizeEntries(ents), rest))
    decreases ents, 0
  {
    if ents != [] {
      var tail := LegacySer.EncodeEntries(ents[1..]);
      EncodeEntriesFirst(ents);
      AppendAssoc(LegacySer.EncodeEntry(ents[0]), tail, rest);
      RoundTripEntry(s, ents[0], tail + rest);
      EntriesFitTail(ents, s.key, s.value);
      RoundTripEntries(s, ents[1..], rest);
      assert LegacyDe.DecodeEntries(s, |ents| - 1, tail + rest) == Ok((NormalizeEntries(ents[1..]), rest));
    } else {
      assert LegacySer.EncodeEntries(ents) + rest == rest;
    }
  }

  /** One entry: its key, then its value. */
  lemma {:induction false} RoundTripEntry(s: Shape, e: Entry, rest: seq<u8>)
    requires s.SMap? && EntryFits(e, s.key, s.value)
    ensures LegacyDe.Decode(s.key, LegacySer.EncodeEntry(e) + rest) == Ok((Normalize(e.key), LegacySer.Encode(e.value) + rest))
    ensures LegacyDe.Decode(s.value, LegacySer.Encode(e.value) + rest) == Ok((Normalize(e.value), rest))
    decreases e, 0
  {
    AppendAssoc(LegacySer.Encode(e.key), LegacySer.Encode(e.value), rest);
    DecodeEncode(e.key, s.key, LegacySer.Encode(e.value) + rest);
    DecodeEncode(e.value, s.value, rest);
  }

  /** `from_bytes` of the untagged encoding of `v` is `v`. */
  lemma FromBytesEncode(v: Data, s: Shape)
    requires Codable(v) && Conforms(v, s)
    ensures LegacyDe.FromBytes(s, LegacySer.Encode(v)) == Ok(Normalize(v))
  {
    DecodeEncode(v, s, []);
    assert LegacySer.Encode(v) + [] == LegacySer.Encode(v);
  }
}
