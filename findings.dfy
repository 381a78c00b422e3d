/** Three places where the encoders write bytes their own decoders cannot
    read back. Each comes as a lemma about the code as written, exhibiting
    the failure, and a corrected definition with the intended round trip
    proved about it. (The fourth discrepancy, `BuffWriter::write_bytes`
    not advancing its head, is in module `Write`.) */
module Findings {
  import opened Bytes
  import opened Wrappers
  import opened Errors
  import opened DataModel
  import Tags
  import AnySer
  import AnyDe
  import AnyRoundTrip
  import LegacySer
  import LegacyDe
  import LegacyRoundTrip

  /** A length below `256^(n-1)` has a zero as its first big-endian byte. */
  lemma {:induction false} LeadingZero(x: nat, n: nat)
    requires n >= 1 && x < Pow256(n - 1)
    ensures BeBytes(x, n)[0] == 0
    decreases n
  {
    if n > 1 {
      LeadingZero(x / 256, n - 1);
    }
  }

  // ---------------------------------------------------------------------
  // The self-describing format: a sequence or map of unknown length
  // ---------------------------------------------------------------------

  /** As written, `SeqSerializer::finish` of src/any/ser.rs writes an
      unsized sequence as its count and its elements, with no `Seq` tag in
      front. The first count byte is then read as a tag: for any sequence of
      fewer than 2^56 elements it is 0, the `None` tag, and decoding fails. */
  lemma UnsizedSeqRejected(s: Shape, es: seq<Data>, rest: seq<u8>)
    requires s.SSeq? && |es| < Pow256(7)
    ensures AnyDe.Decode(s, AnySer.EncodeSeq(false, es) + rest) == Unexpected("Sequence", Tags.None)
  {
    LeadingZero(|es|, 8);
    var bytes := AnySer.EncodeSeq(false, es) + rest;
    assert bytes[0] == 0;
    assert AnyDe.PopTag(bytes).value.0 == Tags.None by {
      Tags.ToByteFromByte(Tags.None);
    }
  }

  /** The same for a map, whose count is moreover of keys and values. */
  lemma UnsizedMapRejected(s: Shape, ents: seq<Entry>, rest: seq<u8>)
    requires s.SMap? && 2 * |ents| < Pow256(7)
    ensures AnyDe.Decode(s, AnySer.EncodeMap(false, ents) + rest) == Unexpected("Map", Tags.None)
  {
    LeadingZero(2 * |ents|, 8);
    var bytes := AnySer.EncodeMap(false, ents) + rest;
    assert bytes[0] == 0;
    assert AnyDe.PopTag(bytes).value.0 == Tags.None by {
      Tags.ToByteFromByte(Tags.None);
    }
  }

  /** What `finish` evidently should write for an unsized sequence (`isMap`
      false) or map (`isMap` true) that buffered `count` values into `side`:
      the tag the decoder expects, then the number of elements or entries,
      then the buffer. */
  function IntendedUnsizedFinish(isMap: bool, count: nat, side: seq<u8>): (r: seq<u8>)
    ensures |r| == 9 + |side|
    ensures r[0] == AnySer.TagByte(if isMap then Tags.Map else Tags.Seq)
  {
    [AnySer.TagByte(if isMap then Tags.Map else Tags.Seq)] + BeBytes(if isMap then count / 2 else count, 8) + side
  }

  /** With the intended `finish`, an unsized sequence reads back as the
      sequence. */
  lemma IntendedUnsizedSeqRoundTrip(s: Shape, es: seq<Data>, rest: seq<u8>)
    requires s.SSeq? && AnyRoundTrip.Codable(Seq(true, es)) && Conforms(Seq(false, es), s)
    ensures AnyDe.Decode(s, IntendedUnsizedFinish(false, |es|, AnySer.EncodeList(es)) + rest)
         == Ok((Seq(true, AnyRoundTrip.NormalizeAll(es)), rest))
  {
    assert IntendedUnsizedFinish(false, |es|, AnySer.EncodeList(es)) == AnySer.Encode(Seq(true, es));
    AnyRoundTrip.DecodeEncode(Seq(true, es), s, rest);
  }

  /** With the intended `finish`, an unsized map reads back as the map. */
  lemma IntendedUnsizedMapRoundTrip(s: Shape, ents: seq<Entry>, rest: seq<u8>)
    requires s.SMap? && AnyRoundTrip.Codable(Map(true, ents)) && Conforms(Map(false, ents), s)
    ensures AnyDe.Decode(s, IntendedUnsizedFinish(true, 2 * |ents|, AnySer.EncodeEntries(ents)) + rest)
         == Ok((Map(true, AnyRoundTrip.NormalizeEntries(ents)), rest))
  {
    var v := Map(true, ents);
    assert (2 * |ents|) / 2 == |ents|;
    assert AnySer.Encode(v) == AnySer.EncodeMap(true, ents);
    assert IntendedUnsizedFinish(true, 2 * |ents|, AnySer.EncodeEntries(ents)) == AnySer.Encode(v);
    assert Conforms(v, s);
    AnyRoundTrip.DecodeEncode(v, s, rest);
  }

  // ---------------------------------------------------------------------
  // The untagged format: a map of unknown length
  // ---------------------------------------------------------------------

  /** As written, the untagged unsized `finish` writes the number of keys
      and values, twice the entries, where `deserialize_map` reads a number
      of entries. The one-entry map `{true: false}` becomes
      `[0, 0, 0, 0, 0, 0, 0, 2, 1, 0]`, and decoding it looks for a second
      entry that is not there. */
  lemma LegacyUnsizedMapMisread()
    ensures LegacySer.Encode(Map(false, [Entry(Bool(true), Bool(false))])) == [0, 0, 0, 0, 0, 0, 0, 2, 1, 0]
    ensures LegacyDe.FromBytes(SMap(SBool, SBool), [0, 0, 0, 0, 0, 0, 0, 2, 1, 0]) == Err(Eof)
  {
    var input := BeBytes(2, 8) + [1, 0];
    assert BeBytes(2, 8) == [0, 0, 0, 0, 0, 0, 0, 2];
    assert input == [0, 0, 0, 0, 0, 0, 0, 2, 1, 0];
    MisreadEncoding();
    MisreadMap();
  }

  /** The count written is 2 for the one entry. */
  lemma MisreadEncoding()
    ensures LegacySer.Encode(Map(false, [Entry(Bool(true), Bool(false))])) == BeBytes(2, 8) + [1, 0]
  {
    var ents := [Entry(Bool(true), Bool(false))];
    assert ents[..0] == [];
    assert LegacySer.EncodeEntries(ents) == [1, 0];
  }

  /** The count 2 asks for a second entry after the only one. */
  lemma MisreadEntries()
    ensures LegacyDe.DecodeEntries(SMap(SBool, SBool), 2, [1, 0]) == Err(Eof)
  {
    var s := SMap(SBool, SBool);
    assert LegacyDe.Decode(SBool, [1, 0]) == Ok((Bool(true), [0]));
    assert LegacyDe.Decode(SBool, [0]) == Ok((Bool(false), []));
    assert LegacyDe.DecodeEntries(s, 1, []) == Err(Eof);
  }

  /** So decoding the written bytes as a map ends in `Eof`. */
  lemma MisreadMap()
    ensures LegacyDe.Decode(SMap(SBool, SBool), BeBytes(2, 8) + [1, 0]) == Err(Eof)
  {
    var s := SMap(SBool, SBool);
    MisreadCount();
    assert LegacyDe.Decode(s, BeBytes(2, 8) + [1, 0]) == LegacyDe.DecodeMap(s, BeBytes(2, 8) + [1, 0]);
  }

  /** The map reader takes the count 2 as a number of entries. */
  lemma MisreadCount()
    ensures LegacyDe.DecodeMap(SMap(SBool, SBool), BeBytes(2, 8) + [1, 0]) == Err(Eof)
  {
    AnyRoundTrip.PopUsizeOf(2, [1, 0]);
    assert LegacyDe.PopUsize(BeBytes(2, 8) + [1, 0]) == Ok((2, [1, 0]));
    MisreadEntries();
  }

  /** What the untagged unsized `finish` evidently should write: the number
      of elements for a sequence, of entries for a map. */
  function LegacyIntendedUnsizedFinish(isMap: bool, count: nat, side: seq<u8>): (r: seq<u8>)
    ensures |r| == 8 + |side|
    ensures r[8..] == side
  {
    BeBytes(if isMap then count / 2 else count, 8) + side
  }

  /** With the intended `finish`, an unsized map reads back as the map. */
  lemma LegacyIntendedUnsizedMapRoundTrip(s: Shape, ents: seq<Entry>, rest: seq<u8>)
    requires s.SMap? && LegacyRoundTrip.Codable(Map(true, ents)) && Conforms(Map(false, ents), s)
    ensures LegacyDe.Decode(s, LegacyIntendedUnsizedFinish(true, 2 * |ents|, LegacySer.EncodeEntries(ents)) + rest)
         == Ok((Map(true, LegacyRoundTrip.NormalizeEntries(ents)), rest))
  {
    var v := Map(true, ents);
    assert (2 * |ents|) / 2 == |ents|;
    assert LegacySer.Encode(v) == LegacySer.EncodeMap(true, ents);
    assert LegacyIntendedUnsizedFinish(true, 2 * |ents|, LegacySer.EncodeEntries(ents)) == LegacySer.Encode(v);
    assert Conforms(v, s);
    LegacyRoundTrip.DecodeEncode(v, s, rest);
  }

  // ---------------------------------------------------------------------
  // The untagged format: `collect_str`
  // ---------------------------------------------------------------------

  /** As written, `collect_str` of src/ser.rs announces `u64::MAX` bytes of
      text and ends it with 0xFF, but `deserialize_str` takes the length
      literally: whenever fewer than `u64::MAX` bytes follow, it fails with
      `Eof`. */
  lemma DisplayStrRejected(ps: seq<string>, rest: seq<u8>)
    requires |EncodeUtf8(Joined(ps))| + 1 + |rest| < LegacySer.U64Max
    ensures LegacyDe.Decode(SStr, LegacySer.EncodeDisplay(ps) + rest) == Err(Eof)
  {
    var tail := EncodeUtf8(Joined(ps)) + [LegacySer.Terminator] + rest;
    assert LegacySer.EncodeDisplay(ps) + rest == BeBytes(LegacySer.U64Max, 8) + tail;
    AnyRoundTrip.PopUsizeOf(LegacySer.U64Max, tail);
  }

  /** The first occurrence of byte `b` in `s` at or after `from`. */
  function FindByte(s: seq<u8>, b: u8, from: nat): (r: Option<nat>)
    ensures r.Some? ==> from <= r.value < |s| && s[r.value] == b
    ensures r.Some? ==> forall j :: from <= j < r.value ==> s[j] != b
    ensures r.None? ==> forall j :: from <= j < |s| ==> s[j] != b
    decreases |s| - from
  {
    if from >= |s| then None
    else if s[from] == b then Some(from)
    else FindByte(s, b, from + 1)
  }

  /** `parse_str` as `collect_str` evidently expects it: a length of
      `u64::MAX` announces text that runs up to the first 0xFF, which is
      then skipped; any other length is taken as written. */
  function IntendedParseStr(input: seq<u8>): (r: AnyDe.Parsed<string>)
    ensures r.Ok? ==> |r.value.1| < |input|
  {
    var n :- LegacyDe.PopUsize(input);
    if n.0 != LegacySer.U64Max then LegacyDe.ParseStr(input)
    else
      match FindByte(n.1, LegacySer.Terminator, 0)
      case None => Err(Eof)
      case Some(len) =>
        match DecodeUtf8(n.1[..len])
        case None => Err(InvalidStr)
        case Some(text) => Ok((text, n.1[len + 1..]))
  }

  /** The intended parser reads `collect_str` output back as the text
      `Display` produced. */
  lemma IntendedDisplayRoundTrip(ps: seq<string>, rest: seq<u8>)
    ensures IntendedParseStr(LegacySer.EncodeDisplay(ps) + rest) == Ok((Joined(ps), rest))
  {
    var u := EncodeUtf8(Joined(ps));
    var tail := u + ([LegacySer.Terminator] + rest);
    assert LegacySer.EncodeDisplay(ps) + rest == BeBytes(LegacySer.U64Max, 8) + tail;
    AnyRoundTrip.PopUsizeOf(LegacySer.U64Max, tail);
    DecodeEncodedUtf8(Joined(ps));
    forall i | 0 <= i < |u|
      ensures tail[i] != LegacySer.Terminator
    {
      WellFormedAvoids(u, i);
    }
    assert tail[|u|] == LegacySer.Terminator;
    assert FindByte(tail, LegacySer.Terminator, 0) == Some(|u|) by {
      FirstByteAt(tail, LegacySer.Terminator, |u|, 0);
    }
    assert tail[..|u|] == u;
    assert tail[|u| + 1..] == rest;
  }

  /** `FindByte` stops at the first position holding `b`. */
  lemma {:induction false} FirstByteAt(s: seq<u8>, b: u8, at: nat, from: nat)
    requires from <= at < |s| && s[at] == b
    requires forall j :: from <= j < at ==> s[j] != b
    ensures FindByte(s, b, from) == Some(at)
    decreases at - from
  {
    if from < at {
      FirstByteAt(s, b, at, from + 1);
    }
  }

  /** The intended parser still reads every length-prefixed string as the
      code as written does, so plain strings round-trip as before. */
  lemma IntendedParseStrAgrees(input: seq<u8>)
    requires |input| >= 8 && FromBe(input[..8]) != LegacySer.U64Max
    ensures IntendedParseStr(input) == LegacyDe.ParseStr(input)
  {
    assert input == input[..8] + input[8..];
    BeBytesFromBe(input[..8]);
    FromBeBytes(FromBe(input[..8]), 8);
    AnyRoundTrip.PopUsizeOf(FromBe(input[..8]), input[8..]);
  }
}
