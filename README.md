# serde-bin in Dafny

A model of the core of `serde-bin`, a compact binary data format for the
Rust `serde` framework, with proofs about it. The crate has two codecs:

- the **tagged** (self-describing) codec of `src/any/`. Every value is
  preceded by a one-byte `Tag`. Integers and floats are stored big-endian.
  Strings and byte arrays carry a 64-bit length. Tuples and structs carry a
  one-byte count. Enum variants carry a 4-byte index. A string of unknown
  length is closed by an end marker. Because of the tags, `deserialize_any`
  can rebuild a schema-less `Value` tree (`src/any/value/mod.rs`).
- the **legacy** untagged codec of `src/ser.rs` and `src/de.rs`. It writes
  the same payloads with no tags, so the reader must know the type.

Both serializers write into a `Write` sink (`src/write.rs`). The model has
two sinks: a growable vector and a fixed buffer with a write head.

## How the model is built

- `DataModel.Data` stands for the value a `Serialize` impl hands to the
  serializer. `DataModel.Shape` stands for the type whose `Deserialize`
  impl drives the deserializer. `Conforms(v, s)` says that value `v` has
  type `s`.
- Each codec has a pure specification: an encoding function (`AnySer.Encode`,
  `LegacySer.Encode`) and a decoding function over the remaining input
  (`AnyDe.Decode`, `AnyDe.DecodeAny`, `LegacyDe.Decode`). A decoding
  function returns the value and the unread rest, or the crate's error.
- The crate's own objects are classes that change state in place:
  - `Serializer`, `SeqSerializer` and `StrCollector` write into a `VecSink`;
  - `Deserializer`, `SeqDeserializer` and `StructDeserializer` advance an
    `input` cursor.

  Each method is proved against the specification. A serializer method
  appends exactly the specified bytes and returns their count. A
  deserializer method returns what the decoding function returns and leaves
  the cursor on the same rest (`AnyDeserializer.Follows`).
- The round-trip lemmas connect the two halves. Decoding the encoding of a
  codable value of type `s` gives the value back, up to `Normalize`, and
  leaves any following bytes untouched. Each codec has its own
  `Normalize`. In the legacy codec a sequence serialized with unknown
  length reads back as a sequence of known length; maps of unknown length
  and `collect_str` values are outside the round trip. In the tagged codec, unknown lengths are
  outside the round trip, and `Normalize` only turns a `collect_str` value
  into the joined string.
- `Vectors` restates the crate's unit tests as lemmas: the exact bytes, and
  the round trips for every value of the test types.
- `Findings` holds the discrepancies listed below. Each has the as-written
  behaviour and the corrected behaviour, both proved.

## Model

| member | source | states |
|---|---|---|
| Tags.ToByte | src/any/mod.rs:156-160 | every tag that has a byte gets a byte below the tag count (35) |
| Tags.FromByte | src/any/mod.rs:107-154 | `try_from` succeeds exactly on bytes below 35; any other byte is `InvalidTag(b)`; the tag returned has a byte |
| Tags.FromByteNoInteger128 | src/any/mod.rs:145-151 | without 128-bit integers, bytes 33 and 34 give `Integer128`, bytes from 35 on give `InvalidTag`, and the rest are read as usual |
| Tags.FromByteToByte | src/any/mod.rs:107-160 | every byte `try_from` accepts converts back to itself |
| Tags.ToByteFromByte | src/any/mod.rs:107-160 | converting a tag to its byte and back gives the same tag |
| Tags.ToByteInjective | src/any/mod.rs:156-160 | distinct tags have distinct bytes |
| Tags.CharLen | src/any/mod.rs:20-56 | the four character tags stand for UTF-8 widths 1 to 4 |
| Tags.EncodeChar | src/any/mod.rs:59-70 | `encode_char` returns a character tag whose width is the byte count, and the bytes decode as UTF-8 to the character |
| Bytes.FromBeBytes | src/any/ser.rs:110-116 | reading back big-endian bytes of any value below 256^n gives the value |
| Bytes.BeBytesFromBe | src/any/de.rs:41-52 | writing back the value read from any n bytes gives the same bytes |
| Bytes.BeBytesInjective | src/any/ser.rs:110-116 | distinct values below 256^n have distinct n-byte encodings |
| Bytes.IntFromBytes | src/any/de.rs:41-52 | `from_be_bytes` of n bytes lies in the range of the n-byte signed or unsigned type |
| Bytes.IntRoundTrip | src/any/de.rs:41-52 | `from_be_bytes(to_be_bytes(x)) == x` for every integer in range, signed (two's complement) or unsigned |
| Bytes.EncodeUtf8Append | src/any/ser.rs:162-164 | the UTF-8 bytes of a concatenation are the concatenation of the UTF-8 bytes |
| Bytes.DecodeEncodedUtf8 | src/any/de.rs:104-108 | `str::from_utf8` accepts the UTF-8 encoding of every string and gives back the string |
| Bytes.WellFormedAvoids | src/any/de.rs:110-119 | bytes 0xC0, 0xC1 and 0xF5 to 0xFF never occur in well-formed UTF-8, so an end marker made of them cannot occur inside a string |
| Write.VecSink.WriteByte | src/write.rs:26-29 | pushing a byte appends it and counts 1 |
| Write.VecSink.WriteBytes | src/write.rs:31-34 | `extend_from_slice` appends the bytes and returns their length |
| Write.BuffWriter.constructor | src/write.rs:58-60 | a new writer holds the buffer with its head at 0 |
| Write.BuffWriter.WriteByte | src/write.rs:75-80 | stores the byte at the head and advances it when there is room; otherwise `EndOfBuff` and nothing changes |
| Write.BuffWriter.WriteBytes | src/write.rs:82-89 | as written: copies the bytes at the head and returns their length, but leaves the head where it was; `EndOfBuff` when they do not fit |
| Write.BuffWriter.WriteBytesAdvancing | src/write.rs:82-89 | corrected: the same copy, with the head moved past the bytes |
| Write.BuffWriter.WriteMatrixAdvancing | src/any/ser.rs:44-49 | `write_byte_matrix` into the corrected buffer writer: when the parts fit, they lie end to end after the head, the head is past them and the total length is returned; otherwise `EndOfBuff`, with the parts before the first one that does not fit written and the head just past them, and every other cell unchanged |
| Write.U8IntoBufferAsWritten | src/write.rs:82-89 | the tagged encoding of `5u8` written into a 2-byte buffer leaves `[5, 0]` with head 0 |
| Write.U8IntoBufferCorrected | src/write.rs:82-89 | with the corrected `write_bytes` the buffer holds `[8, 5]` with head 2 |
| Values.SizeHintCaution | src/any/value/mod.rs:133-135 | the preallocation is the hint capped at `MAX_PREALLOC_SIZE`, and 0 when there is no hint |
| AnySer.IntTag | src/any/ser.rs:140-154 | each integer type is written behind a tag that has a byte |
| AnySer.Serializer.WriteByte | src/any/ser.rs:36-38 | appends the byte and returns 1 |
| AnySer.Serializer.WriteBytes | src/any/ser.rs:40-42 | appends the bytes and returns their count |
| AnySer.Serializer.WriteByteMatrix | src/any/ser.rs:44-49 | appends the parts in order and returns the total length |
| AnySer.Serializer.WriteTag | src/any/ser.rs:51-53 | appends the tag's byte and returns 1 |
| AnySer.Serializer.WriteTagThen | src/any/ser.rs:55-57 | appends the tag byte, then the bytes, and returns 1 + their length |
| AnySer.Serializer.WriteTagThenSeq | src/any/ser.rs:59-63 | appends the tag byte, the 8-byte big-endian length, then the bytes, and returns 9 + their length |
| AnySer.Serializer.SerializeBool | src/any/ser.rs:135-138 | appends the encoding of the boolean (`BoolTrue` or `BoolFalse`) |
| AnySer.Serializer.SerializeInt | src/any/ser.rs:110-116 | appends the type's tag and the big-endian bytes of the integer |
| AnySer.Serializer.SerializeFloat32 | src/any/ser.rs:148 | appends `F32` and the 4 bytes of the float |
| AnySer.Serializer.SerializeFloat64 | src/any/ser.rs:149 | appends `F64` and the 8 bytes of the float |
| AnySer.Serializer.SerializeChar | src/any/ser.rs:156-160 | appends the width tag and the UTF-8 bytes of the character |
| AnySer.Serializer.SerializeStr | src/any/ser.rs:162-164 | appends `String`, the 8-byte length and the UTF-8 bytes, and returns 9 + their length |
| AnySer.Serializer.SerializeBytes | src/any/ser.rs:166-168 | appends `ByteArray`, the 8-byte length and the bytes, and returns 9 + their length |
| AnySer.Serializer.SerializeUnit | src/any/ser.rs:170-172 | appends the `Unit` tag alone |
| AnySer.Serializer.SerializeUnitStruct | src/any/ser.rs:174-176 | appends the `UnitStruct` tag alone |
| AnySer.Serializer.SerializeUnitVariant | src/any/ser.rs:178-185 | appends `UnitVariant` and the 4-byte variant index, 5 bytes |
| AnySer.Serializer.SerializeNone | src/any/ser.rs:226-228 | appends the `None` tag alone |
| AnySer.Serializer.SerializeSome | src/any/ser.rs:230-237 | appends `Some`, then the encoding of the content |
| AnySer.Serializer.SerializeNewtypeStruct | src/any/ser.rs:187-198 | appends `NewTypeStruct`, then the encoding of the content |
| AnySer.Serializer.SerializeNewtypeVariant | src/any/ser.rs:200-213 | appends `NewTypeVariant`, the 4-byte index, then the encoding of the content |
| AnySer.Serializer.SerializeSeq | src/any/ser.rs:215-224 | with a known length, writes `Seq` and the 8-byte length and starts a counting `SeqSerializer` at 9; with none, writes nothing and starts a buffering one |
| AnySer.Serializer.SerializeMap | src/any/ser.rs:266-275 | the same with the `Map` tag |
| AnySer.Serializer.SerializeCounted | src/any/ser.rs:239-253 | `serialize_tuple` and `serialize_tuple_struct`: the tag and the count as one byte (the `as u8` truncation is kept) |
| AnySer.Serializer.SerializeVariantHeader | src/any/ser.rs:255-264 | `serialize_tuple_variant` and `serialize_struct_variant`: the tag and the 4-byte index |
| AnySer.Serializer.CollectStr | src/any/ser.rs:298-310 | appends `NullTerminatedString`, the UTF-8 bytes of the `Display` output and the end marker |
| AnySer.Serializer.Serialize | src/any/ser.rs:118-310 | `value.serialize(&mut serializer)`: appends exactly `Encode(v)` and returns its length |
| AnySer.Serializer.SerializeCountedElements | src/any/ser.rs:239-253 | a tuple or tuple struct with its elements: appends `EncodeCounted` |
| AnySer.Serializer.SerializeVariantElements | src/any/ser.rs:255-264 | a tuple or struct variant with its elements: appends `EncodeVariantElems` |
| AnySer.Serializer.SerializeSeqElements | src/any/ser.rs:417-432 | a sequence through `SerializeSeq` and `end`: appends `EncodeSeq`, with or without a known length |
| AnySer.Serializer.SerializeMapEntries | src/any/ser.rs:485-507 | a map through `SerializeMap` and `end`: appends `EncodeMap` |
| AnySer.Serializer.SerializeElements | src/any/ser.rs:417-432 | a known-length serializer writes each element in place; an unknown-length one writes the count (one per element) and the buffered elements at the end |
| AnySer.Serializer.SerializeEntries | src/any/ser.rs:485-507 | the same for map entries; the unknown-length count is 2 per entry, since keys and values are both counted |
| AnySer.Serializer.SerializeEntry | src/any/ser.rs:490-502 | `serialize_key` then `serialize_value`: writes or buffers the key then the value, and counts 2 when buffering |
| AnySer.SeqSerializer.NewKnown | src/any/ser.rs:334-339 | a counting serializer starts with the header bytes already written |
| AnySer.SeqSerializer.NewUnknown | src/any/ser.rs:341-347 | a buffering serializer starts empty with count 0 |
| AnySer.SeqSerializer.SerValue | src/any/ser.rs:349-370 | known: appends `Encode(v)` to the writer; unknown: appends it to the side buffer and adds 1 to the count |
| AnySer.SeqSerializer.Finish | src/any/ser.rs:372-389 | known: writes nothing and returns the byte total; unknown: writes the 8-byte count and the buffer, and no tag (see Findings) |
| AnySer.StrCollector.constructor | src/any/ser.rs:548-555 | a collector over the writer with nothing written |
| AnySer.StrCollector.WriteStr | src/any/ser.rs:558-566 | appends the UTF-8 bytes of each piece and adds their length to the total |
| AnyDe.PopSlice | src/any/de.rs:81-88 | succeeds exactly when `len` bytes remain; gives those bytes and the rest; `Eof` otherwise |
| AnyDe.PopTag | src/any/de.rs:69-73 | `Eof` on empty input; the tag whose byte comes first when that byte is below 35; `InvalidTag` otherwise |
| AnyDe.PeekTag | src/any/de.rs:75-79 | the same outcome as `pop_tag`, without consuming |
| AnyDe.PopUsize | src/any/de.rs:97-102 | succeeds exactly when 8 bytes remain; the input is then the big-endian bytes of the value followed by the rest |
| AnyDe.ExpectTag | src/any/de.rs:32-39 | `check_tag!`: the input after the tag when it is the expected one, `UnexpectedTag(what, tag)` when it is another, and `pop_tag`'s error on a bad first byte |
| AnyDe.ParseStrInner | src/any/de.rs:104-108 | `Eof` when fewer than `len` bytes remain, `InvalidStr` when they are not UTF-8, otherwise their text and the input after them |
| AnyDe.FindMarker | src/any/de.rs:110-119 | the first end-marker position at or after `from`, or none when there is none |
| AnyDe.ParseUnknownLenStr | src/any/de.rs:110-119 | `Eof` when the input holds no end marker; otherwise the bytes before the first marker must be UTF-8 (`InvalidStr` if not), and a success gives their text and the input after the marker |
| AnyDe.ParseKnownLenStr | src/any/de.rs:121-124 | `Eof` when fewer than 8 bytes remain; otherwise the big-endian length read by `ParseStrInner` on the bytes after it |
| AnyDe.ParseStr | src/any/de.rs:126-132 | a `String` tag reads a length-prefixed string and a `NullTerminatedString` tag an end-marked one; `pop_tag`'s error on a bad first byte; `UnexpectedTag("String", tag)` for any other tag; a success consumes input |
| AnyDe.Decode | src/any/de.rs:212-426 | `T::deserialize` for a type of shape `s` fails with `pop_tag`'s error (`Eof`, `InvalidTag`) when no valid tag comes first, and consumes input when it succeeds (its partner is `AnyRoundTrip.DecodeEncode`) |
| AnyDe.DecodeBool | src/any/de.rs:212-221 | succeeds exactly on `BoolFalse` and `BoolTrue`, giving `false` or `true` and the input after the tag; `UnexpectedTag("Boolean", tag)` for any other tag; `pop_tag`'s error on a bad first byte |
| AnyDe.DecodeInt | src/any/de.rs:41-52 | with the tag of the requested width, succeeds exactly when that many bytes follow, reading them big-endian in two's complement or unsigned and consuming tag and bytes; `Eof` when fewer follow; `UnexpectedTag(type name, tag)` for any other tag |
| AnyDe.DecodeFloat32 | src/any/de.rs:223-237 | `F32` and 4 bytes give those bits and the input after them; `Eof` when fewer than 4 follow; `UnexpectedTag("f32", tag)` for any other tag |
| AnyDe.DecodeFloat64 | src/any/de.rs:223-237 | `F64` and 8 bytes give those bits and the input after them; `Eof` when fewer than 8 follow; `UnexpectedTag("f64", tag)` for any other tag |
| AnyDe.DecodeChar | src/any/de.rs:239-259 | a `CharN` tag takes exactly N bytes: `Eof` when fewer follow, `InvalidStr` when they are not UTF-8, otherwise the first character of the N bytes' UTF-8 decoding (which is never empty) and the input after the N bytes; `UnexpectedTag("char", tag)` for any other tag |
| AnyDe.DecodeStr | src/any/de.rs:261-274 | succeeds exactly when `AnyDe.ParseStr` does, with its string; fails with the same error (`UnexpectedTag("String", tag)`, `Eof`, `InvalidStr`) |
| AnyDe.DecodeBytes | src/any/de.rs:276-291 | `ByteArray`, a big-endian length n and n bytes give those bytes and the input after them; `Eof` when the length or the bytes are cut short; `UnexpectedTag("ByteArray", tag)` for any other tag |
| AnyDe.DecodeOption | src/any/de.rs:293-302 | `None` gives the none value and the input after the tag; after `Some` it succeeds exactly when the content read from the rest does, giving a some value of that content and what the content leaves; `UnexpectedTag("Option", tag)` for any other tag (partner `AnyRoundTrip.RoundTripSome`) |
| AnyDe.DecodeUnit | src/any/de.rs:304-310 | `Unit` gives the unit value and the input after the tag; `UnexpectedTag("Unit", tag)` for any other tag |
| AnyDe.DecodeUnitStruct | src/any/de.rs:312-318 | `UnitStruct` gives the unit struct and the input after the tag; `UnexpectedTag("UnitStruct", tag)` for any other tag |
| AnyDe.DecodeNewtypeStruct | src/any/de.rs:320-326 | a success starts with `NewTypeStruct`; after that tag it succeeds exactly when the content read from the rest does, giving a newtype struct of that content and what the content leaves; `UnexpectedTag("NewTypeStruct", tag)` for any other tag (partner `AnyRoundTrip.RoundTripNewtypeStruct`) |
| AnyDe.DecodeCounted | src/any/de.rs:340-409 | the tuple, tuple struct and struct header: `UnexpectedTag(what, tag)` for a tag other than the expected one, `Eof` when no count byte follows, `SeqSizeMismatch(expected, got)` when the count byte differs from the arity; a success had the expected tag and count, and gives one value per element type (partner `AnyRoundTrip.RoundTripCounted`) |
| AnyDe.DecodeTuple | src/any/de.rs:340-354 | `UnexpectedTag("Tuple", tag)` for another tag, `Eof` without a count byte, `SeqSizeMismatch(len, count)` when the count byte differs from the tuple's length; a success is a tuple of that length (partner `AnyRoundTrip.RoundTripCounted`) |
| AnyDe.DecodeTupleStruct | src/any/de.rs:356-375 | `UnexpectedTag("TupleStruct", tag)` for another tag, `Eof` without a count byte, `SeqSizeMismatch(len, count)` when the count byte differs; a success is a tuple struct of that length (partner `AnyRoundTrip.RoundTripCounted`) |
| AnyDe.DecodeStruct | src/any/de.rs:389-409 | `UnexpectedTag("Struct", tag)` for another tag, `Eof` without a count byte, `SeqSizeMismatch(fields, count)` when the count byte differs from the number of fields; a success is a struct with one value per field (partner `AnyRoundTrip.RoundTripCounted`) |
| AnyDe.DecodeElems | src/any/de.rs:482-497 | reads exactly one value per element type (partner `AnyRoundTrip.RoundTripElems`) |
| AnyDe.DecodeSeq | src/any/de.rs:328-338 | `UnexpectedTag("Sequence", tag)` for a tag other than `Seq`, `Eof` when the 8-byte count is cut short; a success is a known-length sequence with as many elements as the big-endian count says (partner `AnyRoundTrip.RoundTripSeq`) |
| AnyDe.DecodeRepeat | src/any/de.rs:482-497 | reads exactly `n` elements (partner `AnyRoundTrip.RoundTripRepeat`) |
| AnyDe.DecodeMap | src/any/de.rs:377-387 | `UnexpectedTag("Map", tag)` for a tag other than `Map`, `Eof` when the 8-byte count is cut short; a success is a known-length map with as many entries as the big-endian count says (partner `AnyRoundTrip.RoundTripMap`) |
| AnyDe.DecodeEntries | src/any/de.rs:507-519 | reads exactly `n` entries (partner `AnyRoundTrip.RoundTripEntries`) |
| AnyDe.DecodeIdentifier | src/any/de.rs:428-443 | a variant tag followed by 4 bytes gives their big-endian index and the input after them, and `Eof` when fewer follow; a `String` tag gives the name `parse_known_len_str` reads, or its error; `UnexpectedTag("Identifier", tag)` for any other tag |
| AnyDe.FindVariant | src/any/de.rs:530-536 | the first variant with the given name at or after `from`, or none when no such variant exists |
| AnyDe.ResolveVariant | src/any/de.rs:530-536 | an index selects the variant exactly when it is in range; a name selects a variant exactly when some variant has it; otherwise `UnknownVariant` |
| AnyDe.DecodeEnum | src/any/de.rs:411-426 | `UnexpectedTag("Enum", tag)` when the peeked tag is not a variant tag; an index past the declared variants is an unknown variant; a success started with a variant tag (partners `AnyRoundTrip.EnumHeaderOf`, `AnyRoundTrip.RoundTripNewtypeVariant`) |
| AnyDe.DecodeVariant | src/any/de.rs:542-569 | reading a variant's payload never grows the input (partners `AnyRoundTrip.RoundTripNewtypeVariant`, `AnyRoundTrip.RoundTripVariantElems`) |
| AnyDe.FromBytes | src/any/de.rs:58-66 | `from_bytes` succeeds exactly when the decoder succeeds with no byte left over; errors pass through and leftover bytes are an error |
| AnyDe.IntOfTag | src/any/de.rs:169-210 | the integer tag `deserialize_any` sees is read as the integer type that is written behind it |
| AnyDe.DecodeAny | src/any/de.rs:169-210 | consumes input when it succeeds (partner `AnyValueRoundTrip.DecodeAnyEncode`) |
| AnyDe.AnyByTag | src/any/de.rs:169-210 | consumes input when it succeeds (partner `AnyValueRoundTrip.DecodeAnyEncode`) |
| AnyDe.AnyOption | src/any/de.rs:293-302 | consumes input when it succeeds (partner `AnyValueRoundTrip.AnySome`) |
| AnyDe.AnyNewtypeStruct | src/any/de.rs:320-326 | consumes input when it succeeds (partner `AnyValueRoundTrip.AnyNewtype`) |
| AnyDe.AnySeq | src/any/de.rs:328-338 | consumes input when it succeeds (partner `AnyValueRoundTrip.AnySeqOf`) |
| AnyDe.AnyCounted | src/any/de.rs:134-150 | consumes input when it succeeds (partner `AnyValueRoundTrip.AnyCountedOf`) |
| AnyDe.AnyElems | src/any/de.rs:482-497 | reads exactly `n` values (partner `AnyValueRoundTrip.AnyElemsOf`) |
| AnyDe.AnyMap | src/any/de.rs:377-387 | consumes input when it succeeds (partner `AnyValueRoundTrip.AnyMapOf`) |
| AnyDe.AnyEntry | src/any/de.rs:507-519 | consumes input when it succeeds (partner `AnyValueRoundTrip.AnyEntryOf`) |
| AnyDe.AnyEntries | src/any/de.rs:507-519 | reads exactly `n` entries (partner `AnyValueRoundTrip.AnyEntriesOf`) |
| AnyDe.AnyStruct | src/any/de.rs:152-159 | consumes input when it succeeds (partner `AnyValueRoundTrip.AnyStructOf`) |
| AnyDe.AnyFields | src/any/de.rs:596-616 | reads exactly `n` fields, and the j-th is keyed by its position `index + j` |
| AnyDeserializer.Scalar | src/any/value/mod.rs:111-131 | a typed read handed to the value visitor succeeds exactly when the read does, and keeps its error |
| AnyDeserializer.Deserializer.PopSlice | src/any/de.rs:81-88 | follows `AnyDe.PopSlice`: same result, and the cursor is left on the same rest |
| AnyDeserializer.Deserializer.PopN | src/any/de.rs:90-95 | follows `AnyDe.PopSlice` for `N` bytes and returns exactly `N` bytes |
| AnyDeserializer.Deserializer.PopTag | src/any/de.rs:69-73 | follows `AnyDe.PopTag` |
| AnyDeserializer.Deserializer.PeekTag | src/any/de.rs:75-79 | returns `AnyDe.PeekTag` of the input and leaves the cursor where it was |
| AnyDeserializer.Deserializer.PopUsize | src/any/de.rs:97-102 | follows `AnyDe.PopUsize` |
| AnyDeserializer.Deserializer.ExpectTag | src/any/de.rs:212-221 | `check_tag!`: consumes the expected tag, or fails with `UnexpectedTag` as `AnyDe.ExpectTag` does |
| AnyDeserializer.Deserializer.ParseStrInner | src/any/de.rs:104-108 | follows `AnyDe.ParseStrInner` |
| AnyDeserializer.Deserializer.MarkerPosition | src/any/de.rs:110-119 | the loop over windows finds `AnyDe.MarkerPosition` of the input |
| AnyDeserializer.Deserializer.ParseUnknownLenStr | src/any/de.rs:110-119 | follows `AnyDe.ParseUnknownLenStr` |
| AnyDeserializer.Deserializer.ParseKnownLenStr | src/any/de.rs:121-124 | follows `AnyDe.ParseKnownLenStr` |
| AnyDeserializer.Deserializer.ParseStr | src/any/de.rs:126-132 | follows `AnyDe.ParseStr` |
| AnyDeserializer.Deserializer.Deserialize | src/any/de.rs:212-426 | `T::deserialize` on the cursor follows `AnyDe.Decode(s, …)` |
| AnyDeserializer.Deserializer.DeserializeBool | src/any/de.rs:212-221 | follows `AnyDe.DecodeBool` |
| AnyDeserializer.Deserializer.DeserializeInt | src/any/de.rs:41-52 | follows `AnyDe.DecodeInt` |
| AnyDeserializer.Deserializer.DeserializeFloat32 | src/any/de.rs:223-237 | follows `AnyDe.DecodeFloat32` |
| AnyDeserializer.Deserializer.DeserializeFloat64 | src/any/de.rs:223-237 | follows `AnyDe.DecodeFloat64` |
| AnyDeserializer.Deserializer.DeserializeChar | src/any/de.rs:239-259 | follows `AnyDe.DecodeChar` |
| AnyDeserializer.Deserializer.DeserializeStr | src/any/de.rs:261-274 | follows `AnyDe.DecodeStr` |
| AnyDeserializer.Deserializer.DeserializeBytes | src/any/de.rs:276-291 | follows `AnyDe.DecodeBytes` |
| AnyDeserializer.Deserializer.DeserializeOption | src/any/de.rs:293-302 | follows `AnyDe.DecodeOption` |
| AnyDeserializer.Deserializer.DeserializeUnit | src/any/de.rs:304-310 | follows `AnyDe.DecodeUnit` |
| AnyDeserializer.Deserializer.DeserializeUnitStruct | src/any/de.rs:312-318 | follows `AnyDe.DecodeUnitStruct` |
| AnyDeserializer.Deserializer.DeserializeNewtypeStruct | src/any/de.rs:320-326 | follows `AnyDe.DecodeNewtypeStruct` |
| AnyDeserializer.Deserializer.DeserializeCounted | src/any/de.rs:340-375 | follows `AnyDe.DecodeCounted` |
| AnyDeserializer.Deserializer.DeserializeTuple | src/any/de.rs:340-354 | follows `AnyDe.DecodeTuple` |
| AnyDeserializer.Deserializer.DeserializeTupleStruct | src/any/de.rs:356-375 | follows `AnyDe.DecodeTupleStruct` |
| AnyDeserializer.Deserializer.DeserializeStruct | src/any/de.rs:389-409 | follows `AnyDe.DecodeStruct` |
| AnyDeserializer.Deserializer.DeserializeSeq | src/any/de.rs:328-338 | follows `AnyDe.DecodeSeq` |
| AnyDeserializer.Deserializer.DeserializeMap | src/any/de.rs:377-387 | follows `AnyDe.DecodeMap` |
| AnyDeserializer.Deserializer.DeserializeIdentifier | src/any/de.rs:428-443 | follows `AnyDe.DecodeIdentifier` |
| AnyDeserializer.Deserializer.DeserializeEnum | src/any/de.rs:411-426 | follows `AnyDe.DecodeEnum` |
| AnyDeserializer.Deserializer.DeserializeVariant | src/any/de.rs:542-569 | follows `AnyDe.DecodeVariant` |
| AnyDeserializer.Deserializer.DeserializeAny | src/any/de.rs:169-210 | follows `AnyDe.DecodeAny` |
| AnyDeserializer.Deserializer.AnyOption | src/any/de.rs:293-302 | follows `AnyDe.AnyOption` |
| AnyDeserializer.Deserializer.AnyNewtypeStruct | src/any/de.rs:320-326 | follows `AnyDe.AnyNewtypeStruct` |
| AnyDeserializer.Deserializer.AnySeq | src/any/de.rs:328-338 | follows `AnyDe.AnySeq` |
| AnyDeserializer.Deserializer.AnyCounted | src/any/de.rs:134-150 | follows `AnyDe.AnyCounted` |
| AnyDeserializer.Deserializer.AnyMap | src/any/de.rs:377-387 | follows `AnyDe.AnyMap` |
| AnyDeserializer.Deserializer.AnyStruct | src/any/de.rs:152-159 | follows `AnyDe.AnyStruct` |
| AnyDeserializer.FromBytes | src/any/de.rs:58-66 | returns exactly `AnyDe.FromBytes(s, input)` |
| AnyDeserializer.SeqDeserializer.NextElement | src/any/de.rs:482-497 | `None` with nothing consumed once the count is exhausted; otherwise one fewer remaining and the element as `AnyDe.Decode` reads it |
| AnyDeserializer.SeqDeserializer.NextKey | src/any/de.rs:507-512 | the same as `NextElement`, for a key |
| AnyDeserializer.SeqDeserializer.NextValue | src/any/de.rs:514-519 | follows `AnyDe.Decode` for the value, whatever the count |
| AnyDeserializer.SeqDeserializer.NextAny | src/any/de.rs:482-497 | `None` once the count is exhausted; otherwise the next value as `AnyDe.DecodeAny` reads it |
| AnyDeserializer.SeqDeserializer.NextAnyValue | src/any/de.rs:514-519 | follows `AnyDe.DecodeAny` |
| AnyDeserializer.SeqDeserializer.NextAnyEntry | src/any/de.rs:507-519 | `None` once the count is exhausted; otherwise a key and a value as `AnyDe.AnyEntry` reads them |
| AnyDeserializer.StructDeserializer.NextKey | src/any/de.rs:596-609 | `None` once the count is exhausted; otherwise the current index as the key, and the index moves on |
| AnyDeserializer.StructDeserializer.NextValue | src/any/de.rs:611-616 | follows `AnyDe.Decode` for the field |
| AnyDeserializer.StructDeserializer.NextAnyValue | src/any/de.rs:611-616 | follows `AnyDe.DecodeAny` for the field |
| AnyDeserializer.ReadElems | src/any/de.rs:482-497 | the tuple visitor's loop over `next_element_seed` follows `AnyDe.DecodeElems` |
| AnyDeserializer.ReadRepeat | src/any/de.rs:482-497 | the sequence visitor's loop follows `AnyDe.DecodeRepeat` |
| AnyDeserializer.ReadEntries | src/any/de.rs:507-519 | the map visitor's loop follows `AnyDe.DecodeEntries` |
| AnyDeserializer.ReadFields | src/any/de.rs:596-616 | the struct visitor's loop follows `AnyDe.DecodeElems` over the field types |
| AnyDeserializer.CollectElems | src/any/value/mod.rs:216-226 | `visit_seq` collects values until `None`, following `AnyDe.AnyElems` |
| AnyDeserializer.CollectEntries | src/any/value/mod.rs:228-234 | `visit_map` collects key-value pairs, following `AnyDe.AnyEntries` |
| AnyDeserializer.CollectFields | src/any/value/mod.rs:228-234 | `visit_map` over a struct collects position-keyed fields, following `AnyDe.AnyFields` |
| AnyRoundTrip.PopUsizeOf | src/any/de.rs:97-102 | `pop_usize` reads back the 8-byte length the serializer wrote |
| AnyRoundTrip.KnownLenStrOf | src/any/de.rs:121-124 | `parse_known_len_str` reads back a length-prefixed UTF-8 string |
| AnyRoundTrip.FindMarkerAfter | src/any/de.rs:110-119 | the first end marker after UTF-8 text is the one right after it |
| AnyRoundTrip.UnknownLenStrOf | src/any/de.rs:110-119 | `parse_unknown_len_str` reads back the text before the end marker and leaves what follows the marker |
| AnyRoundTrip.ParseStrKnownOf | src/any/de.rs:126-132 | `parse_str` after a `String` tag reads back the string |
| AnyRoundTrip.ParseStrUnknownOf | src/any/de.rs:126-132 | `parse_str` after a `NullTerminatedString` tag reads back the text |
| AnyRoundTrip.RoundTripBool | src/any/de.rs:212-221 | `deserialize_bool` reads back both boolean tags |
| AnyRoundTrip.RoundTripInt | src/any/de.rs:41-52 | every in-range integer of every width reads back as itself |
| AnyRoundTrip.RoundTripFloat32 | src/any/de.rs:223-237 | every 32-bit float bit pattern reads back unchanged |
| AnyRoundTrip.RoundTripFloat64 | src/any/de.rs:223-237 | every 64-bit float bit pattern reads back unchanged |
| AnyRoundTrip.RoundTripChar | src/any/de.rs:239-259 | every character reads back from its width tag and UTF-8 bytes |
| AnyRoundTrip.RoundTripStr | src/any/de.rs:261-274 | every string reads back from its length-prefixed encoding |
| AnyRoundTrip.RoundTripDisplay | src/any/de.rs:261-274 | a `collect_str` output reads back as the `Display` text |
| AnyRoundTrip.RoundTripBytes | src/any/de.rs:276-291 | every byte array reads back |
| AnyRoundTrip.RoundTripSome | src/any/de.rs:293-302 | `Some(x)` reads back as `Some` of `x` |
| AnyRoundTrip.RoundTripNewtypeStruct | src/any/de.rs:320-326 | a newtype struct reads back with its content |
| AnyRoundTrip.IdentifierOf | src/any/de.rs:428-443 | after any variant tag, `deserialize_identifier` reads back the 4-byte index |
| AnyRoundTrip.EnumHeaderOf | src/any/de.rs:411-426 | `deserialize_enum` goes on with the payload of the variant whose index was written |
| AnyRoundTrip.RoundTripNewtypeVariant | src/any/de.rs:547-553 | a newtype variant reads back with its index and content |
| AnyRoundTrip.RoundTripVariantElems | src/any/de.rs:555-569 | a tuple or struct variant reads back with its index and elements |
| AnyRoundTrip.RoundTripCounted | src/any/de.rs:340-375 | a tuple or tuple struct reads back element by element |
| AnyRoundTrip.RoundTripElems | src/any/de.rs:482-497 | a list of values written one after another reads back in order |
| AnyRoundTrip.RoundTripRepeat | src/any/de.rs:482-497 | `n` values of one element type read back in order |
| AnyRoundTrip.RoundTripSeq | src/any/de.rs:328-338 | a known-length sequence reads back |
| AnyRoundTrip.RoundTripEntries | src/any/de.rs:507-519 | `n` entries read back in order |
| AnyRoundTrip.RoundTripEntry | src/any/de.rs:507-519 | an entry's key reads back and leaves the value's encoding, which reads back in turn |
| AnyRoundTrip.RoundTripMap | src/any/de.rs:377-387 | a known-length map reads back |
| AnyRoundTrip.DecodeEncode | src/any/de.rs:212-426 | for every codable value `v` of type `s`: `Decode(s, Encode(v) + rest) == Ok((Normalize(v), rest))` |
| AnyRoundTrip.FromBytesEncode | src/any/de.rs:58-66 | `from_bytes(to_bytes(v)) == v`, up to normalisation, for every codable value of the requested type |
| AnyValueRoundTrip.DecodeAnyEncode | src/any/de.rs:169-210 | for every readable value, `deserialize_any` into `Value` gives `ToValue(v)` and leaves the rest |
| AnyValueRoundTrip.VariantAborts | src/any/value/mod.rs:236-242 | the encoding of any enum variant makes `deserialize_any` hit the `todo!()` of `visit_enum` |
| AnyValueRoundTrip.ScalarRead | src/any/value/mod.rs:144-214 | every scalar reads back through the visitor method of its kind |
| AnyValueRoundTrip.IntOfIntTag | src/any/de.rs:169-210 | the integer tag of a type dispatches to that type's reader |
| AnyValueRoundTrip.CharByTag | src/any/de.rs:169-210 | all four character tags go to `deserialize_char` |
| AnyValueRoundTrip.AnySome | src/any/value/mod.rs:194-200 | `Some(x)` reads back as an option holding `x`'s value |
| AnyValueRoundTrip.AnyNewtype | src/any/value/mod.rs:209-214 | a newtype struct reads back as its content's value |
| AnyValueRoundTrip.AnyElemsOf | src/any/value/mod.rs:216-226 | `n` encoded values read back as their values, in order |
| AnyValueRoundTrip.AnyEntriesOf | src/any/value/mod.rs:228-234 | `n` encoded entries read back as their key-value pairs, in order |
| AnyValueRoundTrip.AnyEntryOf | src/any/value/mod.rs:228-234 | one entry reads back as its key's and value's values |
| AnyValueRoundTrip.AnyFieldsOf | src/any/de.rs:596-616 | struct fields read back keyed by their positions |
| AnyValueRoundTrip.AnyCountedOf | src/any/de.rs:134-150 | a tuple or tuple struct reads back as an array |
| AnyValueRoundTrip.AnySeqOf | src/any/de.rs:328-338 | a sequence reads back as an array |
| AnyValueRoundTrip.AnyMapOf | src/any/de.rs:377-387 | a map reads back as a map of values |
| AnyValueRoundTrip.AnyStructOf | src/any/de.rs:152-159 | a struct reads back as a map from field positions to values |
| LegacySer.Serializer.SerializeBool | src/ser.rs:104-108 | appends 1 or 0 and returns 1 |
| LegacySer.Serializer.SerializeInt | src/ser.rs:77-85 | appends the big-endian bytes of the integer, as many as the type's width |
| LegacySer.Serializer.SerializeFloat32 | src/ser.rs:110-124 | appends the 4 bytes of the float |
| LegacySer.Serializer.SerializeFloat64 | src/ser.rs:110-124 | appends the 8 bytes of the float |
| LegacySer.Serializer.SerializeChar | src/ser.rs:126-131 | appends the code point as 4 big-endian bytes |
| LegacySer.Serializer.SerializeStr | src/ser.rs:133-135 | appends the 8-byte length and the UTF-8 bytes |
| LegacySer.Serializer.SerializeBytes | src/ser.rs:137-144 | appends the 8-byte length and the bytes |
| LegacySer.Serializer.SerializeUnit | src/ser.rs:146-148 | writes nothing and returns 0 |
| LegacySer.Serializer.SerializeUnitStruct | src/ser.rs:150-152 | writes nothing and returns 0 |
| LegacySer.Serializer.SerializeUnitVariant | src/ser.rs:154-161 | appends the 4-byte variant index |
| LegacySer.Serializer.SerializeNone | src/ser.rs:199-201 | appends a 0 byte |
| LegacySer.Serializer.SerializeSome | src/ser.rs:203-209 | appends a 1 byte, then the content |
| LegacySer.Serializer.SerializeNewtypeStruct | src/ser.rs:163-172 | appends the content alone |
| LegacySer.Serializer.SerializeNewtypeVariant | src/ser.rs:174-186 | appends the 4-byte index, then the content |
| LegacySer.Serializer.SerializeSeq | src/ser.rs:188-197 | with a known length, writes the 8-byte length and starts a counting `SeqSerializer`; with none, writes nothing and starts a buffering one |
| LegacySer.Serializer.SerializeHeaderless | src/ser.rs:211-221 | `serialize_tuple`, `serialize_tuple_struct` and `serialize_struct` write no header |
| LegacySer.Serializer.SerializeVariantHeader | src/ser.rs:223-232 | tuple and struct variants start with the 4-byte index |
| LegacySer.Serializer.CollectStr | src/ser.rs:264-276 | appends the length `u64::MAX`, the UTF-8 text and one 0xFF byte (see Findings) |
| LegacySer.Serializer.WritePieces | src/ser.rs:509-533 | the string collector appends the UTF-8 bytes of each piece and returns the total |
| LegacySer.Serializer.Serialize | src/ser.rs:87-276 | `value.serialize(&mut serializer)`: appends exactly `LegacySer.Encode(v)` and returns its length |
| LegacySer.Serializer.SerializeHeaderlessElements | src/ser.rs:400-433 | a tuple, tuple struct or struct: its elements one after another |
| LegacySer.Serializer.SerializeVariantElements | src/ser.rs:434-450 | a tuple or struct variant: the index, then its elements |
| LegacySer.Serializer.SerializeSeqElements | src/ser.rs:383-399 | a sequence: the 8-byte count, then its elements, with or without a known length |
| LegacySer.Serializer.SerializeMapEntries | src/ser.rs:451-474 | a map: an 8-byte count, then its entries; the count is doubled when the length was unknown |
| LegacySer.Serializer.SerializeElements | src/ser.rs:383-399 | known length: each element in place; unknown: the count and the buffered elements at the end |
| LegacySer.Serializer.SerializeEntries | src/ser.rs:451-474 | the same for entries, counting 2 per entry when buffering |
| LegacySer.Serializer.SerializeEntry | src/ser.rs:456-469 | the key then the value, written or buffered |
| LegacySer.SeqSerializer.NewKnown | src/ser.rs:300-305 | a counting serializer starts with the header bytes already written |
| LegacySer.SeqSerializer.NewUnknown | src/ser.rs:307-313 | a buffering serializer starts empty |
| LegacySer.SeqSerializer.SerValue | src/ser.rs:315-336 | known: appends the value to the writer; unknown: to the buffer, adding 1 to the count |
| LegacySer.SeqSerializer.Finish | src/ser.rs:338-354 | known: returns the total; unknown: writes the 8-byte count and the buffer |
| LegacyDe.PopN | src/de.rs:23-32 | takes exactly `n` bytes when that many remain, as the tagged `pop_slice` does |
| LegacyDe.PopUsize | src/de.rs:34-39 | succeeds exactly when 8 bytes remain; the input is the big-endian length followed by the rest |
| LegacyDe.PopSlice | src/de.rs:41-46 | succeeds exactly when an 8-byte length and that many bytes remain, giving those bytes and the input after them; `Eof` otherwise |
| LegacyDe.ParseStr | src/de.rs:48-52 | `Eof` when the slice is not there; `InvalidStr` when its bytes are not UTF-8; otherwise the decoded text and the input after the slice (partner `LegacyRoundTrip.RoundTripStr`) |
| LegacyDe.Decode | src/de.rs:71-317 | `T::deserialize` dispatched on the requested shape; never grows the input (partner `LegacyRoundTrip.DecodeEncode`) |
| LegacyDe.DecodeBool | src/de.rs:71-81 | 0 and 1 are false and true; a larger byte is `InvalidBool`; no byte is `Eof` |
| LegacyDe.DecodeInt | src/de.rs:83-169 | succeeds exactly when the type's width is available, giving the integer its first bytes hold big-endian, in two's complement for a signed type or unsigned otherwise, which lies in the type's range, and the input after them; `Eof` otherwise |
| LegacyDe.DecodeFloat32 | src/de.rs:171-177 | succeeds exactly when 4 bytes remain, with their big-endian bits; `Eof` otherwise (partner `LegacyRoundTrip.CaseScalar`) |
| LegacyDe.DecodeFloat64 | src/de.rs:179-185 | succeeds exactly when 8 bytes remain, with their big-endian bits; `Eof` otherwise (partner `LegacyRoundTrip.CaseScalar`) |
| LegacyDe.DecodeChar | src/de.rs:187-195 | `Eof` with fewer than 4 bytes; 4 bytes holding a Unicode scalar value give that character and the input after them; any other code is `InvalidChar` |
| LegacyDe.DecodeStr | src/de.rs:197-210 | succeeds exactly when `LegacyDe.ParseStr` does: `Eof` when the slice is missing, `InvalidStr` when it is not UTF-8, otherwise the string it holds (partner `LegacyRoundTrip.RoundTripStr`) |
| LegacyDe.DecodeBytes | src/de.rs:212-225 | succeeds exactly when the length-prefixed slice is there, giving its bytes; `Eof` otherwise (partner `LegacyRoundTrip.CaseScalar`) |
| LegacyDe.DecodeOption | src/de.rs:227-237 | `Eof` on empty input; byte 0 is `None` with the input after it; byte 1 is `Some` of exactly what decoding the inner type from the next byte gives, failing when that fails; a larger byte is `InvalidOptionTag` (partner `LegacyRoundTrip.CaseOption`) |
| LegacyDe.DecodeElems | src/de.rs:355-366 | reads exactly one value per element type, the first being what decoding the first type gives (partner `LegacyRoundTrip.RoundTripElems`) |
| LegacyDe.DecodeSeq | src/de.rs:260-266 | `Eof` with fewer than 8 count bytes; a success is a sized sequence holding exactly the count read from those bytes, and consumes input (partner `LegacyRoundTrip.CaseSeq`) |
| LegacyDe.DecodeRepeat | src/de.rs:355-366 | reads exactly `n` elements, the first being what decoding the element type gives (partner `LegacyRoundTrip.RoundTripRepeat`) |
| LegacyDe.DecodeMap | src/de.rs:287-293 | `Eof` with fewer than 8 count bytes; a success is a sized map holding exactly the count read from those bytes, and consumes input (partner `LegacyRoundTrip.CaseMap`) |
| LegacyDe.DecodeEntries | src/de.rs:372-390 | reads exactly `n` entries, the first key being what decoding the key type gives (partner `LegacyRoundTrip.RoundTripEntries`) |
| LegacyDe.DecodeIdentifier | src/de.rs:319-324 | succeeds exactly when 4 bytes remain, reading them as the big-endian index; `Eof` otherwise |
| LegacyDe.DecodeEnum | src/de.rs:307-324 | `Eof` with fewer than 4 index bytes; an index past the declared variants is an unknown variant; otherwise the payload of the indexed variant read from the input after the index; success consumes input (partner `LegacyRoundTrip.EnumHeaderOf`) |
| LegacyDe.DecodeVariant | src/de.rs:413-436 | reading a variant's payload never grows the input (partners `LegacyRoundTrip.EnumHeaderOf`, `LegacyRoundTrip.DecodeEncode`) |
| LegacyDe.DecodeAny | src/de.rs:62-69 | `deserialize_any` is unimplemented: always that error |
| LegacyDe.DecodeIgnoredAny | src/de.rs:326-333 | `deserialize_ignored_any` is unimplemented: always that error |
| LegacyDe.FromBytes | src/de.rs:12-20 | succeeds exactly when the decoder succeeds with nothing left over; errors pass through |
| LegacyDeserializer.Deserializer.PopN | src/de.rs:23-32 | follows `LegacyDe.PopN` and returns `n` bytes |
| LegacyDeserializer.Deserializer.PopUsize | src/de.rs:34-39 | follows `LegacyDe.PopUsize` |
| LegacyDeserializer.Deserializer.PopSlice | src/de.rs:41-46 | follows `LegacyDe.PopSlice` |
| LegacyDeserializer.Deserializer.ParseStr | src/de.rs:48-52 | follows `LegacyDe.ParseStr` |
| LegacyDeserializer.Deserializer.Deserialize | src/de.rs:71-317 | `T::deserialize` on the cursor follows `LegacyDe.Decode(s, …)` |
| LegacyDeserializer.Deserializer.DeserializeBool | src/de.rs:71-81 | follows `LegacyDe.DecodeBool` |
| LegacyDeserializer.Deserializer.DeserializeInt | src/de.rs:83-169 | follows `LegacyDe.DecodeInt` |
| LegacyDeserializer.Deserializer.DeserializeFloat32 | src/de.rs:171-177 | follows `LegacyDe.Decode` for `f32` |
| LegacyDeserializer.Deserializer.DeserializeFloat64 | src/de.rs:179-185 | follows `LegacyDe.Decode` for `f64` |
| LegacyDeserializer.Deserializer.DeserializeChar | src/de.rs:187-195 | follows `LegacyDe.DecodeChar` |
| LegacyDeserializer.Deserializer.DeserializeStr | src/de.rs:197-210 | follows `LegacyDe.Decode` for strings |
| LegacyDeserializer.Deserializer.DeserializeBytes | src/de.rs:212-225 | follows `LegacyDe.Decode` for byte arrays |
| LegacyDeserializer.Deserializer.DeserializeOption | src/de.rs:227-237 | follows `LegacyDe.DecodeOption` |
| LegacyDeserializer.Deserializer.DeserializeUnit | src/de.rs:239-244 | consumes nothing, as `LegacyDe.Decode` for the unit type |
| LegacyDeserializer.Deserializer.DeserializeUnitStruct | src/de.rs:246-251 | consumes nothing, as `LegacyDe.Decode` for a unit struct |
| LegacyDeserializer.Deserializer.DeserializeNewtypeStruct | src/de.rs:253-258 | follows `LegacyDe.Decode` for a newtype struct |
| LegacyDeserializer.Deserializer.DeserializeTuple | src/de.rs:268-273 | follows `LegacyDe.Decode` for a tuple |
| LegacyDeserializer.Deserializer.DeserializeTupleStruct | src/de.rs:275-285 | follows `LegacyDe.Decode` for a tuple struct |
| LegacyDeserializer.Deserializer.DeserializeStruct | src/de.rs:295-305 | follows `LegacyDe.Decode` for a struct |
| LegacyDeserializer.Deserializer.DeserializeSeq | src/de.rs:260-266 | follows `LegacyDe.DecodeSeq` |
| LegacyDeserializer.Deserializer.DeserializeMap | src/de.rs:287-293 | follows `LegacyDe.DecodeMap` |
| LegacyDeserializer.Deserializer.DeserializeIdentifier | src/de.rs:319-324 | follows `LegacyDe.DecodeIdentifier` |
| LegacyDeserializer.Deserializer.DeserializeEnum | src/de.rs:307-317 | follows `LegacyDe.DecodeEnum` |
| LegacyDeserializer.Deserializer.DeserializeVariant | src/de.rs:413-436 | follows `LegacyDe.DecodeVariant` |
| LegacyDeserializer.Deserializer.DeserializeAny | src/de.rs:62-69 | follows `LegacyDe.DecodeAny` |
| LegacyDeserializer.Deserializer.DeserializeIgnoredAny | src/de.rs:326-333 | follows `LegacyDe.DecodeIgnoredAny` |
| LegacyDeserializer.FromBytes | src/de.rs:12-20 | returns exactly `LegacyDe.FromBytes(s, input)` |
| LegacyDeserializer.SeqDeserializer.NextElement | src/de.rs:355-366 | `None` with nothing consumed once the count is exhausted; otherwise one fewer remaining and the element as `LegacyDe.Decode` reads it |
| LegacyDeserializer.SeqDeserializer.NextKey | src/de.rs:372-383 | the same, for a key |
| LegacyDeserializer.SeqDeserializer.NextValue | src/de.rs:385-390 | follows `LegacyDe.Decode` for the value |
| LegacyDeserializer.ReadElems | src/de.rs:355-366 | the tuple visitor's loop follows `LegacyDe.DecodeElems` |
| LegacyDeserializer.ReadRepeat | src/de.rs:355-366 | the sequence visitor's loop follows `LegacyDe.DecodeRepeat` |
| LegacyDeserializer.ReadEntries | src/de.rs:372-390 | the map visitor's loop follows `LegacyDe.DecodeEntries` |
| LegacyRoundTrip.PopSliceOf | src/de.rs:41-46 | `pop_slice` reads back a length-prefixed byte string |
| LegacyRoundTrip.RoundTripChar | src/de.rs:187-195 | every character reads back from its 4-byte code point |
| LegacyRoundTrip.RoundTripStr | src/de.rs:48-52 | every string reads back from its length-prefixed UTF-8 |
| LegacyRoundTrip.EnumHeaderOf | src/de.rs:307-317 | `deserialize_enum` goes on with the payload of the variant whose index was written |
| LegacyRoundTrip.RoundTripElems | src/de.rs:355-366 | values written one after another read back in order |
| LegacyRoundTrip.RoundTripRepeat | src/de.rs:355-366 | `n` values of one type read back in order |
| LegacyRoundTrip.RoundTripEntries | src/de.rs:372-390 | `n` entries read back in order |
| LegacyRoundTrip.RoundTripEntry | src/de.rs:372-390 | an entry's key reads back and leaves its value, which reads back in turn |
| LegacyRoundTrip.DecodeEncode | src/de.rs:71-317 | for every codable value `v` of type `s`: `Decode(s, Encode(v) + rest) == Ok((Normalize(v), rest))` |
| LegacyRoundTrip.FromBytesEncode | src/de.rs:12-20 | `from_bytes(to_bytes(v)) == v`, up to normalisation, for every codable value |
| Vectors.TaggedStruct | src/any/mod.rs:195-224 | `TestStruct { a: 56, b: "Hello" }` is written as the test's byte vector |
| Vectors.TaggedStructRoundTrip | src/any/mod.rs:226-239 | every `TestStruct` reads back equal to itself |
| Vectors.TaggedEnumUnit | src/any/mod.rs:241-249 | `TestEnum::Unit` is `[22, 0, 0, 0, 0]` |
| Vectors.TaggedEnumNewType | src/any/mod.rs:251-263 | `TestEnum::NewType(56)` is `[24, 0, 0, 0, 1, 8, 56]` |
| Vectors.TaggedEnumTuple | src/any/mod.rs:265-303 | `TestEnum::Tuple(12.3, "String")` is the test's byte vector |
| Vectors.TaggedEnumStruct | src/any/mod.rs:305-352 | `TestEnum::Struct` with `42.123` and `[3, 7, 1, 8]` is the test's byte vector |
| Vectors.TaggedEnumUnitRoundTrip | src/any/mod.rs:354-364 | `TestEnum::Unit` reads back |
| Vectors.TaggedEnumNewTypeRoundTrip | src/any/mod.rs:366-376 | `TestEnum::NewType(x)` reads back for every `u8` |
| Vectors.TaggedEnumTupleRoundTrip | src/any/mod.rs:378-390 | `TestEnum::Tuple` reads back for every `f32` and string |
| Vectors.TaggedEnumStructRoundTrip | src/any/mod.rs:392-407 | `TestEnum::Struct` reads back for every `f64` and `u16` vector |
| Vectors.TaggedChar1 | src/any/mod.rs:409-419 | `'Y'` is `Char1` and one byte |
| Vectors.TaggedChar2 | src/any/mod.rs:421-431 | a two-byte character is `Char2` and its two UTF-8 bytes |
| Vectors.TaggedChar3 | src/any/mod.rs:433-443 | a three-byte character is `Char3` and its three UTF-8 bytes |
| Vectors.TaggedChar4 | src/any/mod.rs:445-455 | a four-byte character is `Char4` and its four UTF-8 bytes |
| Vectors.TaggedCharRoundTrip | src/any/mod.rs:409-455 | every character reads back |
| Vectors.UntaggedNewType | src/any/mod.rs:457-467 | `UntaggedEnum::NewType(s)` reaches the untagged visitor as the string `s` |
| Vectors.UntaggedStruct | src/any/mod.rs:469-479 | `UntaggedEnum::Struct { num }` reaches it as a one-entry map |
| Vectors.LegacyStruct | src/lib.rs:34-58 | `TestStruct { a: 56, b: "Hello" }` is written as the test's byte vector |
| Vectors.LegacyStructRoundTrip | src/lib.rs:60-73 | every `TestStruct` reads back |
| Vectors.LegacyEnumUnit | src/lib.rs:75-83 | `TestEnum::Unit` is `[0, 0, 0, 0]` |
| Vectors.LegacyEnumNewType | src/lib.rs:85-93 | `TestEnum::NewType(56)` is `[0, 0, 0, 1, 56]` |
| Vectors.LegacyEnumTuple | src/lib.rs:95-116 | `TestEnum::Tuple(12.3, "String")` is the test's byte vector |
| Vectors.LegacyEnumStruct | src/lib.rs:118-142 | `TestEnum::Struct` is the test's byte vector |
| Vectors.LegacyEnumUnitRoundTrip | src/lib.rs:144-154 | `TestEnum::Unit` reads back |
| Vectors.LegacyEnumNewTypeRoundTrip | src/lib.rs:156-166 | `TestEnum::NewType(x)` reads back for every `u8` |
| Vectors.LegacyEnumTupleRoundTrip | src/lib.rs:168-180 | `TestEnum::Tuple` reads back for every `f32` and string |
| Vectors.LegacyEnumStructRoundTrip | src/lib.rs:182-197 | `TestEnum::Struct` reads back for every `f64` and `u16` vector |
| Findings.UnsizedSeqRejected | src/any/ser.rs:372-389 | a tagged sequence of unknown length cannot be read back: the reader sees a `None` tag where it expects `Seq` |
| Findings.UnsizedMapRejected | src/any/ser.rs:372-389 | the same for a map |
| Findings.IntendedUnsizedFinish | src/any/ser.rs:372-389 | the intended `finish` starts with the `Seq` or `Map` tag and is 9 bytes longer than the buffer |
| Findings.IntendedUnsizedSeqRoundTrip | src/any/de.rs:328-338 | with the intended `finish`, an unknown-length sequence reads back |
| Findings.IntendedUnsizedMapRoundTrip | src/any/de.rs:377-387 | with the intended `finish`, an unknown-length map reads back |
| Findings.LegacyUnsizedMapMisread | src/ser.rs:315-354 | a one-entry map of unknown length is written with count 2 and then fails to read back |
| Findings.LegacyIntendedUnsizedFinish | src/ser.rs:338-354 | the intended `finish` writes an 8-byte count before the buffer |
| Findings.LegacyIntendedUnsizedMapRoundTrip | src/de.rs:287-293 | with one count per entry, an unknown-length map reads back |
| Findings.DisplayStrRejected | src/ser.rs:264-276 | the legacy `collect_str` output does not read back as a string: the length `u64::MAX` exceeds the input |
| Findings.IntendedParseStr | src/de.rs:48-52 | the intended reader consumes input when it succeeds |
| Findings.IntendedDisplayRoundTrip | src/de.rs:48-52 | the intended reader reads back the `collect_str` output as the `Display` text |
| Findings.IntendedParseStrAgrees | src/de.rs:48-52 | on every input without the `u64::MAX` length, the intended reader agrees with the crate's |

## Left out

- Host I/O: the `io::Write` sink and the `std`/`alloc`/no-alloc feature
  variants. The model has a growable vector and `BuffWriter`, with the
  crate configured with `alloc`, unsized sequences enabled, 128-bit integers
  and a 64-bit `usize`. The one configuration-dependent function modelled
  is `try_from` without 128-bit integers (`Tags.FromByteNoInteger128`).
- The serializer composed over `BuffWriter` (`to_buff`) is modelled only
  for the one-`u8` case in `Write.U8IntoBufferAsWritten` and
  `Write.U8IntoBufferCorrected`. `DummyWriter`, `get_serialized_size` and
  the `to_bytes` and `to_writer` wrappers are thin wrappers; they are not
  modelled separately.
- Floats are modelled by their bit patterns (`to_be_bytes` and
  `from_be_bytes`), not as IEEE values.
- `serde` itself (the `Serialize`/`Deserialize` traits, derives, visitors
  and seeds) is replaced by the closed types `Data` and `Shape`. Derived
  checks for missing or duplicate struct fields and the untagged-enum retry
  through `Content` are not modelled. Named struct fields are read by
  position, as the tagged format stores no names.
- The definition of `UNSIZED_STRING_END_MARKER` is not part of this
  model. The model takes `[0xFF, 0xFF]`, and the proofs use only the fact
  that its bytes never occur in UTF-8.
- The `Unsized*` tags have no byte (`try_from` maps no byte to them), so
  the decoder branches that accept them are unreachable and not modelled.
- `Display` formatting is a parameter: `collect_str` receives the pieces
  that `Display` would pass to `write_str`.
- The tagged `deserialize_ignored_any` calls `deserialize_any`; it is not
  modelled as a separate member.
- `Values.Visit*` (the `ValueVisitor` methods) are plain constructors with
  no contract of their own; `AnyValueRoundTrip` states what a read through
  them gives.
- `usize::try_from(u64)` always succeeds on the 64-bit target modelled, so
  its error branch is not modelled.
- LegacyRoundTrip.DecodeEncode: stated only for values that the legacy
  reader can read back (`Readable`): `collect_str` strings and maps of
  unknown length are excluded, because the crate cannot read them back
  (see Findings).
- AnyRoundTrip.DecodeEncode: stated only for values the tagged format can
  carry (`Sized`): tuples, tuple structs and structs of fewer than 256
  components, whose count is one byte, and sequences and maps of known
  length, because the unknown-length encoding does not read back (see
  Findings). Every value is also `WellFormed`: integers in range, and
  collections no longer than a Rust slice can be.
- AnyValueRoundTrip.DecodeAnyEncode: stated only for values with no enum
  variant, because `visit_enum` is `todo!()` (`VariantAborts` states that
  case).
- AnyDe.Decode: states the errors of a bad or missing first tag, and that
  a success consumes input; the per-type errors are stated on the typed
  readers it dispatches to (`DecodeBool`, `DecodeCounted`, …), and what a
  success reads is stated by the round-trip lemmas named in their rows.
- LegacyDe.Decode: only dispatches on the requested shape and states that
  a success never grows the input; the errors and results of each type are
  stated on the readers it dispatches to (`DecodeFloat32`, `DecodeStr`,
  `DecodeOption`, `DecodeSeq`, `DecodeEnum`, …).
- Write.VecSink.WriteByte: the `write_byte` of the `Write` trait
  (src/write.rs:17) returns `()`, but the serializer's `write_byte`
  (src/any/ser.rs:36-38) returns a `usize` count from it. The model makes
  the sink return 1, the number of bytes pushed, so that the serializer's
  running total equals the length of what it wrote.
- AnyDe.AnyEntry: the source of `ValueMap::from_map_access` is not part
  of this model. The model assumes it reads each key and then its value
  with `Value::deserialize`, that is, with `deserialize_any`. If it used
  the `DeserializeSeed` impl of `ValueVisitor` instead, keys would go
  through `deserialize_identifier`, which accepts only variant tags and
  `String`, and `AnyValueRoundTrip.AnyMapOf` and `DecodeAnyEncode` would
  not hold for maps with other keys.

## Findings

| source | as written | input that shows it | evidently intended | confidence | as-written member | corrected member |
|---|---|---|---|---|---|---|
| src/write.rs:82-89 | `BuffWriter::write_bytes` copies the bytes at `head` but never advances `head`, so the next write overwrites them | `to_buff(&5u8, &mut [0; 2])` writes tag 8 and then 5 at position 0: the buffer holds `[5, 0]` | advance `head` by the length, as `write_byte` does, giving `[8, 5]` | high; not executed | Write.U8IntoBufferAsWritten | Write.U8IntoBufferCorrected |
| src/any/ser.rs:372-389 | the unknown-length `finish` writes the count and the elements but no `Seq` or `Map` tag | a `Vec` serialized through an iterator of unknown length: the reader sees the count's leading 0 byte as a `None` tag and rejects it | write the `Seq` or `Map` tag before the count | high; not executed | Findings.UnsizedSeqRejected | Findings.IntendedUnsizedSeqRoundTrip |
| src/ser.rs:315-354 | an unknown-length map counts keys and values separately, so the count is twice the number of entries, while the reader reads one key and one value per count | the map `{true: false}` of unknown length is written `[0,0,0,0,0,0,0,2,1,0]` and reading it back runs out of input | count one per entry | high; not executed | Findings.LegacyUnsizedMapMisread | Findings.LegacyIntendedUnsizedMapRoundTrip |
| src/ser.rs:264-276 | the legacy `collect_str` writes the length `u64::MAX` and ends the text with one 0xFF byte, but the legacy `parse_str` reads that length as an exact byte count | any `Display` value, such as the string `"a"` through `collect_str`: reading it back asks for 2^64 - 1 bytes and fails with `Eof` | a reader that treats `u64::MAX` as "text up to the 0xFF byte" | medium; not executed | Findings.DisplayStrRejected | Findings.IntendedDisplayRoundTrip |
