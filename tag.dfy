/** The one-byte wire tags of the self-describing format (src/any/mod.rs). */
module Tags {
  import opened Bytes
  import opened Wrappers

  /** One variant per wire shape. The three `Unsized*` tags are used by the
      decoder but have no byte value: no byte converts to them and they cannot
      be converted to a byte. */
  datatype Tag =
    | None | Some | BoolFalse | BoolTrue
    | I8 | I16 | I32 | I64 | U8 | U16 | U32 | U64 | F32 | F64
    | Char1 | Char2 | Char3 | Char4
    | String | ByteArray | Unit | UnitStruct | UnitVariant
    | NewTypeStruct | NewTypeVariant | Seq | Tuple | TupleStruct | TupleVariant
    | Map | Struct | StructVariant | NullTerminatedString | I128 | U128
    | UnsizedSeq | UnsizedMap | UnsizedSeqEnd
  {
    /** Whether the tag is one of the 35 that have a byte value. */
    predicate HasByte()
    {
      !(UnsizedSeq? || UnsizedMap? || UnsizedSeqEnd?)
    }

    predicate IsVariant()
    {
      UnitVariant? || NewTypeVariant? || TupleVariant? || StructVariant?
    }
  }

  /** Number of tags that have a byte value: bytes 0..34. */
  const TagCount: nat := 35

  datatype TagParsingError =
    | Integer128
    | InvalidTag(byte: u8)
    | UnexpectedTag(expected: string, got: Tag)

  /** `From<Tag> for u8`: the discriminant of the tag. */
  function ToByte(t: Tag): (b: u8)
    requires t.HasByte()
    ensures b < TagCount
  {
    match t
    case None => 0
    case Some => 1
    case BoolFalse => 2
    case BoolTrue => 3
    case I8 => 4
    case I16 => 5
    case I32 => 6
    case I64 => 7
    case U8 => 8
    case U16 => 9
    case U32 => 10
    case U64 => 11
    case F32 => 12
    case F64 => 13
    case Char1 => 14
    case Char2 => 15
    case Char3 => 16
    case Char4 => 17
    case String => 18
    case ByteArray => 19
    case Unit => 20
    case UnitStruct => 21
    case UnitVariant => 22
    case NewTypeStruct => 23
    case NewTypeVariant => 24
    case Seq => 25
    case Tuple => 26
    case TupleStruct => 27
    case TupleVariant => 28
    case Map => 29
    case Struct => 30
    case StructVariant => 31
    case NullTerminatedString => 32
    case I128 => 33
    case U128 => 34
  }

  /** `TryFrom<u8> for Tag` with 128-bit integers supported: total, and fails
      closed with the offending byte. */
  function FromByte(b: u8): (r: Result<Tag, TagParsingError>)
    ensures r.Ok? <==> b < TagCount
    ensures r.Err? ==> r.error == InvalidTag(b)
    ensures r.Ok? ==> r.value.HasByte()
  {
    match b
    case 0 => Ok(Tag.None)
    case 1 => Ok(Tag.Some)
    case 2 => Ok(BoolFalse)
    case 3 => Ok(BoolTrue)
    case 4 => Ok(I8)
    case 5 => Ok(I16)
    case 6 => Ok(I32)
    case 7 => Ok(I64)
    case 8 => Ok(U8)
    case 9 => Ok(U16)
    case 10 => Ok(U32)
    case 11 => Ok(U64)
    case 12 => Ok(F32)
    case 13 => Ok(F64)
    case 14 => Ok(Char1)
    case 15 => Ok(Char2)
    case 16 => Ok(Char3)
    case 17 => Ok(Char4)
    case 18 => Ok(String)
    case 19 => Ok(ByteArray)
    case 20 => Ok(Unit)
    case 21 => Ok(UnitStruct)
    case 22 => Ok(UnitVariant)
    case 23 => Ok(NewTypeStruct)
    case 24 => Ok(NewTypeVariant)
    case 25 => Ok(Seq)
    case 26 => Ok(Tuple)
    case 27 => Ok(TupleStruct)
    case 28 => Ok(TupleVariant)
    case 29 => Ok(Map)
    case 30 => Ok(Struct)
    case 31 => Ok(StructVariant)
    case 32 => Ok(NullTerminatedString)
    case 33 => Ok(I128)
    case 34 => Ok(U128)
    case _ => Err(InvalidTag(b))
  }

  /** `TryFrom<u8> for Tag` in the `no_integer128` configuration: bytes 33 and
      34 are refused with `Integer128`, every other byte as in `FromByte`. */
  function FromByteNoInteger128(b: u8): (r: Result<Tag, TagParsingError>)
    ensures r.Ok? <==> b < 33
    ensures r.Ok? ==> r.value.HasByte() && ToByte(r.value) == b
    ensures 33 <= b < TagCount ==> r == Err(Integer128)
    ensures b >= TagCount ==> r == Err(InvalidTag(b))
  {
    if b == 33 || b == 34 then Err(Integer128) else FromByte(b)
  }

  /** Converting a byte to a tag and back gives the byte: bytes 0..34 and the
      35 byte-valued tags are in one-to-one correspondence. */
  lemma FromByteToByte(b: u8)
    requires b < TagCount
    ensures FromByte(b).Ok? && ToByte(FromByte(b).value) == b
  {
  }

  /** Converting a byte-valued tag to its byte and back gives the tag. */
  lemma ToByteFromByte(t: Tag)
    requires t.HasByte()
    ensures FromByte(ToByte(t)) == Ok(t)
  {
  }

  /** Two byte-valued tags with the same byte are the same tag. */
  lemma ToByteInjective(t1: Tag, t2: Tag)
    requires t1.HasByte() && t2.HasByte()
    requires ToByte(t1) == ToByte(t2)
    ensures t1 == t2
  {
    ToByteFromByte(t1);
    ToByteFromByte(t2);
  }

  /** Number of UTF-8 bytes that follow a `CharN` tag. */
  function CharLen(t: Tag): (n: nat)
    requires t.Char1? || t.Char2? || t.Char3? || t.Char4?
    ensures 1 <= n <= 4
  {
    match t
    case Char1 => 1
    case Char2 => 2
    case Char3 => 3
    case Char4 => 4
  }

  /** `Tag::encode_char`: the UTF-8 bytes of `c` and the `CharN` tag whose N
      is their number. */
  function EncodeChar(c: char): (r: (Tag, seq<u8>))
    ensures r.0.Char1? || r.0.Char2? || r.0.Char3? || r.0.Char4?
    ensures CharLen(r.0) == |r.1|
    ensures Bytes.DecodeUtf8(r.1) == Wrappers.Some([c])
  {
    var bytes := Bytes.EncodeChar(c);
    Bytes.DecodeEncodedUtf8([c]);
    assert Bytes.EncodeUtf8([c]) == bytes;
    var tag := match |bytes|
      case 1 => Char1
      case 2 => Char2
      case 3 => Char3
      case 4 => Char4;
    (tag, bytes)
  }
}
