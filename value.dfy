/** The dynamic value tree of src/any/value/mod.rs: what the schema-less
    decode (`deserialize_any` with `ValueVisitor`) builds, one constructor
    per kind of decode event. */
module Values {
  import B = Bytes
  import Wrappers
  import DataModel

  /** `MAX_PREALLOC_SIZE`. */
  const MaxPreallocSize: nat := 256

  datatype Number =
    | Int(ty: DataModel.IntType, x: int)
    | F32(bits32: nat)
    | F64(bits64: nat)

  /** `Value<'de>`. `String` and `Bytes` borrow from the input, `OwnedString`
      and `OwnedBytes` are copies; the model keeps the difference in the
      constructor only. */
  datatype Value =
    | Unit
    | Bool(b: bool)
    | Option(opt: Wrappers.Option<Value>)
    | Number(n: Number)
    | Char(c: char)
    | String(s: string)
    | OwnedString(owned: string)
    | Bytes(bytes: seq<B.u8>)
    | OwnedBytes(ownedBytes: seq<B.u8>)
    | Array(elems: seq<Value>)
    /** `ValueMap`: the entries in the order they were decoded. */
    | Map(entries: seq<ValueEntry>)
    /** `Box<EnumValue>`, which no visit method builds. */
    | Enum(variant: Value, value: Value)

  datatype ValueEntry = ValueEntry(key: Value, value: Value)

  /** `size_hint_caution`: the capacity reserved before a sequence is read,
      the announced length but never more than `MAX_PREALLOC_SIZE`. */
  function SizeHintCaution(hint: Wrappers.Option<nat>): (r: nat)
    ensures r <= MaxPreallocSize && r <= hint.UnwrapOr(0)
    ensures r == MaxPreallocSize || r == hint.UnwrapOr(0)
  {
    var h := hint.UnwrapOr(0);
    if h < MaxPreallocSize then h else MaxPreallocSize
  }

  // The `Visitor` methods of `ValueVisitor`: each decode event becomes the
  // constructor of its kind.

  function VisitBool(v: bool): Value { Bool(v) }

  /** `visit_i8` .. `visit_u128`: the `Number` of the same width. */
  function VisitInt(t: DataModel.IntType, v: int): Value { Number(Int(t, v)) }

  function VisitF32(bits: nat): Value { Number(F32(bits)) }

  function VisitF64(bits: nat): Value { Number(F64(bits)) }

  function VisitChar(c: char): Value { Char(c) }

  function VisitBorrowedStr(s: string): Value { String(s) }

  function VisitString(s: string): Value { OwnedString(s) }

  /** `visit_str`: a transient string is copied (`to_string`). */
  function VisitStr(s: string): Value { VisitString(s) }

  function VisitBorrowedBytes(b: seq<B.u8>): Value { Bytes(b) }

  function VisitByteBuf(b: seq<B.u8>): Value { OwnedBytes(b) }

  /** `visit_bytes`: transient bytes are copied (`Vec::from`). */
  function VisitBytes(b: seq<B.u8>): Value { VisitByteBuf(b) }

  function VisitNone(): Value { Option(Wrappers.None) }

  /** `visit_some`, given what `deserialize_any` produced for the content. */
  function VisitSome(inner: Value): Value { Option(Wrappers.Some(inner)) }

  function VisitUnit(): Value { Unit }

  /** `visit_newtype_struct`: transparent, the content itself. */
  function VisitNewtypeStruct(inner: Value): Value { inner }
}
