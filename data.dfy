/** The serde data model as a closed datatype. A `Data` value stands for the
    sequence of `Serializer` calls a `Serialize` implementation makes; a
    `Shape` stands for the `Deserialize` implementation that asks the
    decoder for a value (which `deserialize_*` it calls, with which lengths
    and which variants). */
module DataModel {
  import opened Bytes

  /** The integer types of the serde data model. */
  datatype IntType = I8 | I16 | I32 | I64 | I128 | U8 | U16 | U32 | U64 | U128
  {
    /** Width in bytes of `to_be_bytes`. */
    function Size(): (n: nat)
      ensures 1 <= n <= 16
    {
      match this
      case I8 => 1
      case U8 => 1
      case I16 => 2
      case U16 => 2
      case I32 => 4
      case U32 => 4
      case I64 => 8
      case U64 => 8
      case I128 => 16
      case U128 => 16
    }

    predicate Signed()
    {
      I8? || I16? || I32? || I64? || I128?
    }

    /** The name the decoders use in `UnexpectedTag` for this type. */
    function Label(): string
    {
      match this
      case I8 => "i8"
      case I16 => "i16"
      case I32 => "i32"
      case I64 => "i64"
      case I128 => "i128"
      case U8 => "u8"
      case U16 => "u16"
      case U32 => "u32"
      case U64 => "u64"
      case U128 => "u128"
    }
  }

  /** One value of the data model. Floats are their raw IEEE bits; variants
      carry their `variant_index`; names of structs, fields and variants are
      never written by either encoder and are not part of the value. */
  datatype Data =
    | Bool(b: bool)
    | Int(ty: IntType, x: int)
    | Float32(bits32: nat)
    | Float64(bits64: nat)
    | Char(c: char)
    | Str(s: string)
    | ByteArray(bytes: seq<u8>)
    | NoneValue
    | SomeValue(inner: Data)
    | Unit
    | UnitStruct
    | UnitVariant(index: nat)
    | NewtypeStruct(inner: Data)
    | NewtypeVariant(index: nat, inner: Data)
    | Tuple(elems: seq<Data>)
    | TupleStruct(elems: seq<Data>)
    | TupleVariant(index: nat, elems: seq<Data>)
    /** `serialize_seq(len)`: `known` is whether `len` was `Some`. */
    | Seq(known: bool, elems: seq<Data>)
    /** `serialize_map(len)`: `known` is whether `len` was `Some`. */
    | Map(known: bool, entries: seq<Entry>)
    | Struct(fields: seq<Data>)
    | StructVariant(index: nat, fields: seq<Data>)
    /** `collect_str` of a value whose `Display` implementation hands the
        formatter the string pieces `pieces`, in order. */
    | DisplayStr(pieces: seq<string>)

  datatype Entry = Entry(key: Data, value: Data)

  /** Bound on the length of a Rust slice or `Vec` (`isize::MAX + 1`). */
  const MaxLen: nat := Half(8)

  /** Bound on a `variant_index: u32`. */
  const MaxIndex: nat := Pow256(4)

  /** A value a Rust program can hand to the serializer: integers in range
      of their type, floats of their width, `u32` variant indices and
      collections no longer than a slice can be. */
  predicate WellFormed(v: Data)
  {
    match v
    case Int(t, x) => InRange(x, t.Size(), t.Signed())
    case Float32(bits) => bits < Pow256(4)
    case Float64(bits) => bits < Pow256(8)
    case Str(s) => |EncodeUtf8(s)| < MaxLen
    case ByteArray(b) => |b| < MaxLen
    case SomeValue(x) => WellFormed(x)
    case UnitVariant(i) => i < MaxIndex
    case NewtypeStruct(x) => WellFormed(x)
    case NewtypeVariant(i, x) => i < MaxIndex && WellFormed(x)
    case Tuple(es) => |es| < MaxLen && AllWellFormed(es)
    case TupleStruct(es) => |es| < MaxLen && AllWellFormed(es)
    case TupleVariant(i, es) => i < MaxIndex && |es| < MaxLen && AllWellFormed(es)
    case Seq(_, es) => |es| < MaxLen && AllWellFormed(es)
    case Map(_, ents) =>
      |ents| < MaxLen && forall j :: 0 <= j < |ents| ==> WellFormed(ents[j].key) && WellFormed(ents[j].value)
    case Struct(fs) => |fs| < MaxLen && AllWellFormed(fs)
    case StructVariant(i, fs) => i < MaxIndex && |fs| < MaxLen && AllWellFormed(fs)
    case DisplayStr(ps) => |EncodeUtf8(Joined(ps))| < MaxLen
    case _ => true
  }

  /** The text `Display` produces: its pieces joined. */
  function Joined(pieces: seq<string>): string
  {
    if pieces == [] then [] else Joined(pieces[..|pieces| - 1]) + pieces[|pieces| - 1]
  }

  predicate AllWellFormed(es: seq<Data>)
  {
    forall j :: 0 <= j < |es| ==> WellFormed(es[j])
  }

  /** The type a `Deserialize` implementation asks for. */
  datatype Shape =
    | SBool
    | SInt(ty: IntType)
    | SFloat32
    | SFloat64
    | SChar
    | SStr
    | SBytes
    | SOption(inner: Shape)
    | SUnit
    | SUnitStruct
    | SNewtypeStruct(inner: Shape)
    | STuple(elems: seq<Shape>)
    | STupleStruct(elems: seq<Shape>)
    | SSeq(elem: Shape)
    | SMap(key: Shape, value: Shape)
    | SStruct(fields: seq<Shape>)
    | SEnum(variants: seq<Variant>)

  /** A variant of an enum: its name (matched when an identifier arrives as
      a string) and the kind of payload the derived visitor asks for. */
  datatype Variant = Variant(name: string, kind: VariantKind)

  datatype VariantKind =
    | VUnit
    | VNewtype(inner: Shape)
    | VTuple(elems: seq<Shape>)
    | VStruct(fields: seq<Shape>)

  /** Whether `v` is a value of the type `s` describes, as the derived
      `Serialize` and `Deserialize` implementations of one type agree. */
  predicate Conforms(v: Data, s: Shape)
  {
    match s
    case SBool => v.Bool?
    case SInt(t) => v.Int? && v.ty == t
    case SFloat32 => v.Float32?
    case SFloat64 => v.Float64?
    case SChar => v.Char?
    case SStr => v.Str? || v.DisplayStr?
    case SBytes => v.ByteArray?
    case SOption(inner) => v.NoneValue? || (v.SomeValue? && Conforms(v.inner, inner))
    case SUnit => v.Unit?
    case SUnitStruct => v.UnitStruct?
    case SNewtypeStruct(inner) => v.NewtypeStruct? && Conforms(v.inner, inner)
    case STuple(ss) => v.Tuple? && AllConform(v.elems, ss)
    case STupleStruct(ss) => v.TupleStruct? && AllConform(v.elems, ss)
    case SSeq(e) => v.Seq? && forall j :: 0 <= j < |v.elems| ==> Conforms(v.elems[j], e)
    case SMap(k, w) =>
      v.Map? && forall j :: 0 <= j < |v.entries| ==> Conforms(v.entries[j].key, k) && Conforms(v.entries[j].value, w)
    case SStruct(fs) => v.Struct? && AllConform(v.fields, fs)
    case SEnum(vs) => ConformsVariant(v, vs)
  }

  predicate AllConform(es: seq<Data>, ss: seq<Shape>)
  {
    |es| == |ss| && forall j :: 0 <= j < |es| ==> Conforms(es[j], ss[j])
  }

  predicate ConformsVariant(v: Data, vs: seq<Variant>)
  {
    match v
    case UnitVariant(i) => i < |vs| && vs[i].kind.VUnit?
    case NewtypeVariant(i, x) => i < |vs| && vs[i].kind.VNewtype? && Conforms(x, vs[i].kind.inner)
    case TupleVariant(i, es) => i < |vs| && vs[i].kind.VTuple? && AllConform(es, vs[i].kind.elems)
    case StructVariant(i, fs) => i < |vs| && vs[i].kind.VStruct? && AllConform(fs, vs[i].kind.fields)
    case _ => false
  }
}
