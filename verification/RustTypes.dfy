/** The Rust generator's type tables. The partial ones return `None` where the source panics. */
module RustTypes {
  import opened Wrappers
  import opened Ast
  import opened Validate
  import opened Arrow
  import opened Records

  datatype ArrayType =
    | StringArray | BinaryArray | BooleanArray
    | Int8Array | Int16Array | Int32Array | Int64Array | UInt8Array | Float32Array | Float64Array

  datatype BuilderType =
    | StringBuilder | BinaryBuilder | BooleanBuilder
    | Int8Builder | Int16Builder | Int32Builder | Int64Builder | UInt8Builder | Float32Builder | Float64Builder

  function ArrowDatatype(ty: LaicType): DataType {
    match ty
    case List(item) => ListOf(ArrowDatatype(item), true)
    case Optional(inner) => ArrowDatatype(inner)
    case Map(key, value) => MapOf("keys", ArrowDatatype(key), "values", ArrowDatatype(value), true)
    case _ => LeafType(ty)
  }

  function ArrowArrayType(ty: LaicType): Option<ArrayType> {
    match ty
    case StringT => Some(StringArray)
    case BytesT => Some(BinaryArray)
    case Tensor(_, _) => Some(BinaryArray)
    case BoolT => Some(BooleanArray)
    case I8 => Some(Int8Array)
    case I16 => Some(Int16Array)
    case I32 => Some(Int32Array)
    case I64 => Some(Int64Array)
    case U8 => Some(UInt8Array)
    case F32 => Some(Float32Array)
    case F64 => Some(Float64Array)
    case _ => None
  }

  function ArrowBuilderType(ty: LaicType): Option<BuilderType> {
    match ty
    case StringT => Some(StringBuilder)
    case BytesT => Some(BinaryBuilder)
    case Tensor(_, _) => Some(BinaryBuilder)
    case BoolT => Some(BooleanBuilder)
    case I8 => Some(Int8Builder)
    case I16 => Some(Int16Builder)
    case I32 => Some(Int32Builder)
    case I64 => Some(Int64Builder)
    case U8 => Some(UInt8Builder)
    case F32 => Some(Float32Builder)
    case F64 => Some(Float64Builder)
    case _ => None
  }

  /** Strings, bytes and tensors are appended by reference; the rest are copied out of the iterator. */
  predicate NeedsDeref(ty: LaicType) {
    !(ty.StringT? || ty.BytesT? || ty.Tensor?)
  }

  // What the Arrow crates make of these names

  function ArrayElement(a: ArrayType): DataType {
    match a
    case StringArray => Utf8
    case BinaryArray => Binary
    case BooleanArray => Boolean
    case Int8Array => Int8
    case Int16Array => Int16
    case Int32Array => Int32
    case Int64Array => Int64
    case UInt8Array => UInt8
    case Float32Array => Float32
    case Float64Array => Float64
  }

  function BuilderElement(b: BuilderType): DataType {
    match b
    case StringBuilder => Utf8
    case BinaryBuilder => Binary
    case BooleanBuilder => Boolean
    case Int8Builder => Int8
    case Int16Builder => Int16
    case Int32Builder => Int32
    case Int64Builder => Int64
    case UInt8Builder => UInt8
    case Float32Builder => Float32
    case Float64Builder => Float64
  }

  // The same names as text, where the file's own type names could take them

  function ArrayName(a: ArrayType): string {
    match a
    case StringArray => "StringArray"
    case BinaryArray => "BinaryArray"
    case BooleanArray => "BooleanArray"
    case Int8Array => "Int8Array"
    case Int16Array => "Int16Array"
    case Int32Array => "Int32Array"
    case Int64Array => "Int64Array"
    case UInt8Array => "UInt8Array"
    case Float32Array => "Float32Array"
    case Float64Array => "Float64Array"
  }

  function BuilderName(b: BuilderType): string {
    match b
    case StringBuilder => "StringBuilder"
    case BinaryBuilder => "BinaryBuilder"
    case BooleanBuilder => "BooleanBuilder"
    case Int8Builder => "Int8Builder"
    case Int16Builder => "Int16Builder"
    case Int32Builder => "Int32Builder"
    case Int64Builder => "Int64Builder"
    case UInt8Builder => "UInt8Builder"
    case Float32Builder => "Float32Builder"
    case Float64Builder => "Float64Builder"
  }

  function LeafArray(ty: LaicType): set<string> {
    match ArrowArrayType(ty) case Some(arr) => {ArrayName(arr)} case None => {}
  }

  function LeafBuilder(ty: LaicType): set<string> {
    match ArrowBuilderType(ty) case Some(builder) => {BuilderName(builder)} case None => {}
  }

  /** The type names in `rust_type`. */
  function TypeNames(ty: LaicType): set<string> {
    match ty
    case StringT => {"String"}
    case BytesT => {"Vec", "u8"}
    case Tensor(_, _) => {"Vec", "u8"}
    case BoolT => {"bool"}
    case I8 => {"i8"}
    case I16 => {"i16"}
    case I32 => {"i32"}
    case I64 => {"i64"}
    case U8 => {"u8"}
    case F32 => {"f32"}
    case F64 => {"f64"}
    case List(item) => {"Vec"} + TypeNames(item)
    case Optional(inner) => {"Option"} + TypeNames(inner)
    case Map(key, value) => {"HashMap"} + TypeNames(key) + TypeNames(value)
  }

  /** The tables are defined exactly on leaves and agree with each other there. */
  lemma TablesAgree(ty: LaicType)
    ensures ArrowArrayType(ty).Some? <==> IsLeaf(ty)
    ensures ArrowBuilderType(ty).Some? <==> IsLeaf(ty)
    ensures IsLeaf(ty) ==>
              && ArrayElement(ArrowArrayType(ty).value) == LeafType(ty)
              && BuilderElement(ArrowBuilderType(ty).value) == LeafType(ty)
              && ArrowDatatype(ty) == LeafType(ty)
              && (NeedsDeref(ty) <==> LeafType(ty) != Utf8 && LeafType(ty) != Binary)
  {
  }

  lemma {:induction false} DatatypeMatches(ty: LaicType)
    ensures TypeMatches(ty, ArrowDatatype(ty))
  {
    match ty {
      case List(item) => DatatypeMatches(item);
      case Optional(inner) => DatatypeMatches(inner);
      case Map(key, value) =>
        DatatypeMatches(key);
        DatatypeMatches(value);
      case _ =>
    }
  }
}
