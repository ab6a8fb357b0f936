/** The abstract syntax of the interface language. */
module Ast {
  import opened Wrappers
  import opened Bytes

  datatype TensorElementType = EF32 | EF64 | EI8 | EI16 | EI32 | EI64 | EU8 | EBool

  datatype Dimension = Fixed(size: u64) | Dynamic(name: Option<string>)

  datatype LaicType =
    | StringT | BytesT | BoolT
    | I8 | I16 | I32 | I64 | U8 | F32 | F64
    | Tensor(dtype: TensorElementType, dims: seq<Dimension>)
    | List(item: LaicType)
    | Optional(inner: LaicType)
    | Map(key: LaicType, value: LaicType)

  type i64 = n: int | -0x8000_0000_0000_0000 <= n < 0x8000_0000_0000_0000

  /** Float literals are kept by their IEEE 754 bit pattern; nothing here computes with them. */
  datatype Literal = StringLit(s: string) | IntegerLit(i: i64) | FloatLit(bits: u64) | BoolLit(b: bool)

  datatype FieldDef = FieldDef(name: string, ty: LaicType, default: Option<Literal>)
  datatype StructDef = StructDef(name: string, fields: seq<FieldDef>)
  datatype ErrorVariant = ErrorVariant(name: string, code: u16)
  datatype SkillDef = SkillDef(name: string, id: string, input: StructDef, output: StructDef, errors: seq<ErrorVariant>)
  datatype LaicFile = LaicFile(version: string, skills: seq<SkillDef>)

  function DtypeName(t: TensorElementType): string {
    match t
    case EF32 => "f32"
    case EF64 => "f64"
    case EI8 => "i8"
    case EI16 => "i16"
    case EI32 => "i32"
    case EI64 => "i64"
    case EU8 => "u8"
    case EBool => "bool"
  }
}
