/** The Rust deserializer: what the generator emits for `from_arrow_ipc`, and what the emitted code does
    with a stream. */
module RustDeserialize {
  import opened Wrappers
  import opened Bytes
  import opened Ast
  import opened Shape
  import opened Literals
  import opened Validate
  import opened Arrow
  import opened Records
  import opened RustTypes
  import opened RustSerialize

  // The emitted program

  /** What follows `.value(i)`. */
  datatype Convert = ToOwnedString | ToVec | AsIs

  /** A default literal in Rust source; a string is kept as the text of its token. */
  datatype LiteralCode = StringCode(text: string) | IntegerCode(i: int) | FloatCode(bits: u64) | BoolCode(b: bool)

  /** The operations of a field's block, in the order they run. */
  datatype Op =
    | CheckDtype(field: string, dtype: string)
    | CheckRank(field: string, rank: nat)
    | CheckDim(field: string, index: nat, size: nat)
    | MatchColumn(field: string, default: Option<LiteralCode>, arr: ArrayType)
    | CheckType(field: string, expected: DataType)
    | LoadColumn(field: string)
    | NullMeansNone
    | AsArray(arr: ArrayType)
    | AsList
    | AsMap
    | RowZero
    | KeysAs(arr: ArrayType)
    | ValuesAs(arr: ArrayType)
    | ValueZero(convert: Convert)
    | Collect(convert: Convert)
    | CollectOptions(convert: Convert)
    | WrapSome
    | CollectMap(keyConvert: Convert, valueConvert: Convert)

  /** Guards compare metadata with literals; each `let` binds a field; the last expression lists the
      fields of the struct. */
  datatype Body = Body(guards: seq<(string, string)>, lets: seq<(string, seq<Op>)>, result: seq<string>)

  // The generator

  function PrimitiveConvert(ty: LaicType): Convert {
    if ty.StringT? then ToOwnedString else AsIs
  }

  /** `list_inner_value_expr` and `map_value_expr` */
  function InnerConvert(ty: LaicType): Convert {
    match ty
    case StringT => ToOwnedString
    case BytesT => ToVec
    case _ => AsIs
  }

  function LiteralToRust(lit: Literal): LiteralCode {
    match lit
    case StringLit(s) => StringCode(Quoted(s, Rust))
    case IntegerLit(i) => IntegerCode(i)
    case FloatLit(bits) => FloatCode(bits)
    case BoolLit(b) => BoolCode(b)
  }

  function DefaultCode(default: Option<Literal>): Option<LiteralCode> {
    match default case None => None case Some(lit) => Some(LiteralToRust(lit))
  }

  /** One check per fixed dimension, from the given index on. */
  function DimChecks(field: string, dims: seq<Dimension>, from: nat): seq<Op>
    requires from <= |dims|
    decreases |dims| - from
  {
    if from == |dims| then []
    else (if dims[from].Fixed? then [CheckDim(field, from, dims[from].size)] else []) + DimChecks(field, dims, from + 1)
  }

  function TensorChecks(field: string, dtype: TensorElementType, dims: seq<Dimension>): seq<Op> {
    [CheckDtype(field, DtypeName(dtype)), CheckRank(field, |dims|)] + DimChecks(field, dims, 0)
  }

  function ScalarBlock(f: FieldDef): Option<seq<Op>> {
    if f.ty.BytesT? then
      Some([MatchColumn(f.name, DefaultCode(f.default), BinaryArray), CheckType(f.name, ArrowDatatype(f.ty)),
            AsArray(BinaryArray), ValueZero(ToVec)])
    else
      var arr :- ArrowArrayType(f.ty);
      Some([MatchColumn(f.name, DefaultCode(f.default), arr), CheckType(f.name, ArrowDatatype(f.ty)),
            AsArray(arr), ValueZero(PrimitiveConvert(f.ty))])
  }

  function ListTail(field: string, item: LaicType): Option<seq<Op>> {
    match item
    case StringT => Some([AsArray(StringArray), Collect(ToOwnedString)])
    case BytesT => Some([AsArray(BinaryArray), Collect(ToVec)])
    case BoolT => Some([AsArray(BooleanArray), Collect(AsIs)])
    case Optional(inner) =>
      var arr :- ArrowArrayType(inner);
      Some([AsArray(arr), CollectOptions(InnerConvert(inner))])
    case Tensor(dtype, dims) => Some(TensorChecks(field, dtype, dims) + [AsArray(BinaryArray), Collect(ToVec)])
    case _ =>
      var arr :- ArrowArrayType(item);
      Some([AsArray(arr), Collect(InnerConvert(item))])
  }

  function ListBlock(field: string, item: LaicType): Option<seq<Op>> {
    var tail :- ListTail(field, item);
    Some([LoadColumn(field), AsList, RowZero] + tail)
  }

  function OptionalTail(inner: LaicType): Option<seq<Op>> {
    match inner
    case StringT => Some([AsArray(StringArray), ValueZero(ToOwnedString), WrapSome])
    case BytesT => Some([AsArray(BinaryArray), ValueZero(ToVec), WrapSome])
    case BoolT => Some([AsArray(BooleanArray), ValueZero(AsIs), WrapSome])
    case Tensor(_, _) => Some([AsArray(BinaryArray), ValueZero(ToVec), WrapSome])
    case List(item) =>
      var arr :- ArrowArrayType(item);
      Some([AsList, RowZero, AsArray(arr), Collect(InnerConvert(item)), WrapSome])
    case _ =>
      var arr :- ArrowArrayType(inner);
      Some([AsArray(arr), ValueZero(PrimitiveConvert(inner)), WrapSome])
  }

  function OptionalBlock(field: string, inner: LaicType): Option<seq<Op>> {
    var tail :- OptionalTail(inner);
    var checks := if inner.Tensor? then TensorChecks(field, inner.dtype, inner.dims) else [];
    Some([LoadColumn(field)] + checks + [NullMeansNone] + tail)
  }

  function MapBlock(field: string, key: LaicType, value: LaicType): Option<seq<Op>> {
    var keys :- ArrowArrayType(key);
    var values :- ArrowArrayType(value);
    Some([LoadColumn(field), AsMap, RowZero]
         + [KeysAs(keys), ValuesAs(values), CollectMap(InnerConvert(key), InnerConvert(value))])
  }

  function TensorBlock(field: string, dtype: TensorElementType, dims: seq<Dimension>): seq<Op> {
    TensorChecks(field, dtype, dims) + [LoadColumn(field), AsArray(BinaryArray), ValueZero(ToVec)]
  }

  function FieldBlock(f: FieldDef): Option<seq<Op>> {
    match f.ty
    case Tensor(dtype, dims) => Some(TensorBlock(f.name, dtype, dims))
    case List(item) => ListBlock(f.name, item)
    case Optional(inner) => OptionalBlock(f.name, inner)
    case Map(key, value) => MapBlock(f.name, key, value)
    case _ => ScalarBlock(f)
  }

  /** The deserializer generator never panics on a supported type. */
  lemma DeserializerNeverPanics(f: FieldDef)
    requires Supported(f.ty)
    ensures FieldBlock(f).Some?
  {
    match f.ty {
      case List(item) =>
        TablesAgree(item);
        if item.Optional? {
          TablesAgree(item.inner);
        }
      case Optional(inner) =>
        TablesAgree(inner);
        if inner.List? {
          TablesAgree(inner.item);
        }
      case Map(key, value) =>
        TablesAgree(key);
        TablesAgree(value);
      case _ =>
        TablesAgree(f.ty);
    }
  }

  method EmitTensorMetadataValidation(field: string, dtype: TensorElementType, dims: seq<Dimension>, out: Output<Op>)
    modifies out
    ensures out.code == old(out.code) + TensorChecks(field, dtype, dims)
  {
    out.Push(CheckDtype(field, DtypeName(dtype)));
    out.Push(CheckRank(field, |dims|));
    ghost var start := out.code;
    for i := 0 to |dims|
      invariant out.code + DimChecks(field, dims, i) == start + DimChecks(field, dims, 0)
    {
      if dims[i].Fixed? {
        out.Push(CheckDim(field, i, dims[i].size));
      }
    }
    assert DimChecks(field, dims, |dims|) == [];
    assert out.code == start + DimChecks(field, dims, 0);
  }

  method EmitFieldExtraction(f: FieldDef, out: Output<Op>) returns (ok: bool)
    modifies out
    ensures ok <==> FieldBlock(f).Some?
    ensures ok ==> out.code == old(out.code) + FieldBlock(f).value
  {
    ghost var before := out.code;
    match f.ty {
      case Tensor(dtype, dims) =>
        EmitTensorMetadataValidation(f.name, dtype, dims, out);
        EmitAll([LoadColumn(f.name), AsArray(BinaryArray), ValueZero(ToVec)], out);
        ok := true;
      case List(item) =>
        EmitAll([LoadColumn(f.name), AsList, RowZero], out);
        if item.Tensor? {
          EmitTensorMetadataValidation(f.name, item.dtype, item.dims, out);
          EmitAll([AsArray(BinaryArray), Collect(ToVec)], out);
          ok := true;
        } else {
          var tail := ListTail(f.name, item);
          ok := tail.Some?;
          if ok {
            EmitAll(tail.value, out);
          }
        }
      case Optional(inner) =>
        out.Push(LoadColumn(f.name));
        if inner.Tensor? {
          EmitTensorMetadataValidation(f.name, inner.dtype, inner.dims, out);
        }
        out.Push(NullMeansNone);
        var tail := OptionalTail(inner);
        ok := tail.Some?;
        if ok {
          EmitAll(tail.value, out);
        }
      case Map(key, value) =>
        var block := MapBlock(f.name, key, value);
        ok := block.Some?;
        if ok {
          EmitAll(block.value, out);
        }
      case _ =>
        var block := ScalarBlock(f);
        ok := block.Some?;
        if ok {
          EmitAll(block.value, out);
        }
    }
  }

  method EmitAll(ops: seq<Op>, out: Output<Op>)
    modifies out
    ensures out.code == old(out.code) + ops
  {
    for i := 0 to |ops|
      invariant out.code == old(out.code) + ops[..i]
    {
      out.Push(ops[i]);
    }
  }

  predicate IsBody(body: Body, def: StructDef, contract: Contract) {
    && body.guards == [(SKILL_ID_KEY, Quoted(contract.skillId, Rust)),
                       (VERSION_KEY, Quoted(contract.version, Rust)),
                       (DIRECTION_KEY, Quoted(contract.direction, Rust))]
    && |body.lets| == |body.result| == |def.fields|
    && forall i :: 0 <= i < |def.fields| ==>
         && FieldBlock(def.fields[i]).Some?
         && body.lets[i] == (def.fields[i].name, FieldBlock(def.fields[i]).value)
         && body.result[i] == def.fields[i].name
  }

  method EmitLet(f: FieldDef) returns (r: Option<(string, seq<Op>)>)
    ensures r.Some? <==> FieldBlock(f).Some?
    ensures r.Some? ==> r.value == (f.name, FieldBlock(f).value)
  {
    var out := new Output<Op>();
    var ok := EmitFieldExtraction(f, out);
    if !ok {
      return None;
    }
    assert out.code == FieldBlock(f).value;
    return Some((f.name, out.code));
  }

  method EmitLets(fields: seq<FieldDef>) returns (lets: Option<seq<(string, seq<Op>)>>)
    ensures lets.Some? <==> forall i :: 0 <= i < |fields| ==> FieldBlock(fields[i]).Some?
    ensures lets.Some? ==> |lets.value| == |fields|
    ensures lets.Some? ==> forall i :: 0 <= i < |fields| ==>
              FieldBlock(fields[i]).Some? && lets.value[i] == (fields[i].name, FieldBlock(fields[i]).value)
  {
    var emitted: seq<(string, seq<Op>)> := [];
    for i := 0 to |fields|
      invariant |emitted| == i
      invariant forall k :: 0 <= k < i ==>
        FieldBlock(fields[k]).Some? && emitted[k] == (fields[k].name, FieldBlock(fields[k]).value)
    {
      var one := EmitLet(fields[i]);
      if one.None? {
        return None;
      }
      emitted := emitted + [one.value];
    }
    return Some(emitted);
  }

  method GenerateFromArrowIpc(def: StructDef, contract: Contract) returns (body: Option<Body>)
    ensures body.Some? <==> forall i :: 0 <= i < |def.fields| ==> FieldBlock(def.fields[i]).Some?
    ensures body.Some? ==> IsBody(body.value, def, contract)
  {
    var guards: seq<(string, string)> := [];
    var keys := [(SKILL_ID_KEY, contract.skillId), (VERSION_KEY, contract.version), (DIRECTION_KEY, contract.direction)];
    for i := 0 to |keys|
      invariant |guards| == i
      invariant forall k :: 0 <= k < i ==> guards[k] == (keys[k].0, Quoted(keys[k].1, Rust))
    {
      var escaped := EscapeStringLiteralBody(keys[i].1, Rust);
      guards := guards + [(keys[i].0, "\"" + escaped + "\"")];
    }
    var lets := EmitLets(def.fields);
    if lets.None? {
      return None;
    }
    var result := EmitArguments(def.fields);
    return Some(Body(guards, lets.value, result));
  }

  // Compiling the emitted program

  datatype RustTy =
    | RString | RBytes | RStrRef | RBytesRef
    | RPrim(ty: DataType)
    | RVec(item: RustTy) | ROption(inner: RustTy) | RHashMap(key: RustTy, value: RustTy)

  /** The declared type of a struct field. */
  function RustType(ty: LaicType): RustTy {
    match ty
    case StringT => RString
    case BytesT => RBytes
    case Tensor(_, _) => RBytes
    case List(item) => RVec(RustType(item))
    case Optional(inner) => ROption(RustType(inner))
    case Map(key, value) => RHashMap(RustType(key), RustType(value))
    case _ => RPrim(LeafType(ty))
  }

  /** The type of `.value(i)` with its conversion: without one, strings and bytes are borrowed. */
  function ValueType(arr: ArrayType, convert: Convert): Option<RustTy> {
    match (arr, convert)
    case (StringArray, AsIs) => Some(RStrRef)
    case (StringArray, ToOwnedString) => Some(RString)
    case (StringArray, ToVec) => None
    case (BinaryArray, AsIs) => Some(RBytesRef)
    case (BinaryArray, ToVec) => Some(RBytes)
    case (BinaryArray, ToOwnedString) => None
    case (_, AsIs) => Some(RPrim(ArrayElement(arr)))
    case (_, ToOwnedString) => Some(RString)
    case (_, ToVec) => None
  }

  datatype Static =
    | SNothing | SUntyped | STyped(arr: ArrayType) | SList | SMap
    | SPairs(keysAs: Option<ArrayType>, valuesAs: Option<ArrayType>)
    | SValue(ty: RustTy)

  function TypeOp(op: Op, at: Static): Option<Static> {
    match op
    case CheckDtype(_, _) => Some(at)
    case CheckRank(_, _) => Some(at)
    case CheckDim(_, _, _) => Some(at)
    case CheckType(_, _) => Some(at)
    case MatchColumn(_, _, _) => Some(SUntyped)
    case LoadColumn(_) => Some(SUntyped)
    case NullMeansNone => if at.SUntyped? then Some(at) else None
    case AsArray(arr) => if at.SUntyped? then Some(STyped(arr)) else None
    case AsList => if at.SUntyped? then Some(SList) else None
    case AsMap => if at.SUntyped? then Some(SMap) else None
    case RowZero => if at.SList? then Some(SUntyped) else if at.SMap? then Some(SPairs(None, None)) else None
    case KeysAs(arr) => if at.SPairs? then Some(at.(keysAs := Some(arr))) else None
    case ValuesAs(arr) => if at.SPairs? then Some(at.(valuesAs := Some(arr))) else None
    case ValueZero(convert) =>
      if !at.STyped? then None
      else
        var t :- ValueType(at.arr, convert);
        Some(SValue(t))
    case Collect(convert) =>
      if !at.STyped? then None
      else
        var t :- ValueType(at.arr, convert);
        Some(SValue(RVec(t)))
    case CollectOptions(convert) =>
      if !at.STyped? then None
      else
        var t :- ValueType(at.arr, convert);
        Some(SValue(RVec(ROption(t))))
    case WrapSome => if at.SValue? then Some(SValue(ROption(at.ty))) else None
    case CollectMap(kc, vc) =>
      if !at.SPairs? || at.keysAs.None? || at.valuesAs.None? then None
      else
        var k :- ValueType(at.keysAs.value, kc);
        var v :- ValueType(at.valuesAs.value, vc);
        Some(SValue(RHashMap(k, v)))
  }

  function TypeOps(ops: seq<Op>, at: Static): Option<Static> {
    if ops == [] then Some(at)
    else
      var next :- TypeOp(ops[0], at);
      TypeOps(ops[1..], next)
  }

  /** A literal can stand where a value of the type is expected. An integer literal is never a float, a
      float literal must not overflow its type, and a string literal must be a valid token. */
  predicate LiteralHasType(code: LiteralCode, ty: RustTy) {
    match code
    case StringCode(text) => ty.RString? && LiteralCompiles(text)
    case IntegerCode(i) => ty.RPrim? && ty.ty in {Int8, Int16, Int32, Int64, UInt8} && Fits(ty.ty, Int(i))
    case FloatCode(bits) => (ty == RPrim(Float32) && FitsSingle(bits)) || (ty == RPrim(Float64) && IsFinite(bits))
    case BoolCode(_) => ty == RPrim(Boolean)
  }

  /** The block is an expression of the expected type, and so is the default of its `None` arm. */
  predicate BlockTypechecks(ops: seq<Op>, expected: RustTy) {
    && TypeOps(ops, SNothing) == Some(SValue(expected))
    && forall i :: 0 <= i < |ops| && ops[i].MatchColumn? && ops[i].default.Some? ==>
         LiteralHasType(ops[i].default.value, expected)
  }

  /** `let` takes a name for a pattern if it already means a variant or a constant, and then refuses it.
      `constants` are the constants that the glob imports bring. */
  predicate CanBeBound(name: string, constants: set<string>) {
    name != "Some" && name != "None" && name != "Ok" && name != "Err" && name !in constants
  }

  /** Every block reads the variable `batch`, which a field of that name shadows from there on. */
  predicate LetsCompile(lets: seq<(string, seq<Op>)>, types: seq<RustTy>, batchVisible: bool, constants: set<string>)
    requires |lets| == |types|
  {
    lets != [] ==>
      && batchVisible && CanBeBound(lets[0].0, constants) && BlockTypechecks(lets[0].1, types[0])
      && LetsCompile(lets[1..], types[1..], lets[0].0 != "batch", constants)
  }

  function FieldTypes(def: StructDef): (types: seq<RustTy>)
    ensures |types| == |def.fields|
    ensures forall i :: 0 <= i < |def.fields| ==> types[i] == RustType(def.fields[i].ty)
  {
    seq(|def.fields|, i requires 0 <= i < |def.fields| => RustType(def.fields[i].ty))
  }

  /** The type names an operation mentions. */
  function OpNames(op: Op): set<string> {
    match op
    case CheckRank(_, _) => {"Vec", "usize", "Result"}
    case CheckType(_, _) => {"DataType"}
    case AsArray(arr) => {ArrayName(arr)}
    case AsList => {"ListArray"}
    case AsMap => {"MapArray"}
    case KeysAs(arr) => {"StructArray", ArrayName(arr)}
    case ValuesAs(arr) => {ArrayName(arr)}
    case Collect(_) => {"Vec"}
    case CollectOptions(_) => {"Vec"}
    case CollectMap(_, _) => {"HashMap"}
    case _ => {}
  }

  function BlockNames(ops: seq<Op>): set<string> {
    if ops == [] then {} else OpNames(ops[0]) + BlockNames(ops[1..])
  }

  /** The type and crate names of the function's signature and first statements. */
  const READER_NAMES: set<string> := {"Result", "Box", "u8", "std", "arrow_ipc"}

  /** The names mean what the prelude and the imports make of them: a type that the file defines under one
      of them takes its place. */
  predicate NamesResolve(body: Body, def: StructDef, defined: set<string>) {
    && READER_NAMES !! defined
    && (forall i :: 0 <= i < |body.lets| ==> BlockNames(body.lets[i].1) !! defined)
    && forall i :: 0 <= i < |def.fields| ==> TypeNames(def.fields[i].ty) !! defined
  }

  /** The emitted function is valid Rust in the struct of the definition, in a file that defines types of
      the given names. */
  predicate Compiles(body: Body, def: StructDef, defined: set<string>, constants: set<string>)
    requires |body.lets| == |def.fields|
  {
    && NamesResolve(body, def, defined)
    && (forall i :: 0 <= i < |body.guards| ==> LiteralCompiles(body.guards[i].1))
    && LetsCompile(body.lets, FieldTypes(def), true, constants)
  }

  // Running the emitted program

  datatype DecodeError =
    | IllTyped
    | EmptyStream
    | RowCount(rows: nat)
    | TrailingBatch
    | MissingMetadata(key: string)
    | MetadataMismatch(key: string)
    | MissingField(field: string)
    | WrongType(field: string)
    | WrongDtype(field: string)
    | WrongShape(field: string)
    | WrongArray

  /** What a block has in hand. */
  datatype Focus =
    | Nothing
    | Untyped(ty: DataType, cells: seq<Cell>)
    | Typed(arr: ArrayType, cells: seq<Cell>)
    | ListRows(item: DataType, cells: seq<Cell>)
    | MapRows(key: DataType, value: DataType, cells: seq<Cell>)
    | Pairs(key: DataType, value: DataType, entries: seq<(Cell, Cell)>, keysAs: Option<ArrayType>, valuesAs: Option<ArrayType>)
    | Computed(v: Value)
    | Returned(v: Value)

  /** The type Rust sees in a default arm must be the type of the other arm. */
  function LiteralValue(code: LiteralCode, arr: ArrayType): Option<Value> {
    match code
    case StringCode(text) =>
      if !arr.StringArray? then None else (match RustLiteral(text) case None => None case Some(s) => Some(VLeaf(Str(s))))
    case IntegerCode(i) =>
      if ArrayElement(arr) in {Int8, Int16, Int32, Int64, UInt8} && Fits(ArrayElement(arr), Int(i)) then Some(VLeaf(Int(i)))
      else None
    case FloatCode(bits) =>
      if (arr.Float64Array? && IsFinite(bits)) || (arr.Float32Array? && FitsSingle(bits)) then Some(VLeaf(Flt(bits))) else None
    case BoolCode(b) => if arr.BooleanArray? then Some(VLeaf(Bool(b))) else None
  }

  /** The slot of a null holds a default value. */
  function Blank(ty: DataType): Scalar {
    match ty
    case Utf8 => Str("")
    case Binary => Bin([])
    case Boolean => Bool(false)
    case Float32 => Flt(0)
    case Float64 => Flt(0)
    case _ => Int(0)
  }

  /** `.value(i)` converted to an owned value: strings and bytes must be copied, the rest are values. */
  function OwnedValue(arr: ArrayType, cell: Cell, convert: Convert): Result<Value, DecodeError> {
    var ty := ArrayElement(arr);
    if convert != (match ty case Utf8 => ToOwnedString case Binary => ToVec case _ => AsIs) then Err(IllTyped)
    else
      match cell
      case Leaf(x) => if Fits(ty, x) then Ok(VLeaf(x)) else Err(WrongArray)
      case Null => Ok(VLeaf(Blank(ty)))
      case _ => Err(WrongArray)
  }

  function OwnedValues(arr: ArrayType, cells: seq<Cell>, convert: Convert): Result<seq<Value>, DecodeError> {
    if cells == [] then Ok([])
    else
      var before :- OwnedValues(arr, cells[..|cells| - 1], convert);
      var last :- OwnedValue(arr, cells[|cells| - 1], convert);
      Ok(before + [last])
  }

  function OwnedOptions(arr: ArrayType, cells: seq<Cell>, convert: Convert): Result<seq<Value>, DecodeError> {
    if cells == [] then Ok([])
    else
      var before :- OwnedOptions(arr, cells[..|cells| - 1], convert);
      var last :- OwnedValue(arr, cells[|cells| - 1], convert);
      Ok(before + [VOption(if cells[|cells| - 1].Null? then None else Some(last))])
  }

  /** The conversion is checked when the code is compiled, whatever the array holds. */
  predicate ConvertTypechecks(arr: ArrayType, convert: Convert) {
    convert == match ArrayElement(arr) case Utf8 => ToOwnedString case Binary => ToVec case _ => AsIs
  }

  function InsertAll(keysAs: ArrayType, kc: Convert, valuesAs: ArrayType, vc: Convert, entries: seq<(Cell, Cell)>)
    : Result<map<Scalar, Scalar>, DecodeError>
  {
    if entries == [] then Ok(map[])
    else
      var before :- InsertAll(keysAs, kc, valuesAs, vc, entries[..|entries| - 1]);
      var k :- OwnedValue(keysAs, entries[|entries| - 1].0, kc);
      var v :- OwnedValue(valuesAs, entries[|entries| - 1].1, vc);
      if k.VLeaf? && v.VLeaf? then Ok(before[k.x := v.x]) else Err(IllTyped)
  }

  function FieldMetadata(stream: Stream, field: string, key: string): Result<string, DecodeError> {
    match IndexOf(stream.schema.fields, field)
    case None => Err(MissingField(field))
    case Some(i) =>
      var metadata := stream.schema.fields[i].metadata;
      if key in metadata then Ok(metadata[key]) else Err(MissingMetadata(key))
  }

  function FieldShape(stream: Stream, field: string): Result<seq<nat>, DecodeError> {
    var raw :- FieldMetadata(stream, field, SHAPE_KEY);
    match RustShape(raw) case None => Err(WrongShape(field)) case Some(sizes) => Ok(sizes)
  }

  function Check(ok: bool, e: DecodeError): Result<Unit, DecodeError> {
    if ok then Ok(Unit) else Err(e)
  }

  /** Runs one operation on the only batch of a one-row stream. */
  function RunOp(op: Op, stream: Stream, at: Focus): Result<Focus, DecodeError>
    requires OneRow(stream)
  {
    if at.Returned? then Ok(at)
    else
      match op
      case CheckDtype(field, dtype) =>
        var actual :- FieldMetadata(stream, field, DTYPE_KEY);
        var _ :- Check(actual == dtype, WrongDtype(field));
        Ok(at)
      case CheckRank(field, rank) =>
        var sizes :- FieldShape(stream, field);
        var _ :- Check(|sizes| == rank, WrongShape(field));
        Ok(at)
      case CheckDim(field, index, size) =>
        var sizes :- FieldShape(stream, field);
        var _ :- Check(index < |sizes| && sizes[index] == size, WrongShape(field));
        Ok(at)
      case MatchColumn(field, default, arr) =>
        if default.Some? && LiteralValue(default.value, arr).None? then Err(IllTyped)
        else
          (match ColumnNamed(stream, field)
           case Some(column) => Ok(Untyped(column.ty, column.cells))
           case None =>
             if default.Some? then Ok(Returned(LiteralValue(default.value, arr).value)) else Err(MissingField(field)))
      case CheckType(field, expected) =>
        (match IndexOf(stream.schema.fields, field)
         case None => Err(MissingField(field))
         case Some(i) =>
           var _ :- Check(stream.schema.fields[i].ty == expected, WrongType(field));
           Ok(at))
      case LoadColumn(field) =>
        (match ColumnNamed(stream, field)
         case None => Err(MissingField(field))
         case Some(column) => Ok(Untyped(column.ty, column.cells)))
      case NullMeansNone =>
        if !at.Untyped? || at.cells == [] then Err(IllTyped)
        else if at.cells[0].Null? then Ok(Returned(VOption(None)))
        else Ok(at)
      case AsArray(arr) =>
        if !at.Untyped? then Err(IllTyped)
        else if at.ty == ArrayElement(arr) then Ok(Typed(arr, at.cells))
        else Err(WrongArray)
      case AsList =>
        if !at.Untyped? then Err(IllTyped)
        else if at.ty.ListOf? then Ok(ListRows(at.ty.item, at.cells))
        else Err(WrongArray)
      case AsMap =>
        if !at.Untyped? then Err(IllTyped)
        else if at.ty.MapOf? then Ok(MapRows(at.ty.key, at.ty.value, at.cells))
        else Err(WrongArray)
      case RowZero =>
        if at.ListRows? && at.cells != [] then
          (match at.cells[0]
           case Items(items) => Ok(Untyped(at.item, items))
           case Null => Ok(Untyped(at.item, []))
           case _ => Err(WrongArray))
        else if at.MapRows? && at.cells != [] then
          (match at.cells[0]
           case Entries(entries) => Ok(Pairs(at.key, at.value, entries, None, None))
           case Null => Ok(Pairs(at.key, at.value, [], None, None))
           case _ => Err(WrongArray))
        else Err(IllTyped)
      case KeysAs(arr) =>
        if !at.Pairs? then Err(IllTyped)
        else if at.key == ArrayElement(arr) then Ok(at.(keysAs := Some(arr)))
        else Err(WrongArray)
      case ValuesAs(arr) =>
        if !at.Pairs? then Err(IllTyped)
        else if at.value == ArrayElement(arr) then Ok(at.(valuesAs := Some(arr)))
        else Err(WrongArray)
      case ValueZero(convert) =>
        if !at.Typed? || at.cells == [] then Err(IllTyped)
        else
          var v :- OwnedValue(at.arr, at.cells[0], convert);
          Ok(Computed(v))
      case Collect(convert) =>
        if !at.Typed? || !ConvertTypechecks(at.arr, convert) then Err(IllTyped)
        else
          var items :- OwnedValues(at.arr, at.cells, convert);
          Ok(Computed(VList(items)))
      case CollectOptions(convert) =>
        if !at.Typed? || !ConvertTypechecks(at.arr, convert) then Err(IllTyped)
        else
          var items :- OwnedOptions(at.arr, at.cells, convert);
          Ok(Computed(VList(items)))
      case WrapSome => if at.Computed? then Ok(Computed(VOption(Some(at.v)))) else Err(IllTyped)
      case CollectMap(kc, vc) =>
        if !at.Pairs? || at.keysAs.None? || at.valuesAs.None?
           || !ConvertTypechecks(at.keysAs.value, kc) || !ConvertTypechecks(at.valuesAs.value, vc) then Err(IllTyped)
        else
          var m :- InsertAll(at.keysAs.value, kc, at.valuesAs.value, vc, at.entries);
          Ok(Computed(VMap(m)))
  }

  function RunOps(ops: seq<Op>, stream: Stream, at: Focus): Result<Focus, DecodeError>
    requires OneRow(stream)
  {
    if ops == [] then Ok(at)
    else
      var next :- RunOp(ops[0], stream, at);
      RunOps(ops[1..], stream, next)
  }

  function BlockValue(ops: seq<Op>, stream: Stream): Result<Value, DecodeError>
    requires OneRow(stream)
  {
    match RunOps(ops, stream, Nothing)
    case Err(e) => Err(e)
    case Ok(Computed(v)) => Ok(v)
    case Ok(Returned(v)) => Ok(v)
    case Ok(_) => Err(IllTyped)
  }

  /** Binds the fields one after the other. */
  function RunLets(lets: seq<(string, seq<Op>)>, stream: Stream, scope: Record): Result<Record, DecodeError>
    requires OneRow(stream)
  {
    if lets == [] then Ok(scope)
    else
      var v :- BlockValue(lets[0].1, stream);
      RunLets(lets[1..], stream, scope[lets[0].0 := v])
  }

  function RunGuards(guards: seq<(string, string)>, metadata: map<string, string>): Result<Unit, DecodeError> {
    if guards == [] then Ok(Unit)
    else
      var (key, text) := guards[0];
      match RustLiteral(text)
      case None => Err(IllTyped)
      case Some(expected) =>
        if key !in metadata then Err(MissingMetadata(key))
        else if metadata[key] != expected then Err(MetadataMismatch(key))
        else RunGuards(guards[1..], metadata)
  }

  /** The struct expression reads each field's variable. */
  function BuildSelf(result: seq<string>, scope: Record): Result<Record, DecodeError> {
    if forall i :: 0 <= i < |result| ==> result[i] in scope then Ok(map n | n in result :: scope[n]) else Err(IllTyped)
  }

  /** `from_arrow_ipc` on a stream. */
  function RunBody(body: Body, stream: Stream): Result<Record, DecodeError> {
    if stream.batches == [] then Err(EmptyStream)
    else if stream.batches[0].rows != 1 then Err(RowCount(stream.batches[0].rows))
    else if |stream.batches| > 1 then Err(TrailingBatch)
    else if !OneRow(stream) then Err(WrongArray)
    else
      var _ :- RunGuards(body.guards, stream.schema.metadata);
      var scope :- RunLets(body.lets, stream, map[]);
      BuildSelf(body.result, scope)
  }
}
