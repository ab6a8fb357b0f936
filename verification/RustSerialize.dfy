/** The Rust serializer: what the generator emits for `to_arrow_ipc`, and what the emitted code builds. */
module RustSerialize {
  import opened Wrappers
  import opened Ast
  import opened Literals
  import opened Validate
  import opened Arrow
  import opened Records
  import opened RustTypes
  import opened Shape

  // The emitted program

  /** How a field of `self` enters a one-element vector. */
  datatype Access = AsStr | AsSlice | AsDeref | ByValue

  /** `append_value(x)` or `append_value(*x)` */
  datatype Append = ByRef | ByDeref

  datatype Step =
    | FromVec(arr: ArrayType, access: Access)
    | NewList(builder: BuilderType)
    | AppendItems(append: Append)
    | AppendOptions(append: Append)
    | AppendOptionalRow(append: Append)
    | AppendRow
    | NewMap(keys: BuilderType, values: BuilderType)
    | AppendEntries(keyAppend: Append, valueAppend: Append)
    | Finish

  /** Metadata values are the source text of string literals. */
  datatype Program = Program(fields: seq<Field>, metadata: seq<(string, string)>, columns: seq<(string, seq<Step>)>)

  // The generator

  function SchemaField(f: FieldDef): Field {
    match TensorOf(f.ty)
    case Some((dtype, dims)) =>
      Field(f.name, if f.ty.List? then ListOf(Binary, true) else Binary, f.ty.Optional?, TensorMetadata(dtype, dims))
    case None => Field(f.name, ArrowDatatype(f.ty), f.ty.Optional?, map[])
  }

  function Deref(ty: LaicType): Append {
    if NeedsDeref(ty) then ByDeref else ByRef
  }

  /** `emit_list_column`. The builder of the item type is looked up before the item type is examined, so
      the arm for optional items is never reached; `reached` asks for the column it would emit. */
  function ListSteps(item: LaicType, reached: bool): Option<seq<Step>> {
    if item.Optional? then
      if !reached then None
      else
        var builder :- ArrowBuilderType(item.inner);
        var append := if item.inner.StringT? || item.inner.BytesT? then ByRef else Deref(item.inner);
        Some([NewList(builder), AppendOptions(append), AppendRow, Finish])
    else
      var builder :- ArrowBuilderType(item);
      Some([NewList(builder), AppendItems(Deref(item)), AppendRow, Finish])
  }

  function OptionalSteps(inner: LaicType): Option<seq<Step>> {
    match inner
    case StringT => Some([FromVec(StringArray, AsDeref)])
    case BytesT => Some([FromVec(BinaryArray, AsDeref)])
    case BoolT => Some([FromVec(BooleanArray, ByValue)])
    case Tensor(_, _) => Some([FromVec(BinaryArray, AsDeref)])
    case List(item) =>
      var builder :- ArrowBuilderType(item);
      var append := if item.StringT? || item.BytesT? then ByRef else Deref(item);
      Some([NewList(builder), AppendOptionalRow(append), Finish])
    case I8 => Some([FromVec(Int8Array, ByValue)])
    case I16 => Some([FromVec(Int16Array, ByValue)])
    case I32 => Some([FromVec(Int32Array, ByValue)])
    case I64 => Some([FromVec(Int64Array, ByValue)])
    case U8 => Some([FromVec(UInt8Array, ByValue)])
    case F32 => Some([FromVec(Float32Array, ByValue)])
    case F64 => Some([FromVec(Float64Array, ByValue)])
    case _ => Some([FromVec(Int32Array, ByValue)])
  }

  function MapAppend(ty: LaicType): Append {
    if ty.StringT? || ty.BytesT? then ByRef else ByDeref
  }

  function MapSteps(key: LaicType, value: LaicType): Option<seq<Step>> {
    var keys :- ArrowBuilderType(key);
    var values :- ArrowBuilderType(value);
    Some([NewMap(keys, values), AppendEntries(MapAppend(key), MapAppend(value)), AppendRow, Finish])
  }

  function ColumnSteps(ty: LaicType, reached: bool): Option<seq<Step>> {
    match ty
    case StringT => Some([FromVec(StringArray, AsStr)])
    case BytesT => Some([FromVec(BinaryArray, AsSlice)])
    case BoolT => Some([FromVec(BooleanArray, ByValue)])
    case I8 => Some([FromVec(Int8Array, ByValue)])
    case I16 => Some([FromVec(Int16Array, ByValue)])
    case I32 => Some([FromVec(Int32Array, ByValue)])
    case I64 => Some([FromVec(Int64Array, ByValue)])
    case U8 => Some([FromVec(UInt8Array, ByValue)])
    case F32 => Some([FromVec(Float32Array, ByValue)])
    case F64 => Some([FromVec(Float64Array, ByValue)])
    case Tensor(_, _) => Some([FromVec(BinaryArray, AsSlice)])
    case List(item) => ListSteps(item, reached)
    case Optional(inner) => OptionalSteps(inner)
    case Map(key, value) => MapSteps(key, value)
  }

  predicate IsListOfOptional(ty: LaicType) {
    ty.List? && ty.item.Optional?
  }

  /** On supported types the column generator panics exactly on lists of optionals. */
  lemma PanicsExactly(ty: LaicType)
    requires Supported(ty)
    ensures ColumnSteps(ty, false).None? <==> IsListOfOptional(ty)
    ensures ColumnSteps(ty, true).Some?
  {
    if ty.List? {
      TablesAgree(ty.item);
      if ty.item.Optional? {
        TablesAgree(ty.item.inner);
      }
    } else if ty.Optional? && ty.inner.List? {
      TablesAgree(ty.inner.item);
    } else if ty.Map? {
      TablesAgree(ty.key);
      TablesAgree(ty.value);
    }
  }

  /** The output buffer that the emit functions append to. */
  class Output<T> {
    var code: seq<T>

    constructor ()
      ensures code == []
    {
      code := [];
    }

    method Push(x: T)
      modifies this
      ensures code == old(code) + [x]
    {
      code := code + [x];
    }
  }

  method EmitListColumn(item: LaicType, reached: bool, out: Output<Step>) returns (ok: bool)
    modifies out
    ensures ok <==> ListSteps(item, reached).Some?
    ensures ok ==> out.code == old(out.code) + ListSteps(item, reached).value
  {
    if !reached && ArrowBuilderType(item).None? {
      TablesAgree(item);
      return false;
    }
    if item.Optional? {
      var innerBuilder := ArrowBuilderType(item.inner);
      if innerBuilder.None? {
        return false;
      }
      out.Push(NewList(innerBuilder.value));
      out.Push(AppendOptions(if item.inner.StringT? || item.inner.BytesT? then ByRef else Deref(item.inner)));
      out.Push(AppendRow);
      out.Push(Finish);
      return true;
    }
    var builder := ArrowBuilderType(item);
    if builder.None? {
      return false;
    }
    out.Push(NewList(builder.value));
    out.Push(AppendItems(Deref(item)));
    out.Push(AppendRow);
    out.Push(Finish);
    return true;
  }

  method EmitOptionalColumn(inner: LaicType, out: Output<Step>) returns (ok: bool)
    modifies out
    ensures ok <==> OptionalSteps(inner).Some?
    ensures ok ==> out.code == old(out.code) + OptionalSteps(inner).value
  {
    match inner {
      case StringT => out.Push(FromVec(StringArray, AsDeref));
      case BytesT => out.Push(FromVec(BinaryArray, AsDeref));
      case BoolT => out.Push(FromVec(BooleanArray, ByValue));
      case Tensor(_, _) => out.Push(FromVec(BinaryArray, AsDeref));
      case List(item) =>
        var builder := ArrowBuilderType(item);
        if builder.None? {
          return false;
        }
        out.Push(NewList(builder.value));
        out.Push(AppendOptionalRow(if item.StringT? || item.BytesT? then ByRef else Deref(item)));
        out.Push(Finish);
      case _ =>
        var numeric := match inner
          case I8 => Int8Array
          case I16 => Int16Array
          case I32 => Int32Array
          case I64 => Int64Array
          case U8 => UInt8Array
          case F32 => Float32Array
          case F64 => Float64Array
          case _ => Int32Array;
        out.Push(FromVec(numeric, ByValue));
    }
    return true;
  }

  method EmitMapColumn(key: LaicType, value: LaicType, out: Output<Step>) returns (ok: bool)
    modifies out
    ensures ok <==> MapSteps(key, value).Some?
    ensures ok ==> out.code == old(out.code) + MapSteps(key, value).value
  {
    var keyBuilder, valueBuilder := ArrowBuilderType(key), ArrowBuilderType(value);
    if keyBuilder.None? || valueBuilder.None? {
      return false;
    }
    out.Push(NewMap(keyBuilder.value, valueBuilder.value));
    out.Push(AppendEntries(MapAppend(key), MapAppend(value)));
    out.Push(AppendRow);
    out.Push(Finish);
    return true;
  }

  method EmitToArrowColumn(ty: LaicType, reached: bool, out: Output<Step>) returns (ok: bool)
    modifies out
    ensures ok <==> ColumnSteps(ty, reached).Some?
    ensures ok ==> out.code == old(out.code) + ColumnSteps(ty, reached).value
  {
    match ty {
      case List(item) =>
        ok := EmitListColumn(item, reached, out);
      case Map(key, value) =>
        ok := EmitMapColumn(key, value, out);
      case Optional(inner) =>
        ok := EmitOptionalColumn(inner, out);
      case _ =>
        var (arr, access) := match ty
          case StringT => (StringArray, AsStr)
          case BytesT => (BinaryArray, AsSlice)
          case Tensor(_, _) => (BinaryArray, AsSlice)
          case BoolT => (BooleanArray, ByValue)
          case I8 => (Int8Array, ByValue)
          case I16 => (Int16Array, ByValue)
          case I32 => (Int32Array, ByValue)
          case I64 => (Int64Array, ByValue)
          case U8 => (UInt8Array, ByValue)
          case F32 => (Float32Array, ByValue)
          case F64 => (Float64Array, ByValue);
        out.Push(FromVec(arr, access));
        ok := true;
    }
  }

  function SchemaFields(fields: seq<FieldDef>): (r: seq<Field>)
    ensures |r| == |fields|
    ensures forall i :: 0 <= i < |fields| ==> r[i] == SchemaField(fields[i])
  {
    seq(|fields|, i requires 0 <= i < |fields| => SchemaField(fields[i]))
  }

  /** The program for a struct, provided no column panics. */
  predicate IsProgram(p: Program, def: StructDef, contract: Contract, reached: bool) {
    && p.fields == SchemaFields(def.fields)
    && p.metadata == [(SKILL_ID_KEY, Quoted(contract.skillId, Rust)),
                      (VERSION_KEY, Quoted(contract.version, Rust)),
                      (DIRECTION_KEY, "\"" + contract.direction + "\"")]
    && |p.columns| == |def.fields|
    && forall i :: 0 <= i < |def.fields| ==>
         ColumnSteps(def.fields[i].ty, reached).Some?
         && p.columns[i] == (def.fields[i].name, ColumnSteps(def.fields[i].ty, reached).value)
  }

  method EmitSchema(fields: seq<FieldDef>) returns (out: seq<Field>)
    ensures out == SchemaFields(fields)
  {
    out := [];
    for i := 0 to |fields|
      invariant out == SchemaFields(fields)[..i]
    {
      out := out + [SchemaField(fields[i])];
    }
  }

  method EmitColumn(f: FieldDef, reached: bool) returns (r: Option<(string, seq<Step>)>)
    ensures r.Some? <==> ColumnSteps(f.ty, reached).Some?
    ensures r.Some? ==> r.value == (f.name, ColumnSteps(f.ty, reached).value)
  {
    var out := new Output<Step>();
    var ok := EmitToArrowColumn(f.ty, reached, out);
    if !ok {
      return None;
    }
    assert out.code == ColumnSteps(f.ty, reached).value;
    return Some((f.name, out.code));
  }

  method EmitColumns(fields: seq<FieldDef>, reached: bool) returns (r: Option<seq<(string, seq<Step>)>>)
    ensures r.Some? <==> forall i :: 0 <= i < |fields| ==> ColumnSteps(fields[i].ty, reached).Some?
    ensures r.Some? ==> |r.value| == |fields|
    ensures r.Some? ==> forall i :: 0 <= i < |fields| ==>
              ColumnSteps(fields[i].ty, reached).Some?
              && r.value[i] == (fields[i].name, ColumnSteps(fields[i].ty, reached).value)
  {
    var columns: seq<(string, seq<Step>)> := [];
    for i := 0 to |fields|
      invariant |columns| == i
      invariant forall k :: 0 <= k < i ==>
        ColumnSteps(fields[k].ty, reached).Some?
        && columns[k] == (fields[k].name, ColumnSteps(fields[k].ty, reached).value)
    {
      var column := EmitColumn(fields[i], reached);
      if column.None? {
        return None;
      }
      columns := columns + [column.value];
    }
    return Some(columns);
  }

  method GenerateToArrowIpc(def: StructDef, contract: Contract, reached: bool) returns (p: Option<Program>)
    ensures p.Some? <==> forall i :: 0 <= i < |def.fields| ==> ColumnSteps(def.fields[i].ty, reached).Some?
    ensures p.Some? ==> IsProgram(p.value, def, contract, reached)
  {
    var fields := EmitSchema(def.fields);
    var skillId := EscapeStringLiteralBody(contract.skillId, Rust);
    var version := EscapeStringLiteralBody(contract.version, Rust);
    var metadata := [(SKILL_ID_KEY, "\"" + skillId + "\""), (VERSION_KEY, "\"" + version + "\""),
                     (DIRECTION_KEY, "\"" + contract.direction + "\"")];
    var columns := EmitColumns(def.fields, reached);
    if columns.None? {
      return None;
    }
    return Some(Program(fields, metadata, columns.value));
  }

  // Compiling the emitted program

  /** The type names a step mentions. */
  function StepNames(step: Step): set<string> {
    match step
    case FromVec(arr, _) => {ArrayName(arr)}
    case NewList(builder) => {"ListBuilder", BuilderName(builder)}
    case NewMap(keys, values) => {"MapBuilder", BuilderName(keys), BuilderName(values)}
    case _ => {}
  }

  function ColumnNames(steps: seq<Step>): set<string> {
    if steps == [] then {} else StepNames(steps[0]) + ColumnNames(steps[1..])
  }

  /** The names in the expression of a schema field. */
  function SchemaNames(field: Field): set<string> {
    {"Field", "DataType"} + if field.ty.MapOf? then {"Fields"} else {}
  }

  /** The type and crate names of the function's signature, schema and last statements. */
  const WRITER_NAMES: set<string> :=
    {"Result", "Vec", "u8", "Box", "std", "Schema", "HashMap", "RecordBatch", "Arc", "arrow_ipc"}

  /** The emitted function is valid Rust in a file that defines types of the given names: they take the place
      of what the prelude and the glob imports bring, and the literals must compile. */
  predicate ProgramCompiles(p: Program, defined: set<string>) {
    && WRITER_NAMES !! defined
    && (forall i :: 0 <= i < |p.fields| ==> SchemaNames(p.fields[i]) !! defined)
    && (forall i :: 0 <= i < |p.columns| ==> ColumnNames(p.columns[i].1) !! defined)
    && forall i :: 0 <= i < |p.metadata| ==> LiteralCompiles(p.metadata[i].1)
  }

  /** A literal that the language takes and that the lints which are errors by default let pass. */
  predicate LiteralCompiles(text: string) {
    RustLiteral(text).Some? && !HasTextFlow(text)
  }

  // Running the emitted program

  /** An iteration order for every hash map. */
  type Order = map<Scalar, Scalar> -> seq<Scalar>

  ghost predicate IsOrder(order: Order) {
    forall m :: Enumerates(order(m), m)
  }

  ghost predicate KeysOnly(order: Order) {
    forall m, i :: 0 <= i < |order(m)| ==> order(m)[i] in m
  }

  datatype Building =
    | Start
    | Lists(item: DataType, pending: seq<Cell>, rows: seq<Cell>)
    | Maps(key: DataType, value: DataType, entries: seq<(Cell, Cell)>, rows: seq<Cell>)
    | Built(column: Column)

  predicate IsCopy(ty: DataType) {
    ty != Utf8 && ty != Binary
  }

  /** Appending a scalar to a builder. Strings and bytes go in by reference and everything else must be
      dereferenced; anything else is not valid Rust. */
  function AppendScalar(ty: DataType, append: Append, x: Scalar): Option<Cell> {
    if Fits(ty, x) && (append.ByDeref? <==> IsCopy(ty)) then Some(Leaf(x)) else None
  }

  function AppendValues(ty: DataType, append: Append, items: seq<Value>): Option<seq<Cell>> {
    if items == [] then Some([])
    else
      var before :- AppendValues(ty, append, items[..|items| - 1]);
      var last := items[|items| - 1];
      if !last.VLeaf? then None
      else
        var cell :- AppendScalar(ty, append, last.x);
        Some(before + [cell])
  }

  function AppendOptionValues(ty: DataType, append: Append, items: seq<Value>): Option<seq<Cell>> {
    if items == [] then Some([])
    else
      var before :- AppendOptionValues(ty, append, items[..|items| - 1]);
      var last := items[|items| - 1];
      if !last.VOption? then None
      else if last.o.None? then Some(before + [Null])
      else if !last.o.value.VLeaf? then None
      else
        var cell :- AppendScalar(ty, append, last.o.value.x);
        Some(before + [cell])
  }

  function AppendPairs(kt: DataType, ka: Append, vt: DataType, va: Append, keys: seq<Scalar>, m: map<Scalar, Scalar>)
    : Option<seq<(Cell, Cell)>>
    requires forall i :: 0 <= i < |keys| ==> keys[i] in m
  {
    if keys == [] then Some([])
    else
      var before :- AppendPairs(kt, ka, vt, va, keys[..|keys| - 1], m);
      var k := keys[|keys| - 1];
      var key :- AppendScalar(kt, ka, k);
      var value :- AppendScalar(vt, va, m[k]);
      Some(before + [(key, value)])
  }

  /** `XArray::from(vec![self.f…])` */
  function FromVecCell(arr: ArrayType, access: Access, v: Value): Option<Cell> {
    var ty := ArrayElement(arr);
    match access
    case AsStr => if arr.StringArray? && v.VLeaf? && Fits(ty, v.x) then Some(Leaf(v.x)) else None
    case AsSlice => if arr.BinaryArray? && v.VLeaf? && Fits(ty, v.x) then Some(Leaf(v.x)) else None
    case AsDeref =>
      if IsCopy(ty) || !v.VOption? then None
      else if v.o.None? then Some(Null)
      else if v.o.value.VLeaf? && Fits(ty, v.o.value.x) then Some(Leaf(v.o.value.x)) else None
    case ByValue =>
      if !IsCopy(ty) then None
      else if v.VLeaf? then (if Fits(ty, v.x) then Some(Leaf(v.x)) else None)
      else if !v.VOption? then None
      else if v.o.None? then Some(Null)
      else if v.o.value.VLeaf? && Fits(ty, v.o.value.x) then Some(Leaf(v.o.value.x)) else None
  }

  function RunStep(step: Step, b: Building, v: Value, order: Order): Option<Building>
    requires KeysOnly(order)
  {
    match step
    case FromVec(arr, access) =>
      if !b.Start? then None
      else
        var cell :- FromVecCell(arr, access, v);
        Some(Built(Column(ArrayElement(arr), [cell])))
    case NewList(builder) => if b.Start? then Some(Lists(BuilderElement(builder), [], [])) else None
    case AppendItems(append) =>
      if !b.Lists? || !v.VList? then None
      else
        var cells :- AppendValues(b.item, append, v.items);
        Some(b.(pending := b.pending + cells))
    case AppendOptions(append) =>
      if !b.Lists? || !v.VList? then None
      else
        var cells :- AppendOptionValues(b.item, append, v.items);
        Some(b.(pending := b.pending + cells))
    case AppendOptionalRow(append) =>
      if !b.Lists? || !v.VOption? then None
      else if v.o.None? then Some(Lists(b.item, [], b.rows + [Null]))
      else if !v.o.value.VList? then None
      else
        var cells :- AppendValues(b.item, append, v.o.value.items);
        Some(Lists(b.item, [], b.rows + [Items(b.pending + cells)]))
    case AppendRow =>
      if b.Lists? then Some(Lists(b.item, [], b.rows + [Items(b.pending)]))
      else if b.Maps? then Some(Maps(b.key, b.value, [], b.rows + [Entries(b.entries)]))
      else None
    case NewMap(keys, values) =>
      if b.Start? then Some(Maps(BuilderElement(keys), BuilderElement(values), [], [])) else None
    case AppendEntries(ka, va) =>
      if !b.Maps? || !v.VMap? then None
      else
        var entries :- AppendPairs(b.key, ka, b.value, va, order(v.m), v.m);
        Some(b.(entries := b.entries + entries))
    case Finish =>
      if b.Lists? then Some(Built(Column(ListOf(b.item, true), b.rows)))
      else if b.Maps? then Some(Built(Column(MapOf("keys", b.key, "values", b.value, true), b.rows)))
      else None
  }

  function RunSteps(steps: seq<Step>, b: Building, v: Value, order: Order): Option<Building>
    requires KeysOnly(order)
  {
    if steps == [] then Some(b)
    else
      var next :- RunStep(steps[0], b, v, order);
      RunSteps(steps[1..], next, v, order)
  }

  function BuildColumn(steps: seq<Step>, v: Value, order: Order): Option<Column>
    requires KeysOnly(order)
  {
    match RunSteps(steps, Start, v, order) case Some(Built(column)) => Some(column) case _ => None
  }

  function BuildColumns(columns: seq<(string, seq<Step>)>, rec: Record, order: Order): Option<seq<Column>>
    requires KeysOnly(order)
  {
    if columns == [] then Some([])
    else if columns[0].0 !in rec then None
    else
      var column :- BuildColumn(columns[0].1, rec[columns[0].0], order);
      var rest :- BuildColumns(columns[1..], rec, order);
      Some([column] + rest)
  }

  /** The value of a literal that stands alone. */
  function RustLiteral(text: string): Option<string> {
    match LexRust(text) case Some((value, rest)) => (if rest == "" then Some(value) else None) case None => None
  }

  function MetadataMap(metadata: seq<(string, string)>): Option<map<string, string>> {
    if metadata == [] then Some(map[])
    else
      var before :- MetadataMap(metadata[..|metadata| - 1]);
      var (key, text) := metadata[|metadata| - 1];
      var value :- RustLiteral(text);
      Some(before[key := value])
  }

  /** The stream `to_arrow_ipc` writes, or `None` if the program is not valid Rust or the batch is refused. */
  function RunProgram(p: Program, rec: Record, order: Order): Option<Stream>
    requires KeysOnly(order)
  {
    var metadata :- MetadataMap(p.metadata);
    var schema := Schema(p.fields, metadata);
    var columns :- BuildColumns(p.columns, rec, order);
    var batch :- TryNew(schema, columns);
    Some(Stream(schema, [batch]))
  }
}
