/** The Python deserializer: what the generator emits for `from_ipc`, and what the emitted code does with a
    stream. A Python function has one scope: a name it assigns anywhere is local everywhere in it. */
module PythonDeserialize {
  import opened Wrappers
  import opened Bytes
  import opened Ast
  import opened Shape
  import opened Literals
  import opened Validate
  import opened Arrow
  import opened Records
  import opened PythonValues
  import opened PythonSerialize
  import Text

  // The emitted program

  datatype PyLiteral = StringCode(text: string) | IntegerCode(i: int) | FloatCode(bits: u64) | BoolCode(b: bool)

  /** The statements of the body. The temporaries they pass to each other begin with an underscore, which
      no field name does, and are kept apart from the named variables. */
  datatype Stmt =
    | OpenStream
    | ReadBatch
    | CheckOneRow
    | CheckNoMoreBatches
    | LoadMeta
    | GuardMeta(key: string, text: string)
    | LoadColumn(field: string)
    | LoadColumnIfPresent(field: string)
    | CheckType(field: string, expected: DataType)
    | BindFirst(field: string)
    | ElseBind(field: string, default: PyLiteral)
    | BindValue(field: string)
    | BindValid(field: string)
    | BindItems(field: string)
    | BindDict(field: string)
    | CheckDtype(field: string, dtype: string)
    | CheckRank(field: string, rank: nat)
    | CheckDim(field: string, index: nat, size: nat)

  /** The last statement passes each field's variable to the class. */
  datatype Body = Body(stmts: seq<Stmt>, result: seq<string>)

  // The generator

  function LiteralToPython(lit: Literal): PyLiteral {
    match lit
    case StringLit(s) => StringCode(Quoted(s, PythonLike))
    case IntegerLit(i) => IntegerCode(i)
    case FloatLit(bits) => FloatCode(bits)
    case BoolLit(b) => BoolCode(b)
  }

  function DimChecks(field: string, dims: seq<Dimension>, from: nat): seq<Stmt>
    requires from <= |dims|
    decreases |dims| - from
  {
    if from == |dims| then []
    else (if dims[from].Fixed? then [CheckDim(field, from, dims[from].size)] else []) + DimChecks(field, dims, from + 1)
  }

  function TensorChecks(field: string, dtype: TensorElementType, dims: seq<Dimension>): seq<Stmt> {
    [CheckDtype(field, DtypeName(dtype)), CheckRank(field, |dims|)] + DimChecks(field, dims, 0)
  }

  /** A tensor is bound before its metadata is checked, a list or optional of tensors after. */
  function FieldStmts(f: FieldDef): seq<Stmt> {
    match f.ty
    case Tensor(dtype, dims) => [BindValue(f.name)] + TensorChecks(f.name, dtype, dims)
    case List(Tensor(dtype, dims)) => TensorChecks(f.name, dtype, dims) + [BindItems(f.name)]
    case List(_) => [BindValue(f.name)]
    case Optional(Tensor(dtype, dims)) => TensorChecks(f.name, dtype, dims) + [BindValid(f.name)]
    case Optional(_) => [BindValid(f.name)]
    case Map(_, _) => [BindDict(f.name)]
    case _ =>
      if f.default.Some? then
        [LoadColumnIfPresent(f.name), CheckType(f.name, PyArrowType(f.ty)), BindFirst(f.name),
         ElseBind(f.name, LiteralToPython(f.default.value))]
      else [LoadColumn(f.name), CheckType(f.name, PyArrowType(f.ty)), BindFirst(f.name)]
  }

  function AllFields(fields: seq<FieldDef>): seq<Stmt> {
    if fields == [] then [] else AllFields(fields[..|fields| - 1]) + FieldStmts(fields[|fields| - 1])
  }

  function Guards(contract: Contract): seq<Stmt> {
    [GuardMeta(SKILL_ID_KEY, EncodedLiteral(contract.skillId)), GuardMeta(VERSION_KEY, EncodedLiteral(contract.version)),
     GuardMeta(DIRECTION_KEY, EncodedLiteral(contract.direction))]
  }

  const HEADER: seq<Stmt> := [OpenStream, ReadBatch, CheckOneRow, CheckNoMoreBatches, LoadMeta]

  predicate IsBody(body: Body, def: StructDef, contract: Contract) {
    && body.stmts == HEADER + Guards(contract) + AllFields(def.fields)
    && |body.result| == |def.fields|
    && forall i :: 0 <= i < |def.fields| ==> body.result[i] == def.fields[i].name
  }

  method EmitTensorMetadataValidation(field: string, dtype: TensorElementType, dims: seq<Dimension>) returns (out: seq<Stmt>)
    ensures out == TensorChecks(field, dtype, dims)
  {
    out := [CheckDtype(field, DtypeName(dtype)), CheckRank(field, |dims|)];
    for i := 0 to |dims|
      invariant out + DimChecks(field, dims, i) == TensorChecks(field, dtype, dims)
    {
      if dims[i].Fixed? {
        out := out + [CheckDim(field, i, dims[i].size)];
      }
    }
  }

  method EmitScalarExtraction(f: FieldDef) returns (out: seq<Stmt>)
    requires IsLeaf(f.ty) && !f.ty.Tensor?
    ensures out == FieldStmts(f)
  {
    var expected := PyArrowType(f.ty);
    match f.default {
      case Some(lit) =>
        out := [LoadColumnIfPresent(f.name)];
        out := out + [CheckType(f.name, expected), BindFirst(f.name)];
        out := out + [ElseBind(f.name, LiteralToPython(lit))];
      case None =>
        out := [LoadColumn(f.name)];
        out := out + [CheckType(f.name, expected)];
        out := out + [BindFirst(f.name)];
    }
  }

  method EmitFieldExtraction(f: FieldDef) returns (out: seq<Stmt>)
    ensures out == FieldStmts(f)
  {
    match f.ty {
      case Tensor(dtype, dims) =>
        var checks := EmitTensorMetadataValidation(f.name, dtype, dims);
        out := [BindValue(f.name)] + checks;
      case List(inner) =>
        if inner.Tensor? {
          out := EmitTensorMetadataValidation(f.name, inner.dtype, inner.dims);
          out := out + [BindItems(f.name)];
        } else {
          out := [BindValue(f.name)];
        }
      case Optional(inner) =>
        out := [];
        if inner.Tensor? {
          out := EmitTensorMetadataValidation(f.name, inner.dtype, inner.dims);
        }
        out := out + [BindValid(f.name)];
      case Map(_, _) =>
        out := [BindDict(f.name)];
      case _ =>
        out := EmitScalarExtraction(f);
    }
  }

  method EmitMetadataValidation(contract: Contract) returns (out: seq<Stmt>)
    ensures out == Guards(contract)
  {
    var keys := [(SKILL_ID_KEY, contract.skillId), (VERSION_KEY, contract.version), (DIRECTION_KEY, contract.direction)];
    out := [];
    for i := 0 to |keys|
      invariant |out| == i
      invariant forall k :: 0 <= k < i ==> out[k] == GuardMeta(keys[k].0, EncodedLiteral(keys[k].1))
    {
      var escaped := EscapeStringLiteralBody(keys[i].1, PythonLike);
      out := out + [GuardMeta(keys[i].0, "\"" + escaped + "\"" + ENCODE)];
    }
    assert out == Guards(contract);
  }

  lemma AllFieldsSnoc(fields: seq<FieldDef>, i: nat)
    requires i < |fields|
    ensures AllFields(fields[..i + 1]) == AllFields(fields[..i]) + FieldStmts(fields[i])
  {
    assert fields[..i + 1][..i] == fields[..i];
  }

  method EmitFields(fields: seq<FieldDef>) returns (out: seq<Stmt>)
    ensures out == AllFields(fields)
  {
    out := [];
    for i := 0 to |fields|
      invariant out == AllFields(fields[..i])
    {
      var stmts := EmitFieldExtraction(fields[i]);
      AllFieldsSnoc(fields, i);
      out := out + stmts;
    }
    assert fields[..|fields|] == fields;
  }

  method GenerateFromIpc(def: StructDef, contract: Contract) returns (body: Body)
    ensures IsBody(body, def, contract)
  {
    var guards := EmitMetadataValidation(contract);
    var fields := EmitFields(def.fields);
    var result := EmitArguments(def.fields);
    return Body(HEADER + guards + fields, result);
  }

  // Running the emitted program

  datatype PyError =
    | NameNotBound(name: string)
    | WrongObject(name: string)
    | EmptyStream
    | Malformed
    | RowCount(rows: nat)
    | TrailingBatch
    | MissingMetadata(key: string)
    | MetadataMismatch(key: string)
    | KeyError(field: string)
    | WrongType(field: string)
    | WrongDtype(field: string)
    | WrongShape(field: string)
    | NotIterable(field: string)

  /** What a variable or a global name can refer to. */
  datatype Object =
    | Global(name: string) | ModuleClass(name: string)
    | TheClass | TheData | TheReader(next: nat) | TheBatch | TheMeta | Plain(v: PyValue)

  datatype Temporary =
    | Nothing
    | Absent
    | ColumnOf(column: Column)
    | FieldMeta(metadata: map<string, string>)
    | Sizes(sizes: seq<int>)

  datatype State = State(env: map<string, Object>, temp: Temporary)

  function Start(): State {
    State(map["cls" := TheClass, "data" := TheData], Nothing)
  }

  /** Every name the function assigns or takes as a parameter. */
  function Locals(def: StructDef): (locals: set<string>)
    ensures forall n :: n in locals <==>
                        n in {"cls", "data", "reader", "batch", "meta"} || exists i :: 0 <= i < |def.fields| && def.fields[i].name == n
  {
    {"cls", "data", "reader", "batch", "meta"} + set i | 0 <= i < |def.fields| :: def.fields[i].name
  }

  /** What names mean inside the function: its own locals, then the classes the generated module defines,
      then what the module imports and the builtins. */
  datatype Scope = Scope(locals: set<string>, classes: set<string>) {
    /** The name still means the imported module or the builtin. */
    predicate Free(name: string) {
      name !in locals && name !in classes
    }
  }

  function ScopeOf(def: StructDef, classes: set<string>): Scope {
    Scope(Locals(def), classes)
  }

  /** A local name must have been assigned; any other name is looked up in the module. */
  function Lookup(name: string, env: map<string, Object>, scope: Scope): Result<Object, PyError> {
    if name in scope.locals then (if name in env then Ok(env[name]) else Err(NameNotBound(name)))
    else if name in scope.classes then Ok(ModuleClass(name))
    else Ok(Global(name))
  }

  function Expecting(name: string, wanted: Object, env: map<string, Object>, scope: Scope): Result<Unit, PyError> {
    var found :- Lookup(name, env, scope);
    if found == wanted then Ok(Unit) else Err(WrongObject(name))
  }

  function AsPy(cell: Cell): PyValue {
    match cell
    case Null => PyNone
    case Leaf(x) => PyLeaf(x)
    case Items(items) => PyList(seq(|items|, i requires 0 <= i < |items| => AsPy(items[i])))
    case Entries(entries) =>
      PyPairs(seq(|entries|, i requires 0 <= i < |entries| => (AsPy(entries[i].0), AsPy(entries[i].1))))
  }

  predicate Hashable(v: PyValue) {
    v.PyNone? || v.PyLeaf?
  }

  /** `dict` on a list of pairs; later pairs win. */
  function DictOf(pairs: seq<(PyValue, PyValue)>): Option<map<PyValue, PyValue>> {
    if pairs == [] then Some(map[])
    else
      var before :- DictOf(pairs[..|pairs| - 1]);
      var (k, v) := pairs[|pairs| - 1];
      if Hashable(k) then Some(before[k := v]) else None
  }

  function LiteralValue(code: PyLiteral): Result<PyValue, PyError> {
    match code
    case StringCode(text) =>
      (match PythonString(text) case Some(s) => Ok(PyLeaf(Str(s))) case None => Err(Malformed))
    case IntegerCode(i) => Ok(PyLeaf(Int(i)))
    case FloatCode(bits) => if IsFinite(bits) then Ok(PyLeaf(Flt(bits))) else Err(Malformed)
    case BoolCode(b) => Ok(PyLeaf(Bool(b)))
  }

  /** `batch.column(name)`, on the only batch that gets this far. */
  function ColumnByName(stream: Stream, field: string): Result<Column, PyError> {
    match IndexOf(stream.schema.fields, field)
    case None => Err(KeyError(field))
    case Some(i) =>
      if stream.batches == [] || i >= |stream.batches[0].columns| then Err(Malformed)
      else Ok(stream.batches[0].columns[i])
  }

  /** `batch.column(name)[0]` */
  function FirstCell(stream: Stream, field: string): Result<Cell, PyError> {
    var column :- ColumnByName(stream, field);
    if column.cells == [] then Err(Malformed) else Ok(column.cells[0])
  }

  /** The items `[int(x) for x in …]` converts. */
  function ShapeItems(raw: string): seq<string> {
    NonEmpty(Text.Split(Text.Trim(raw, IsBracket), ','))
  }

  function Bind(s: State, field: string, v: PyValue): State {
    State(s.env[field := Plain(v)], s.temp)
  }

  function Check(ok: bool, e: PyError): Result<Unit, PyError> {
    if ok then Ok(Unit) else Err(e)
  }

  function RunOpenStream(scope: Scope, s: State): Result<State, PyError> {
    var _ :- Expecting("ipc", Global("ipc"), s.env, scope);
    var _ :- Expecting("data", TheData, s.env, scope);
    Ok(State(s.env["reader" := TheReader(0)], s.temp))
  }

  function RunReadBatch(stream: Stream, scope: Scope, s: State): Result<State, PyError> {
    var _ :- Expecting("reader", TheReader(0), s.env, scope);
    var _ :- Check(stream.batches != [], EmptyStream);
    var _ :- Check(|stream.batches[0].columns| == |stream.schema.fields|, Malformed);
    Ok(State(s.env["reader" := TheReader(1)]["batch" := TheBatch], s.temp))
  }

  function RunCheckOneRow(stream: Stream, scope: Scope, s: State): Result<State, PyError> {
    var _ :- Expecting("batch", TheBatch, s.env, scope);
    var _ :- Check(stream.batches != [], Malformed);
    var _ :- Check(stream.batches[0].rows == 1, RowCount(stream.batches[0].rows));
    Ok(s)
  }

  function RunCheckNoMoreBatches(stream: Stream, scope: Scope, s: State): Result<State, PyError> {
    var _ :- Expecting("reader", TheReader(1), s.env, scope);
    var _ :- Expecting("StopIteration", Global("StopIteration"), s.env, scope);
    var _ :- Check(|stream.batches| <= 1, TrailingBatch);
    Ok(s)
  }

  function RunLoadMeta(scope: Scope, s: State): Result<State, PyError> {
    var _ :- Expecting("batch", TheBatch, s.env, scope);
    Ok(State(s.env["meta" := TheMeta], s.temp))
  }

  function RunGuardMeta(key: string, text: string, stream: Stream, scope: Scope, s: State): Result<State, PyError> {
    var _ :- Expecting("meta", TheMeta, s.env, scope);
    var _ :- Check(key in stream.schema.metadata, MissingMetadata(key));
    var _ :- Check(PythonBytes(text).Some?, Malformed);
    var _ :- Check(PythonBytes(text) == Some(stream.schema.metadata[key]), MetadataMismatch(key));
    Ok(s)
  }

  function RunLoadColumn(field: string, stream: Stream, scope: Scope, s: State): Result<State, PyError> {
    var _ :- Expecting("batch", TheBatch, s.env, scope);
    var column :- ColumnByName(stream, field);
    Ok(State(s.env, ColumnOf(column)))
  }

  function RunLoadColumnIfPresent(field: string, stream: Stream, scope: Scope, s: State): Result<State, PyError> {
    var _ :- Expecting("batch", TheBatch, s.env, scope);
    if IndexOf(stream.schema.fields, field).None? then Ok(State(s.env, Absent))
    else
      var column :- ColumnByName(stream, field);
      Ok(State(s.env, ColumnOf(column)))
  }

  function RunCheckType(field: string, expected: DataType, stream: Stream, scope: Scope, s: State): Result<State, PyError> {
    if s.temp.Absent? then Ok(s)
    else
      var _ :- Expecting("batch", TheBatch, s.env, scope);
      var _ :- Expecting("pa", Global("pa"), s.env, scope);
      var i :- (match IndexOf(stream.schema.fields, field) case Some(i) => Ok(i) case None => Err(KeyError(field)));
      var _ :- Check(stream.schema.fields[i].ty == expected, WrongType(field));
      Ok(s)
  }

  function RunBindFirst(field: string, s: State): Result<State, PyError> {
    if s.temp.Absent? then Ok(s)
    else if !s.temp.ColumnOf? || s.temp.column.cells == [] then Err(Malformed)
    else Ok(Bind(s, field, AsPy(s.temp.column.cells[0])))
  }

  function RunElseBind(field: string, default: PyLiteral, s: State): Result<State, PyError> {
    var v :- LiteralValue(default);
    if s.temp.Absent? then Ok(Bind(s, field, v)) else Ok(s)
  }

  function RunBindValue(field: string, stream: Stream, scope: Scope, s: State): Result<State, PyError> {
    var _ :- Expecting("batch", TheBatch, s.env, scope);
    var cell :- FirstCell(stream, field);
    Ok(Bind(s, field, AsPy(cell)))
  }

  function RunBindValid(field: string, stream: Stream, scope: Scope, s: State): Result<State, PyError> {
    var _ :- Expecting("batch", TheBatch, s.env, scope);
    var cell :- FirstCell(stream, field);
    Ok(Bind(s, field, if cell.Null? then PyNone else AsPy(cell)))
  }

  function RunBindItems(field: string, stream: Stream, scope: Scope, s: State): Result<State, PyError> {
    var _ :- Expecting("batch", TheBatch, s.env, scope);
    var cell :- FirstCell(stream, field);
    var _ :- Check(cell.Items?, NotIterable(field));
    Ok(Bind(s, field, PyList(seq(|cell.items|, i requires 0 <= i < |cell.items| => AsPy(cell.items[i])))))
  }

  function RunBindDict(field: string, stream: Stream, scope: Scope, s: State): Result<State, PyError> {
    var _ :- Expecting("batch", TheBatch, s.env, scope);
    var cell :- FirstCell(stream, field);
    if AsPy(cell).PyNone? then Ok(Bind(s, field, PyDict(map[])))
    else
      var _ :- Expecting("dict", Global("dict"), s.env, scope);
      var _ :- Check(AsPy(cell).PyPairs?, NotIterable(field));
      (match DictOf(AsPy(cell).pairs)
       case None => Err(NotIterable(field))
       case Some(m) => Ok(Bind(s, field, PyDict(m))))
  }

  function RunCheckDtype(field: string, dtype: string, stream: Stream, scope: Scope, s: State): Result<State, PyError> {
    var _ :- Expecting("batch", TheBatch, s.env, scope);
    var i :- (match IndexOf(stream.schema.fields, field) case Some(i) => Ok(i) case None => Err(KeyError(field)));
    var metadata := stream.schema.fields[i].metadata;
    var _ :- Check(DTYPE_KEY in metadata, MissingMetadata(DTYPE_KEY));
    var _ :- Check(metadata[DTYPE_KEY] == dtype, WrongDtype(field));
    Ok(State(s.env, FieldMeta(metadata)))
  }

  function RunCheckRank(field: string, rank: nat, scope: Scope, s: State): Result<State, PyError> {
    var _ :- Check(s.temp.FieldMeta?, Malformed);
    var _ :- Check(SHAPE_KEY in s.temp.metadata, MissingMetadata(SHAPE_KEY));
    var raw := s.temp.metadata[SHAPE_KEY];
    var _ :- if ShapeItems(raw) == [] then Ok(Unit) else Expecting("int", Global("int"), s.env, scope);
    var _ :- Check(PythonShape(raw).Some?, WrongShape(field));
    var _ :- Expecting("len", Global("len"), s.env, scope);
    var _ :- Check(|PythonShape(raw).value| == rank, WrongShape(field));
    Ok(State(s.env, Sizes(PythonShape(raw).value)))
  }

  function RunCheckDim(field: string, index: nat, size: nat, s: State): Result<State, PyError> {
    var _ :- Check(s.temp.Sizes? && index < |s.temp.sizes|, Malformed);
    var _ :- Check(s.temp.sizes[index] == size, WrongShape(field));
    Ok(s)
  }

  function RunStmt(stmt: Stmt, stream: Stream, scope: Scope, s: State): Result<State, PyError> {
    match stmt
    case OpenStream => RunOpenStream(scope, s)
    case ReadBatch => RunReadBatch(stream, scope, s)
    case CheckOneRow => RunCheckOneRow(stream, scope, s)
    case CheckNoMoreBatches => RunCheckNoMoreBatches(stream, scope, s)
    case LoadMeta => RunLoadMeta(scope, s)
    case GuardMeta(key, text) => RunGuardMeta(key, text, stream, scope, s)
    case LoadColumn(field) => RunLoadColumn(field, stream, scope, s)
    case LoadColumnIfPresent(field) => RunLoadColumnIfPresent(field, stream, scope, s)
    case CheckType(field, expected) => RunCheckType(field, expected, stream, scope, s)
    case BindFirst(field) => RunBindFirst(field, s)
    case ElseBind(field, default) => RunElseBind(field, default, s)
    case BindValue(field) => RunBindValue(field, stream, scope, s)
    case BindValid(field) => RunBindValid(field, stream, scope, s)
    case BindItems(field) => RunBindItems(field, stream, scope, s)
    case BindDict(field) => RunBindDict(field, stream, scope, s)
    case CheckDtype(field, dtype) => RunCheckDtype(field, dtype, stream, scope, s)
    case CheckRank(field, rank) => RunCheckRank(field, rank, scope, s)
    case CheckDim(field, index, size) => RunCheckDim(field, index, size, s)
  }

  function RunStmts(stmts: seq<Stmt>, stream: Stream, scope: Scope, s: State): Result<State, PyError> {
    if stmts == [] then Ok(s)
    else
      var next :- RunStmt(stmts[0], stream, scope, s);
      RunStmts(stmts[1..], stream, scope, next)
  }

  predicate HoldsPlain(name: string, env: map<string, Object>) {
    name in env && env[name].Plain?
  }

  /** `return cls(f=f, …)` */
  function Construct(result: seq<string>, env: map<string, Object>, scope: Scope): Result<PyRecord, PyError> {
    var _ :- Expecting("cls", TheClass, env, scope);
    if forall n :: n in result ==> HoldsPlain(n, env) then Ok(map n | n in result :: env[n].v) else Err(Malformed)
  }

  /** `from_ipc` on a stream. */
  function RunBody(body: Body, stream: Stream, scope: Scope): Result<PyRecord, PyError> {
    var end :- RunStmts(body.stmts, stream, scope, Start());
    Construct(body.result, end.env, scope)
  }
}
