/** The TypeScript deserializer: what the generator emits for `fromIpc`, which variables the emitted code
    binds to what, and what its assertion helpers let pass. How Arrow decodes a column's row is not looked
    at here. */
module TypeScriptDeserialize {
  import opened Wrappers
  import opened Bytes
  import opened Ast
  import opened Shape
  import opened Literals
  import opened Validate
  import opened Arrow
  import opened Records

  // The emitted program

  /** A literal as it is emitted. */
  datatype JsCode = StringCode(text: string) | NumberCode(i: int) | BigIntCode(i: int) | FloatCode(bits: u64) | BoolCode(b: bool)

  datatype Expr =
    | TableFromIpc
    | FirstBatch
    | SchemaMetadata
    | Child(field: string)
    | SchemaField(field: string)
    | RowOf(columnVar: string)
    | RowOfChild(field: string)
    | ArrayOfChild(field: string)
    | Default(code: JsCode)

  datatype Stmt =
    | Const(name: string, init: Expr)
    | Let(name: string)
    | Assign(name: string, e: Expr)
    | CheckCounts
    | AssertMetadata(key: string, text: string)
    | AssertTensor(fieldVar: string, field: string, dtype: string, dims: seq<Dimension>)
    | AssertType(fieldVar: string, field: string, expected: DataType)
    | RequireColumn(columnVar: string)
    | IfNull(columnVar: string, whenNull: seq<Stmt>, otherwise: seq<Stmt>)

  /** A parameter of the class's constructor, with its default. */
  type Parameter = (string, Option<JsCode>)

  /** The last statement passes the variables to the constructor of the class, by position. */
  datatype Body = Body(stmts: seq<Stmt>, className: string, params: seq<Parameter>, result: seq<string>)

  // The generator

  function ColumnVar(field: string): string {
    field + "_column"
  }

  function FieldVar(field: string): string {
    field + "_field"
  }

  /** `literal_to_ts` */
  function LiteralToTs(lit: Literal, ty: LaicType): JsCode {
    match lit
    case IntegerLit(i) => if ty.I64? then BigIntCode(i) else NumberCode(i)
    case StringLit(s) => StringCode(Quoted(s, PythonLike))
    case FloatLit(bits) => FloatCode(bits)
    case BoolLit(b) => BoolCode(b)
  }

  function ParameterOf(f: FieldDef): Parameter {
    (f.name, match f.default case Some(lit) => Some(LiteralToTs(lit, f.ty)) case None => None)
  }

  function TensorCheck(field: string, dtype: TensorElementType, dims: seq<Dimension>): seq<Stmt> {
    [Const(FieldVar(field), SchemaField(field)), AssertTensor(FieldVar(field), field, DtypeName(dtype), dims)]
  }

  function DefaultedBlock(n: string, expected: DataType): seq<Stmt> {
    [Const(FieldVar(n), SchemaField(n)), AssertType(FieldVar(n), n, expected), Assign(n, RowOf(ColumnVar(n)))]
  }

  /** `emit_field_extraction` and `emit_scalar_extraction` */
  function FieldStmts(f: FieldDef): seq<Stmt> {
    var n := f.name;
    match f.ty
    case Tensor(dtype, dims) => TensorCheck(n, dtype, dims) + [Const(n, RowOfChild(n))]
    case List(item) => (if item.Tensor? then TensorCheck(n, item.dtype, item.dims) else []) + [Const(n, ArrayOfChild(n))]
    case Optional(inner) =>
      (if inner.Tensor? then TensorCheck(n, inner.dtype, inner.dims) else [])
      + [Const(ColumnVar(n), Child(n)), RequireColumn(ColumnVar(n)), Const(n, RowOf(ColumnVar(n)))]
    case Map(_, _) => [Const(n, RowOfChild(n))]
    case _ =>
      if f.default.Some? then
        [Const(ColumnVar(n), Child(n)), Let(n),
         IfNull(ColumnVar(n), [Assign(n, Default(LiteralToTs(f.default.value, f.ty)))], DefaultedBlock(n, LeafType(f.ty)))]
      else
        [Const(ColumnVar(n), Child(n)), RequireColumn(ColumnVar(n)),
         Const(FieldVar(n), SchemaField(n)), AssertType(FieldVar(n), n, LeafType(f.ty)), Const(n, RowOf(ColumnVar(n)))]
  }

  function AllFields(fields: seq<FieldDef>): seq<Stmt> {
    if fields == [] then [] else AllFields(fields[..|fields| - 1]) + FieldStmts(fields[|fields| - 1])
  }

  const OPENING: seq<Stmt> :=
    [Const("table", TableFromIpc), CheckCounts, Const("batch", FirstBatch), Const("schemaMetadata", SchemaMetadata)]

  function Guards(contract: Contract): seq<Stmt> {
    [AssertMetadata(SKILL_ID_KEY, Quoted(contract.skillId, PythonLike)),
     AssertMetadata(VERSION_KEY, Quoted(contract.version, PythonLike)),
     AssertMetadata(DIRECTION_KEY, "\"" + contract.direction + "\"")]
  }

  predicate IsBody(body: Body, def: StructDef, contract: Contract) {
    && body.stmts == OPENING + Guards(contract) + AllFields(def.fields) && body.className == def.name
    && |body.result| == |body.params| == |def.fields|
    && forall i :: 0 <= i < |def.fields| ==> body.result[i] == def.fields[i].name && body.params[i] == ParameterOf(def.fields[i])
  }

  lemma AllFieldsSnoc(fields: seq<FieldDef>, i: nat)
    requires i < |fields|
    ensures AllFields(fields[..i + 1]) == AllFields(fields[..i]) + FieldStmts(fields[i])
  {
    assert fields[..i + 1][..i] == fields[..i];
  }

  method EmitLiteral(lit: Literal, ty: LaicType) returns (code: JsCode)
    ensures code == LiteralToTs(lit, ty)
  {
    match lit {
      case IntegerLit(i) => code := if ty.I64? then BigIntCode(i) else NumberCode(i);
      case StringLit(s) =>
        var body := EscapeStringLiteralBody(s, PythonLike);
        code := StringCode("\"" + body + "\"");
      case FloatLit(bits) => code := FloatCode(bits);
      case BoolLit(b) => code := BoolCode(b);
    }
  }

  method EmitScalarExtraction(f: FieldDef) returns (out: seq<Stmt>)
    requires IsLeaf(f.ty) && !f.ty.Tensor?
    ensures out == FieldStmts(f)
  {
    var n := f.name;
    out := [Const(ColumnVar(n), Child(n))];
    if f.default.Some? {
      out := out + [Let(n)];
      var block := [Const(FieldVar(n), SchemaField(n))];
      block := block + [AssertType(FieldVar(n), n, LeafType(f.ty))];
      block := block + [Assign(n, RowOf(ColumnVar(n)))];
      assert block == DefaultedBlock(n, LeafType(f.ty));
      var code := EmitLiteral(f.default.value, f.ty);
      out := out + [IfNull(ColumnVar(n), [Assign(n, Default(code))], block)];
    } else {
      out := out + [RequireColumn(ColumnVar(n))];
      out := out + [Const(FieldVar(n), SchemaField(n)), AssertType(FieldVar(n), n, LeafType(f.ty))];
      out := out + [Const(n, RowOf(ColumnVar(n)))];
    }
  }

  method EmitFieldExtraction(f: FieldDef) returns (out: seq<Stmt>)
    ensures out == FieldStmts(f)
  {
    var n := f.name;
    out := [];
    match f.ty {
      case Tensor(dtype, dims) =>
        out := out + TensorCheck(n, dtype, dims);
        out := out + [Const(n, RowOfChild(n))];
      case List(item) =>
        if item.Tensor? {
          out := out + TensorCheck(n, item.dtype, item.dims);
        }
        out := out + [Const(n, ArrayOfChild(n))];
      case Optional(inner) =>
        if inner.Tensor? {
          out := out + TensorCheck(n, inner.dtype, inner.dims);
        }
        out := out + [Const(ColumnVar(n), Child(n)), RequireColumn(ColumnVar(n)), Const(n, RowOf(ColumnVar(n)))];
      case Map(_, _) =>
        out := out + [Const(n, RowOfChild(n))];
      case _ =>
        out := EmitScalarExtraction(f);
    }
  }

  method EmitFields(fields: seq<FieldDef>) returns (out: seq<Stmt>)
    ensures out == AllFields(fields)
  {
    out := [];
    for i := 0 to |fields|
      invariant out == AllFields(fields[..i])
    {
      var stmts := EmitFieldExtraction(fields[i]);
      AllFieldsSnoc(fields, i);
      out := out + stmts;
    }
    assert fields[..|fields|] == fields;
  }

  method EmitParameters(fields: seq<FieldDef>) returns (out: seq<Parameter>)
    ensures |out| == |fields| && forall i :: 0 <= i < |fields| ==> out[i] == ParameterOf(fields[i])
  {
    out := [];
    for i := 0 to |fields|
      invariant |out| == i
      invariant forall k :: 0 <= k < i ==> out[k] == ParameterOf(fields[k])
    {
      match fields[i].default {
        case None => out := out + [(fields[i].name, None)];
        case Some(lit) =>
          var code := EmitLiteral(lit, fields[i].ty);
          out := out + [(fields[i].name, Some(code))];
      }
    }
  }

  method GenerateFromIpc(def: StructDef, contract: Contract) returns (body: Body)
    ensures IsBody(body, def, contract)
  {
    var skillId := EscapeStringLiteralBody(contract.skillId, PythonLike);
    var version := EscapeStringLiteralBody(contract.version, PythonLike);
    var guards := [AssertMetadata(SKILL_ID_KEY, "\"" + skillId + "\""), AssertMetadata(VERSION_KEY, "\"" + version + "\""),
                   AssertMetadata(DIRECTION_KEY, "\"" + contract.direction + "\"")];
    assert guards == Guards(contract);
    var fields := EmitFields(def.fields);
    var result := EmitArguments(def.fields);
    var params := EmitParameters(def.fields);
    return Body(OPENING + guards + fields, def.name, params, result);
  }

  // Scopes: sections 14.2.1 and 15.4.1 and chapter 9 of ECMA-262

  /** The names a statement list declares in its own block. */
  function Declares(stmts: seq<Stmt>): seq<string> {
    if stmts == [] then []
    else
      (if stmts[0].Const? || stmts[0].Let? then [stmts[0].name] else []) + Declares(stmts[1..])
  }

  predicate Distinct(names: seq<string>) {
    forall i, j :: 0 <= i < j < |names| ==> names[i] != names[j]
  }

  /** An infinite default is printed as `inf.0`, which is not JavaScript. */
  predicate DefaultParses(default: Option<Literal>) {
    default.Some? && default.value.FloatLit? ==> IsFinite(default.value.bits)
  }

  function JsLiteral(text: string): Option<string> {
    match LexJs(text) case Some((value, rest)) => (if rest == "" then Some(value) else None) case None => None
  }

  datatype JsConst = JsString(s: string) | JsNumber(i: int) | JsBigInt(i: int) | JsFloat(bits: u64) | JsBool(b: bool)

  /** What a literal evaluates to, if it is one. */
  function ConstOf(code: JsCode): Option<JsConst> {
    match code
    case StringCode(text) => (match JsLiteral(text) case Some(s) => Some(JsString(s)) case None => None)
    case NumberCode(i) => Some(JsNumber(i))
    case BigIntCode(i) => Some(JsBigInt(i))
    case FloatCode(bits) => if IsFinite(bits) then Some(JsFloat(bits)) else None
    case BoolCode(b) => Some(JsBool(b))
  }

  /** A function whose body declares a name twice, or declares its parameter, is a syntax error. */
  predicate Parses(body: Body) {
    && Distinct(Declares(body.stmts)) && "data" !in Declares(body.stmts)
    && forall i :: 0 <= i < |body.params| && body.params[i].1.Some? ==> ConstOf(body.params[i].1.value).Some?
  }

  // Running the emitted program

  datatype JsError = SyntaxError | ReferenceError(name: string) | TypeError | Refused

  datatype Object =
    | Outer(name: string) | ModuleClass(name: string) | Data | Table | TheBatch | Metadata
    | NoColumn | ColumnOf(field: string) | FieldOf(field: string)
    | Undefined | RowValue(field: string) | ArrayValue(field: string) | Constant(c: JsConst)

  type Env = map<string, Object>

  /** What names mean inside the function: what it declares, then the classes of the generated module, then
      what the module imports or defines besides, and the globals. */
  datatype Scope = Scope(declared: set<string>, classes: set<string>) {
    predicate Free(name: string) {
      name !in declared && name !in classes
    }
  }

  /** A declared name is in its dead zone until it is initialized; any other name belongs to the module. */
  function Lookup(name: string, env: Env, scope: Scope): Result<Object, JsError> {
    if name in scope.declared then (if name in env then Ok(env[name]) else Err(ReferenceError(name)))
    else if name in scope.classes then Ok(ModuleClass(name))
    else Ok(Outer(name))
  }

  function Expecting(name: string, wanted: Object, env: Env, scope: Scope): Result<Unit, JsError> {
    var found :- Lookup(name, env, scope);
    if found == wanted then Ok(Unit) else Err(TypeError)
  }

  predicate HasColumn(stream: Stream, field: string) {
    IndexOf(stream.schema.fields, field).Some?
  }

  function TotalRows(batches: seq<Batch>): nat {
    if batches == [] then 0 else batches[0].rows + TotalRows(batches[1..])
  }

  /** The two checks of `table.numRows` and the one of `table.batches`. */
  predicate CountsPass(stream: Stream) {
    TotalRows(stream.batches) == 1 && |stream.batches| <= 1
  }

  /** `laicAssertMetadata` */
  predicate HasMetadata(metadata: map<string, string>, key: string, expected: string) {
    key in metadata && metadata[key] == expected
  }

  /** `laicAssertTensorMetadata` on the field's schema entry. */
  predicate TensorHonored(stream: Stream, field: string, dtype: string, dims: seq<Dimension>) {
    && HasColumn(stream, field)
    && var metadata := stream.schema.fields[IndexOf(stream.schema.fields, field).value].metadata;
    && HasMetadata(metadata, DTYPE_KEY, dtype)
    && SHAPE_KEY in metadata && TypeScriptAccepts(dims, metadata[SHAPE_KEY])
  }

  /** `laicAssertFieldType` on the field's schema entry. */
  predicate TypeHonored(stream: Stream, field: string, expected: DataType) {
    HasColumn(stream, field) && stream.schema.fields[IndexOf(stream.schema.fields, field).value].ty == expected
  }

  function Assert(ok: bool): Result<Unit, JsError> {
    if ok then Ok(Unit) else Err(Refused)
  }

  function ChildOf(field: string, stream: Stream, env: Env, scope: Scope): Result<Object, JsError> {
    var _ :- Expecting("batch", TheBatch, env, scope);
    Ok(if HasColumn(stream, field) then ColumnOf(field) else NoColumn)
  }

  function Eval(e: Expr, stream: Stream, env: Env, scope: Scope): Result<Object, JsError> {
    match e
    case TableFromIpc =>
      var _ :- Expecting("arrow", Outer("arrow"), env, scope);
      var _ :- Expecting("data", Data, env, scope);
      Ok(Table)
    case FirstBatch =>
      var _ :- Expecting("table", Table, env, scope);
      Ok(TheBatch)
    case SchemaMetadata =>
      var _ :- Expecting("laicSchemaMetadata", Outer("laicSchemaMetadata"), env, scope);
      var _ :- Expecting("table", Table, env, scope);
      Ok(Metadata)
    case Child(field) => ChildOf(field, stream, env, scope)
    case SchemaField(field) =>
      var _ :- Expecting("table", Table, env, scope);
      Ok(if HasColumn(stream, field) then FieldOf(field) else Undefined)
    case RowOf(columnVar) =>
      var column :- Lookup(columnVar, env, scope);
      if column.ColumnOf? then Ok(RowValue(column.field)) else Err(TypeError)
    case RowOfChild(field) =>
      var column :- ChildOf(field, stream, env, scope);
      if column.ColumnOf? then Ok(RowValue(field)) else Err(TypeError)
    case ArrayOfChild(field) =>
      var _ :- Expecting("Array", Outer("Array"), env, scope);
      var column :- ChildOf(field, stream, env, scope);
      if column.ColumnOf? then Ok(ArrayValue(field)) else Err(TypeError)
    case Default(code) =>
      (match ConstOf(code) case Some(c) => Ok(Constant(c)) case None => Err(SyntaxError))
  }

  /** Leaving a block: its own names mean again what they meant outside. */
  function Leave(inner: Env, outer: Env, own: seq<string>): Env {
    map n | n in inner.Keys + outer.Keys && (if n in own then n in outer else n in inner) ::
      if n in own then outer[n] else inner[n]
  }

  function Run(stmt: Stmt, stream: Stream, env: Env, scope: Scope): Result<Env, JsError>
    decreases stmt, 0, 0
  {
    match stmt
    case Const(name, init) =>
      var v :- Eval(init, stream, env, scope);
      Ok(env[name := v])
    case Let(name) => Ok(env[name := Undefined])
    case Assign(name, e) =>
      var v :- Eval(e, stream, env, scope);
      if name in env then Ok(env[name := v]) else Err(ReferenceError(name))
    case CheckCounts =>
      var _ :- Expecting("table", Table, env, scope);
      var _ :- Assert(CountsPass(stream));
      Ok(env)
    case AssertMetadata(key, text) =>
      var _ :- Expecting("laicAssertMetadata", Outer("laicAssertMetadata"), env, scope);
      var _ :- Expecting("schemaMetadata", Metadata, env, scope);
      var expected := JsLiteral(text);
      if expected.None? then Err(SyntaxError)
      else
        var _ :- Assert(HasMetadata(stream.schema.metadata, key, expected.value));
        Ok(env)
    case AssertTensor(fieldVar, field, dtype, dims) =>
      var _ :- Expecting("laicAssertTensorMetadata", Outer("laicAssertTensorMetadata"), env, scope);
      var _ :- Expecting(fieldVar, FieldOf(field), env, scope);
      // the helper, outside this function, parses the shape with `Number.parseInt`
      if "Number" in scope.classes then Err(TypeError)
      else
        var _ :- Assert(TensorHonored(stream, field, dtype, dims));
        Ok(env)
    case AssertType(fieldVar, field, expected) =>
      var _ :- Expecting("laicAssertFieldType", Outer("laicAssertFieldType"), env, scope);
      var _ :- Expecting(fieldVar, FieldOf(field), env, scope);
      var _ :- Expecting("arrow", Outer("arrow"), env, scope);
      var _ :- Assert(TypeHonored(stream, field, expected));
      Ok(env)
    case RequireColumn(columnVar) =>
      var column :- Lookup(columnVar, env, scope);
      if column.ColumnOf? then Ok(env) else Err(TypeError)
    case IfNull(columnVar, whenNull, otherwise) =>
      var column :- Lookup(columnVar, env, scope);
      if column.NoColumn? then RunBlock(whenNull, stream, env, scope) else RunBlock(otherwise, stream, env, scope)
  }

  function RunBlock(stmts: seq<Stmt>, stream: Stream, env: Env, scope: Scope): Result<Env, JsError>
    decreases stmts, 1, |stmts|
  {
    var own := Declares(stmts);
    var inner :- RunAll(stmts, stream, map n | n in env && n !in own :: env[n], scope.(declared := scope.declared + (set n | n in own)));
    Ok(Leave(inner, env, own))
  }

  function RunAll(stmts: seq<Stmt>, stream: Stream, env: Env, scope: Scope): Result<Env, JsError>
    decreases stmts, 0, |stmts|
  {
    if stmts == [] then Ok(env)
    else
      var next :- Run(stmts[0], stream, env, scope);
      RunAll(stmts[1..], stream, next, scope)
  }

  function ScopeOf(names: seq<string>, classes: set<string>): Scope {
    Scope({"data"} + (set n | n in names), classes)
  }

  /** The parameters with the arguments that stand at their places. */
  function Instance(params: seq<Parameter>, args: seq<Object>): Env
    requires |params| == |args|
  {
    if params == [] then map[]
    else
      var n := |params| - 1;
      Instance(params[..n], args[..n])[params[n].0 := args[n]]
  }

  /** What `fromIpc` constructs, by parameter, in a module that defines the given classes. */
  function RunBody(body: Body, stream: Stream, classes: set<string>): Result<Env, JsError> {
    if !Parses(body) then Err(SyntaxError)
    else
      var scope := ScopeOf(Declares(body.stmts), classes);
      var env :- RunAll(body.stmts, stream, map["data" := Data], scope);
      var _ :- Expecting(body.className, ModuleClass(body.className), env, scope);
      if |body.params| == |body.result| && forall n :: n in body.result ==> n in env then
        Ok(Instance(body.params, seq(|body.result|, i requires 0 <= i < |body.result| => env[body.result[i]])))
      else Err(TypeError)
  }
}
