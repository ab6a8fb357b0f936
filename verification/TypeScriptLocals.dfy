/** The TypeScript deserializer's names, and what running one field's statements binds. */
module TypeScriptLocals {
  import opened Wrappers
  import opened Ast
  import opened Literals
  import opened Validate
  import opened Arrow
  import opened Records
  import opened TypeScriptDeserialize

  // Running statements

  lemma {:induction false} RunConcat(a: seq<Stmt>, b: seq<Stmt>, stream: Stream, env: Env, scope: Scope)
    ensures var r := RunAll(a, stream, env, scope);
            RunAll(a + b, stream, env, scope) == if r.Err? then Err(r.error) else RunAll(b, stream, r.value, scope)
  {
    if a == [] {
      assert a + b == b;
    } else {
      assert (a + b)[1..] == a[1..] + b;
      var first := Run(a[0], stream, env, scope);
      if first.Ok? {
        RunConcat(a[1..], b, stream, first.value, scope);
      }
    }
  }

  lemma RunFirst(stmt: Stmt, rest: seq<Stmt>, stream: Stream, env: Env, scope: Scope)
    ensures var r := Run(stmt, stream, env, scope);
            RunAll([stmt] + rest, stream, env, scope) == if r.Err? then Err(r.error) else RunAll(rest, stream, r.value, scope)
  {
    assert ([stmt] + rest)[1..] == rest;
  }

  lemma RunOne(stmt: Stmt, stream: Stream, env: Env, scope: Scope)
    ensures RunAll([stmt], stream, env, scope) == Run(stmt, stream, env, scope)
  {
    assert [stmt][1..] == [];
  }

  lemma {:induction false} DeclaresConcat(a: seq<Stmt>, b: seq<Stmt>)
    ensures Declares(a + b) == Declares(a) + Declares(b)
  {
    if a == [] {
      assert a + b == b;
    } else {
      assert (a + b)[1..] == a[1..] + b;
      DeclaresConcat(a[1..], b);
    }
  }

  // Names

  predicate HasColumnVar(f: FieldDef) {
    f.ty.Optional? || (IsLeaf(f.ty) && !f.ty.Tensor?)
  }

  /** A scalar with a default declares this one in an inner block, where it clashes with nothing. */
  predicate HasFieldVar(f: FieldDef) {
    TensorOf(f.ty).Some? || (IsLeaf(f.ty) && !f.ty.Tensor? && f.default.None?)
  }

  /** The names a field's statements declare in the function's block. */
  function OwnNames(f: FieldDef): set<string> {
    {f.name} + (if HasColumnVar(f) then {ColumnVar(f.name)} else {}) + (if HasFieldVar(f) then {FieldVar(f.name)} else {})
  }

  const OUTER_NAMES: set<string> := {"arrow", "Array", "laicSchemaMetadata", "laicAssertMetadata",
                                     "laicAssertTensorMetadata", "laicAssertFieldType"}
  const FIXED_NAMES: set<string> := {"data", "table", "batch", "schemaMetadata"}

  /** The companions of a field's variable are told apart by their endings. */
  lemma CompanionNames(n: string)
    ensures ColumnVar(n) != n && FieldVar(n) != n
    ensures ColumnVar(n) !in OUTER_NAMES + FIXED_NAMES && FieldVar(n) !in OUTER_NAMES + FIXED_NAMES
  {
    var c, f := ColumnVar(n), FieldVar(n);
    assert c[|c| - 1] == 'n' && f[|f| - 1] == 'd' && |c| > 6 && |f| > 5;
  }

  lemma CompanionsDiffer(n: string, m: string)
    ensures ColumnVar(n) != FieldVar(m)
    ensures ColumnVar(n) == ColumnVar(m) ==> n == m
    ensures FieldVar(n) == FieldVar(m) ==> n == m
  {
    var c, f := ColumnVar(n), FieldVar(m);
    assert c[|c| - 1] == 'n' && f[|f| - 1] == 'd';
    assert n == ColumnVar(n)[..|ColumnVar(n)| - 7] && m == ColumnVar(m)[..|ColumnVar(m)| - 7];
    assert n == FieldVar(n)[..|FieldVar(n)| - 6] && m == FieldVar(m)[..|FieldVar(m)| - 6];
  }

  lemma DeclaresFirst(stmt: Stmt, rest: seq<Stmt>)
    ensures Declares([stmt] + rest) == (if stmt.Const? || stmt.Let? then [stmt.name] else []) + Declares(rest)
  {
    assert ([stmt] + rest)[1..] == rest;
  }

  /** The names a field's statements declare in the function's block, in order. */
  function OwnList(f: FieldDef): seq<string> {
    (if TensorOf(f.ty).Some? then [FieldVar(f.name)] else [])
    + (if HasColumnVar(f) then [ColumnVar(f.name)] else [])
    + (if TensorOf(f.ty).None? && HasFieldVar(f) then [FieldVar(f.name)] else [])
    + [f.name]
  }

  lemma TensorCheckDeclares(field: string, dtype: TensorElementType, dims: seq<Dimension>, rest: seq<Stmt>)
    ensures Declares(TensorCheck(field, dtype, dims) + rest) == [FieldVar(field)] + Declares(rest)
  {
    var check := TensorCheck(field, dtype, dims);
    assert check + rest == [check[0]] + ([check[1]] + rest);
    DeclaresFirst(check[0], [check[1]] + rest);
    DeclaresFirst(check[1], rest);
  }

  lemma OptionalDeclares(n: string)
    ensures Declares([Const(ColumnVar(n), Child(n)), RequireColumn(ColumnVar(n)), Const(n, RowOf(ColumnVar(n)))]) == [ColumnVar(n), n]
  {
    var a, b, c := Const(ColumnVar(n), Child(n)), RequireColumn(ColumnVar(n)), Const(n, RowOf(ColumnVar(n)));
    assert [a, b, c] == [a] + ([b] + ([c] + []));
    DeclaresFirst(c, []);
    DeclaresFirst(b, [c] + []);
    DeclaresFirst(a, [b] + ([c] + []));
  }

  lemma ScalarDeclares(f: FieldDef)
    requires IsLeaf(f.ty) && !f.ty.Tensor?
    ensures Declares(FieldStmts(f)) == OwnList(f)
  {
    var s := FieldStmts(f);
    if f.default.Some? {
      assert s == [s[0]] + ([s[1]] + ([s[2]] + []));
      DeclaresFirst(s[2], []);
      DeclaresFirst(s[1], [s[2]] + []);
      DeclaresFirst(s[0], [s[1]] + ([s[2]] + []));
    } else {
      assert s == [s[0]] + ([s[1]] + ([s[2]] + ([s[3]] + ([s[4]] + []))));
      DeclaresFirst(s[4], []);
      DeclaresFirst(s[3], [s[4]] + []);
      DeclaresFirst(s[2], [s[3]] + ([s[4]] + []));
      DeclaresFirst(s[1], [s[2]] + ([s[3]] + ([s[4]] + [])));
      DeclaresFirst(s[0], [s[1]] + ([s[2]] + ([s[3]] + ([s[4]] + []))));
    }
  }

  /** The statements behind the tensor check of a container or tensor. */
  function ContainerTail(f: FieldDef): seq<Stmt> {
    var n := f.name;
    match f.ty
    case List(_) => [Const(n, ArrayOfChild(n))]
    case Optional(_) => [Const(ColumnVar(n), Child(n)), RequireColumn(ColumnVar(n)), Const(n, RowOf(ColumnVar(n)))]
    case _ => [Const(n, RowOfChild(n))]
  }

  /** The tensor check of a container or tensor, if it has one. */
  function ContainerHead(f: FieldDef): seq<Stmt> {
    match TensorOf(f.ty) case Some((dtype, dims)) => TensorCheck(f.name, dtype, dims) case None => []
  }

  lemma ContainerStmts(f: FieldDef)
    requires !IsLeaf(f.ty) || f.ty.Tensor?
    ensures FieldStmts(f) == ContainerHead(f) + ContainerTail(f)
  {
  }

  lemma TailDeclares(f: FieldDef)
    ensures Declares(ContainerTail(f)) == (if f.ty.Optional? then [ColumnVar(f.name)] else []) + [f.name]
  {
    if f.ty.Optional? {
      OptionalDeclares(f.name);
    } else {
      assert ContainerTail(f)[1..] == [];
    }
  }

  lemma FieldDeclares(f: FieldDef)
    ensures Declares(FieldStmts(f)) == OwnList(f)
  {
    if IsLeaf(f.ty) && !f.ty.Tensor? {
      ScalarDeclares(f);
    } else {
      ContainerStmts(f);
      TailDeclares(f);
      if TensorOf(f.ty).Some? {
        TensorCheckDeclares(f.name, TensorOf(f.ty).value.0, TensorOf(f.ty).value.1, ContainerTail(f));
      } else {
        assert FieldStmts(f) == ContainerTail(f);
      }
    }
  }

  lemma OwnListIs(f: FieldDef)
    ensures forall n :: n in OwnList(f) <==> n in OwnNames(f)
    ensures Distinct(OwnList(f))
  {
    CompanionNames(f.name);
    CompanionsDiffer(f.name, f.name);
  }

  // Fields

  predicate NoOuters(env: Env) {
    forall n :: n in env ==> !env[n].Outer? && !env[n].ModuleClass?
  }

  /** The header's variables are in place. */
  predicate Ready(env: Env, scope: Scope) {
    && NoOuters(env) && "table" in scope.declared && "batch" in scope.declared
    && "table" in env && env["table"] == Table && "batch" in env && env["batch"] == TheBatch
  }

  lemma OuterReached(name: string, env: Env, scope: Scope)
    requires NoOuters(env)
    ensures Expecting(name, Outer(name), env, scope).Ok? <==> scope.Free(name)
  {
  }

  /** A default can be read exactly if it is finite. */
  lemma DefaultIsRead(lit: Literal, ty: LaicType)
    ensures ConstOf(LiteralToTs(lit, ty)).Some? <==> DefaultParses(Some(lit))
    ensures lit.StringLit? ==> ConstOf(LiteralToTs(lit, ty)) == Some(JsString(lit.s))
  {
    if lit.StringLit? {
      JsRoundTrip(lit.s, "");
      assert Quoted(lit.s, PythonLike) + "" == Quoted(lit.s, PythonLike);
    }
  }

  function OwnDefault(f: FieldDef): Object {
    match f.default
    case None => Undefined
    case Some(lit) => (match ConstOf(LiteralToTs(lit, f.ty)) case Some(c) => Constant(c) case None => Undefined)
  }

  /** The field's own column decides its value. */
  function OwnValue(f: FieldDef, stream: Stream): Object {
    if !HasColumn(stream, f.name) then OwnDefault(f)
    else if f.ty.List? then ArrayValue(f.name)
    else RowValue(f.name)
  }

  /** The outer names a field's statements read, and what a helper reads for them. */
  predicate Needs(f: FieldDef, stream: Stream, scope: Scope) {
    && (TensorOf(f.ty).Some? ==> scope.Free("laicAssertTensorMetadata") && "Number" !in scope.classes)
    && (f.ty.List? ==> scope.Free("Array"))
    && (IsLeaf(f.ty) && !f.ty.Tensor? && HasColumn(stream, f.name) ==> scope.Free("laicAssertFieldType") && scope.Free("arrow"))
    && (!HasColumn(stream, f.name) ==> DefaultParses(f.default))
  }

  /** Tensors announce the declared element type, rank and fixed sizes, a scalar's field has the declared
      type, and only a scalar with a default may be absent. */
  predicate FieldHonored(stream: Stream, f: FieldDef) {
    if !HasColumn(stream, f.name) then f.default.Some? && IsLeaf(f.ty) && !f.ty.Tensor?
    else
      && (TensorOf(f.ty).Some? ==> TensorHonored(stream, f.name, DtypeName(TensorOf(f.ty).value.0), TensorOf(f.ty).value.1))
      && (IsLeaf(f.ty) && !f.ty.Tensor? ==> TypeHonored(stream, f.name, LeafType(f.ty)))
  }

  /** Only the field's own names have changed, and its variable holds its value. */
  ghost predicate Binds(f: FieldDef, stream: Stream, env: Env, after: Env) {
    && f.name in after && after[f.name] == OwnValue(f, stream) && NoOuters(after)
    && (forall n :: n !in OwnNames(f) ==> (n in after <==> n in env))
    && (forall n :: n !in OwnNames(f) && n in env && n in after ==> after[n] == env[n])
  }

  predicate Placed(f: FieldDef, env: Env, scope: Scope) {
    Ready(env, scope) && OwnNames(f) <= scope.declared && f.name !in FIXED_NAMES
  }

  ghost predicate RunsOwn(f: FieldDef, stream: Stream, env: Env, scope: Scope) {
    var r := RunAll(FieldStmts(f), stream, env, scope);
    (r.Ok? <==> Needs(f, stream, scope) && FieldHonored(stream, f)) && (r.Ok? ==> Binds(f, stream, env, r.value))
  }

  lemma TensorCheckRuns(n: string, dtype: TensorElementType, dims: seq<Dimension>, stream: Stream, env: Env, scope: Scope)
    requires Ready(env, scope) && FieldVar(n) in scope.declared
    ensures var r := RunAll(TensorCheck(n, dtype, dims), stream, env, scope);
            (r.Ok? <==> scope.Free("laicAssertTensorMetadata") && "Number" !in scope.classes
                        && TensorHonored(stream, n, DtypeName(dtype), dims))
            && (r.Ok? ==> r.value == env[FieldVar(n) := FieldOf(n)])
  {
    var a, b := Const(FieldVar(n), SchemaField(n)), AssertTensor(FieldVar(n), n, DtypeName(dtype), dims);
    var env1 := env[FieldVar(n) := if HasColumn(stream, n) then FieldOf(n) else Undefined];
    assert TensorCheck(n, dtype, dims) == [a] + [b];
    RunFirst(a, [b], stream, env, scope);
    RunOne(b, stream, env1, scope);
    OuterReached("laicAssertTensorMetadata", env1, scope);
  }

  lemma OptionalTailRuns(n: string, stream: Stream, env: Env, scope: Scope)
    requires Ready(env, scope) && ColumnVar(n) in scope.declared
    ensures var r := RunAll([Const(ColumnVar(n), Child(n)), RequireColumn(ColumnVar(n)), Const(n, RowOf(ColumnVar(n)))], stream, env, scope);
            if HasColumn(stream, n) then r == Ok(env[ColumnVar(n) := ColumnOf(n)][n := RowValue(n)]) else r.Err?
  {
    var a, b, c := Const(ColumnVar(n), Child(n)), RequireColumn(ColumnVar(n)), Const(n, RowOf(ColumnVar(n)));
    var env1 := env[ColumnVar(n) := if HasColumn(stream, n) then ColumnOf(n) else NoColumn];
    assert [a, b, c] == [a] + ([b] + [c]);
    RunFirst(a, [b] + [c], stream, env, scope);
    RunFirst(b, [c], stream, env1, scope);
    RunOne(c, stream, env1, scope);
  }

  lemma ListTailRuns(n: string, stream: Stream, env: Env, scope: Scope)
    requires Ready(env, scope)
    ensures var r := RunAll([Const(n, ArrayOfChild(n))], stream, env, scope);
            (r.Ok? <==> HasColumn(stream, n) && scope.Free("Array")) && (r.Ok? ==> r.value == env[n := ArrayValue(n)])
  {
    RunOne(Const(n, ArrayOfChild(n)), stream, env, scope);
    OuterReached("Array", env, scope);
  }

  lemma RowTailRuns(n: string, stream: Stream, env: Env, scope: Scope)
    requires Ready(env, scope)
    ensures var r := RunAll([Const(n, RowOfChild(n))], stream, env, scope);
            (r.Ok? <==> HasColumn(stream, n)) && (r.Ok? ==> r.value == env[n := RowValue(n)])
  {
    RunOne(Const(n, RowOfChild(n)), stream, env, scope);
  }

  /** One tail per container, after the tensor check if there is one. */
  lemma ContainerTailRuns(f: FieldDef, stream: Stream, env: Env, scope: Scope)
    requires Placed(f, env, scope) && (!IsLeaf(f.ty) || f.ty.Tensor?)
    ensures var r := RunAll(ContainerTail(f), stream, env, scope);
            (r.Ok? <==> HasColumn(stream, f.name) && (f.ty.List? ==> scope.Free("Array")))
            && (r.Ok? ==> Binds(f, stream, env, r.value))
  {
    CompanionNames(f.name);
    if f.ty.Optional? {
      OptionalTailRuns(f.name, stream, env, scope);
    } else if f.ty.List? {
      ListTailRuns(f.name, stream, env, scope);
    } else {
      RowTailRuns(f.name, stream, env, scope);
    }
  }

  lemma ContainerRuns(f: FieldDef, stream: Stream, env: Env, scope: Scope)
    requires Placed(f, env, scope) && (!IsLeaf(f.ty) || f.ty.Tensor?)
    ensures RunsOwn(f, stream, env, scope)
  {
    var n := f.name;
    CompanionNames(n);
    ContainerStmts(f);
    if TensorOf(f.ty).Some? {
      var (dtype, dims) := TensorOf(f.ty).value;
      RunConcat(TensorCheck(n, dtype, dims), ContainerTail(f), stream, env, scope);
      TensorCheckRuns(n, dtype, dims, stream, env, scope);
      ContainerTailRuns(f, stream, env[FieldVar(n) := FieldOf(n)], scope);
    } else {
      assert FieldStmts(f) == ContainerTail(f);
      ContainerTailRuns(f, stream, env, scope);
    }
  }

  lemma TypeAsserted(n: string, expected: DataType, stream: Stream, env: Env, scope: Scope)
    requires NoOuters(env) && FieldVar(n) in scope.declared && FieldVar(n) in env && env[FieldVar(n)] == FieldOf(n)
    ensures var r := Run(AssertType(FieldVar(n), n, expected), stream, env, scope);
            if scope.Free("laicAssertFieldType") && scope.Free("arrow") && TypeHonored(stream, n, expected)
            then r == Ok(env) else r.Err?
  {
    OuterReached("laicAssertFieldType", env, scope);
    OuterReached("arrow", env, scope);
  }

  /** Taking the field's schema entry and asserting its type. */
  lemma AssertTypeRuns(n: string, expected: DataType, last: Stmt, stream: Stream, env: Env, scope: Scope)
    requires Ready(env, scope) && HasColumn(stream, n) && FieldVar(n) in scope.declared
    ensures var r := RunAll([Const(FieldVar(n), SchemaField(n))] + ([AssertType(FieldVar(n), n, expected)] + [last]), stream, env, scope);
            if scope.Free("laicAssertFieldType") && scope.Free("arrow") && TypeHonored(stream, n, expected)
            then r == Run(last, stream, env[FieldVar(n) := FieldOf(n)], scope)
            else r.Err?
  {
    var a, b := Const(FieldVar(n), SchemaField(n)), AssertType(FieldVar(n), n, expected);
    var env1 := env[FieldVar(n) := FieldOf(n)];
    RunFirst(a, [b] + [last], stream, env, scope);
    RunFirst(b, [last], stream, env1, scope);
    RunOne(last, stream, env1, scope);
    TypeAsserted(n, expected, stream, env1, scope);
  }

  /** The statements of a scalar without a default behind the check for its column. */
  lemma PlainRestRuns(n: string, expected: DataType, stream: Stream, env: Env, scope: Scope)
    requires Ready(env, scope) && HasColumn(stream, n) && FieldVar(n) in scope.declared
    requires ColumnVar(n) in scope.declared && ColumnVar(n) in env && env[ColumnVar(n)] == ColumnOf(n)
    ensures var r := RunAll([Const(FieldVar(n), SchemaField(n))] + ([AssertType(FieldVar(n), n, expected)] + [Const(n, RowOf(ColumnVar(n)))]),
                            stream, env, scope);
            (r.Ok? <==> scope.Free("laicAssertFieldType") && scope.Free("arrow") && TypeHonored(stream, n, expected))
            && (r.Ok? ==> r.value == env[FieldVar(n) := FieldOf(n)][n := RowValue(n)])
  {
    CompanionsDiffer(n, n);
    AssertTypeRuns(n, expected, Const(n, RowOf(ColumnVar(n))), stream, env, scope);
  }

  lemma PlainHeadRuns(n: string, rest: seq<Stmt>, stream: Stream, env: Env, scope: Scope)
    requires Ready(env, scope) && ColumnVar(n) in scope.declared
    ensures var r := RunAll([Const(ColumnVar(n), Child(n))] + ([RequireColumn(ColumnVar(n))] + rest), stream, env, scope);
            if HasColumn(stream, n) then r == RunAll(rest, stream, env[ColumnVar(n) := ColumnOf(n)], scope) else r.Err?
  {
    var env1 := env[ColumnVar(n) := if HasColumn(stream, n) then ColumnOf(n) else NoColumn];
    RunFirst(Const(ColumnVar(n), Child(n)), [RequireColumn(ColumnVar(n))] + rest, stream, env, scope);
    RunFirst(RequireColumn(ColumnVar(n)), rest, stream, env1, scope);
  }

  lemma PlainScalarRuns(f: FieldDef, stream: Stream, env: Env, scope: Scope)
    requires Placed(f, env, scope) && IsLeaf(f.ty) && !f.ty.Tensor? && f.default.None?
    ensures RunsOwn(f, stream, env, scope)
  {
    var n := f.name;
    CompanionNames(n);
    var rest := [Const(FieldVar(n), SchemaField(n))] + ([AssertType(FieldVar(n), n, LeafType(f.ty))] + [Const(n, RowOf(ColumnVar(n)))]);
    assert FieldStmts(f) == [Const(ColumnVar(n), Child(n))] + ([RequireColumn(ColumnVar(n))] + rest);
    PlainHeadRuns(n, rest, stream, env, scope);
    if HasColumn(stream, n) {
      PlainRestRuns(n, LeafType(f.ty), stream, env[ColumnVar(n) := ColumnOf(n)], scope);
    }
  }

  lemma DefaultedBlockDeclares(n: string, expected: DataType)
    ensures Declares(DefaultedBlock(n, expected)) == [FieldVar(n)]
  {
    var s := DefaultedBlock(n, expected);
    assert s == [s[0]] + ([s[1]] + ([s[2]] + []));
    DeclaresFirst(s[2], []);
    DeclaresFirst(s[1], [s[2]] + []);
    DeclaresFirst(s[0], [s[1]] + ([s[2]] + []));
  }

  /** The statements of the inner block, inside its own scope. */
  lemma InsideBlockRuns(n: string, expected: DataType, stream: Stream, env: Env, scope: Scope)
    requires Ready(env, scope) && HasColumn(stream, n) && n in env && FieldVar(n) in scope.declared
    requires ColumnVar(n) in scope.declared && ColumnVar(n) in env && env[ColumnVar(n)] == ColumnOf(n)
    ensures var r := RunAll(DefaultedBlock(n, expected), stream, env, scope);
            (r.Ok? <==> scope.Free("laicAssertFieldType") && scope.Free("arrow") && TypeHonored(stream, n, expected))
            && (r.Ok? ==> r.value == env[FieldVar(n) := FieldOf(n)][n := RowValue(n)])
  {
    CompanionNames(n);
    CompanionsDiffer(n, n);
    var s := DefaultedBlock(n, expected);
    assert s == [s[0]] + ([s[1]] + [s[2]]);
    AssertTypeRuns(n, expected, s[2], stream, env, scope);
  }

  /** The inner block of a scalar with a default. */
  lemma DefaultedBlockRuns(n: string, expected: DataType, stream: Stream, env: Env, scope: Scope)
    requires Ready(env, scope) && HasColumn(stream, n) && n in scope.declared && n in env
    requires ColumnVar(n) in scope.declared && ColumnVar(n) in env && env[ColumnVar(n)] == ColumnOf(n)
    ensures var r := RunBlock(DefaultedBlock(n, expected), stream, env, scope);
            (r.Ok? <==> scope.Free("laicAssertFieldType") && scope.Free("arrow") && TypeHonored(stream, n, expected))
            && (r.Ok? ==> r.value == env[n := RowValue(n)])
  {
    CompanionNames(n);
    CompanionsDiffer(n, n);
    DefaultedBlockDeclares(n, expected);
    var own := [FieldVar(n)];
    var env0: Env := map m | m in env && m !in own :: env[m];
    var inside := scope.(declared := scope.declared + (set m | m in own));
    InsideBlockRuns(n, expected, stream, env0, inside);
    var r := RunAll(DefaultedBlock(n, expected), stream, env0, inside);
    if r.Ok? {
      assert Leave(r.value, env, own) == env[n := RowValue(n)];
    }
  }

  lemma AbsentBlockRuns(n: string, code: JsCode, stream: Stream, env: Env, scope: Scope)
    requires n in env
    ensures RunBlock([Assign(n, Default(code))], stream, env, scope)
            == match ConstOf(code) case Some(c) => Ok(env[n := Constant(c)]) case None => Err(SyntaxError)
  {
    var block := [Assign(n, Default(code))];
    assert block[1..] == [] && Declares(block) == [];
    assert (map m | m in env && m !in Declares(block) :: env[m]) == env;
    RunOne(block[0], stream, env, scope.(declared := scope.declared + (set m | m in Declares(block))));
    if ConstOf(code).Some? {
      var after := env[n := Constant(ConstOf(code).value)];
      assert Leave(after, env, []) == after;
    }
  }

  lemma DefaultedHeadRuns(n: string, last: Stmt, stream: Stream, env: Env, scope: Scope)
    requires Ready(env, scope)
    ensures var env2 := env[ColumnVar(n) := if HasColumn(stream, n) then ColumnOf(n) else NoColumn][n := Undefined];
            RunAll([Const(ColumnVar(n), Child(n)), Let(n), last], stream, env, scope) == Run(last, stream, env2, scope)
  {
    var env1 := env[ColumnVar(n) := if HasColumn(stream, n) then ColumnOf(n) else NoColumn];
    var a, b := Const(ColumnVar(n), Child(n)), Let(n);
    assert [a, b, last] == [a] + ([b] + [last]);
    RunFirst(a, [b] + [last], stream, env, scope);
    RunFirst(b, [last], stream, env1, scope);
    RunOne(last, stream, env1[n := Undefined], scope);
  }

  /** The branch that runs, by whether there is a column. */
  lemma DefaultedBranchRuns(n: string, code: JsCode, expected: DataType, stream: Stream, env: Env, scope: Scope)
    requires Ready(env, scope) && n in scope.declared && n in env && ColumnVar(n) in scope.declared
    requires ColumnVar(n) in env && env[ColumnVar(n)] == if HasColumn(stream, n) then ColumnOf(n) else NoColumn
    ensures var r := Run(IfNull(ColumnVar(n), [Assign(n, Default(code))], DefaultedBlock(n, expected)), stream, env, scope);
            (r.Ok? <==> if HasColumn(stream, n)
                        then scope.Free("laicAssertFieldType") && scope.Free("arrow") && TypeHonored(stream, n, expected)
                        else ConstOf(code).Some?)
            && (r.Ok? ==> r.value == env[n := if HasColumn(stream, n) then RowValue(n) else Constant(ConstOf(code).value)])
  {
    if HasColumn(stream, n) {
      DefaultedBlockRuns(n, expected, stream, env, scope);
    } else {
      AbsentBlockRuns(n, code, stream, env, scope);
    }
  }

  lemma DefaultedScalarRuns(f: FieldDef, stream: Stream, env: Env, scope: Scope)
    requires Placed(f, env, scope) && IsLeaf(f.ty) && !f.ty.Tensor? && f.default.Some?
    ensures RunsOwn(f, stream, env, scope)
  {
    var n := f.name;
    CompanionNames(n);
    var code := LiteralToTs(f.default.value, f.ty);
    var last := IfNull(ColumnVar(n), [Assign(n, Default(code))], DefaultedBlock(n, LeafType(f.ty)));
    var env2 := env[ColumnVar(n) := if HasColumn(stream, n) then ColumnOf(n) else NoColumn][n := Undefined];
    assert FieldStmts(f) == [Const(ColumnVar(n), Child(n)), Let(n), last];
    DefaultedHeadRuns(n, last, stream, env, scope);
    DefaultedBranchRuns(n, code, LeafType(f.ty), stream, env2, scope);
    DefaultIsRead(f.default.value, f.ty);
  }

  /** A field's statements bind it to its own column or default and change no other name, exactly when they
      reach the outer names they read and the stream honors the field. */
  lemma FieldRuns(f: FieldDef, stream: Stream, env: Env, scope: Scope)
    requires Placed(f, env, scope)
    ensures RunsOwn(f, stream, env, scope)
  {
    if !IsLeaf(f.ty) || f.ty.Tensor? {
      ContainerRuns(f, stream, env, scope);
    } else if f.default.Some? {
      DefaultedScalarRuns(f, stream, env, scope);
    } else {
      PlainScalarRuns(f, stream, env, scope);
    }
  }
}
