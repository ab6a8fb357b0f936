/** When the whole TypeScript deserializer binds every field to its own column, and what it refuses. */
module TypeScriptBodies {
  import opened Wrappers
  import opened Bytes
  import opened Ast
  import opened Shape
  import opened Literals
  import opened Validate
  import opened Specimens
  import opened Arrow
  import opened Records
  import opened TypeScriptDeserialize
  import opened TypeScriptLocals

  // Whole bodies

  /** Every name the fields declare in the function's block, in order. */
  function AllOwn(fields: seq<FieldDef>): seq<string> {
    if fields == [] then [] else AllOwn(fields[..|fields| - 1]) + OwnList(fields[|fields| - 1])
  }

  function LocalNames(def: StructDef): seq<string> {
    ["table", "batch", "schemaMetadata"] + AllOwn(def.fields)
  }

  lemma {:induction false} AllFieldsDeclare(fields: seq<FieldDef>)
    ensures Declares(AllFields(fields)) == AllOwn(fields)
  {
    if fields != [] {
      var n := |fields| - 1;
      AllFieldsDeclare(fields[..n]);
      DeclaresConcat(AllFields(fields[..n]), FieldStmts(fields[n]));
      FieldDeclares(fields[n]);
    }
  }

  lemma OpeningDeclares()
    ensures Declares(OPENING) == ["table", "batch", "schemaMetadata"]
  {
    var h := OPENING;
    assert h == [h[0]] + ([h[1]] + ([h[2]] + ([h[3]] + [])));
    DeclaresFirst(h[3], []);
    DeclaresFirst(h[2], [h[3]] + []);
    DeclaresFirst(h[1], [h[2]] + ([h[3]] + []));
    DeclaresFirst(h[0], [h[1]] + ([h[2]] + ([h[3]] + [])));
  }

  lemma GuardsDeclareNothing(contract: Contract)
    ensures Declares(Guards(contract)) == []
  {
    var g := Guards(contract);
    assert g == [g[0]] + ([g[1]] + ([g[2]] + []));
    DeclaresFirst(g[2], []);
    DeclaresFirst(g[1], [g[2]] + []);
    DeclaresFirst(g[0], [g[1]] + ([g[2]] + []));
  }

  lemma BodyDeclares(body: Body, def: StructDef, contract: Contract)
    requires IsBody(body, def, contract)
    ensures Declares(body.stmts) == LocalNames(def)
  {
    DeclaresConcat(OPENING + Guards(contract), AllFields(def.fields));
    DeclaresConcat(OPENING, Guards(contract));
    OpeningDeclares();
    GuardsDeclareNothing(contract);
    AllFieldsDeclare(def.fields);
  }

  lemma BodyParses(body: Body, def: StructDef, contract: Contract)
    requires IsBody(body, def, contract)
    ensures Parses(body) <==>
            && Distinct(LocalNames(def)) && "data" !in LocalNames(def)
            && forall i :: 0 <= i < |def.fields| ==> DefaultParses(def.fields[i].default)
  {
    BodyDeclares(body, def, contract);
    forall i | 0 <= i < |def.fields|
      ensures (body.params[i].1.Some? ==> ConstOf(body.params[i].1.value).Some?) <==> DefaultParses(def.fields[i].default)
    {
      if def.fields[i].default.Some? {
        DefaultIsRead(def.fields[i].default.value, def.fields[i].ty);
      }
    }
  }

  lemma DistinctParts(a: seq<string>, b: seq<string>)
    requires Distinct(a + b)
    ensures Distinct(a) && Distinct(b) && forall n :: n in a ==> n !in b
  {
    var c := a + b;
    forall i, j | 0 <= i < j < |a| ensures a[i] != a[j] {
      assert c[i] == a[i] && c[j] == a[j];
    }
    forall i, j | 0 <= i < j < |b| ensures b[i] != b[j] {
      assert c[|a| + i] == b[i] && c[|a| + j] == b[j];
    }
    forall n | n in a ensures n !in b {
      var i :| 0 <= i < |a| && a[i] == n;
      forall j | 0 <= j < |b| ensures b[j] != n {
        assert c[i] == n && c[|a| + j] == b[j];
      }
    }
  }

  lemma DistinctConcat(a: seq<string>, b: seq<string>)
    ensures Distinct(a + b) <==> (Distinct(a) && Distinct(b) && forall n :: n in a ==> n !in b)
  {
    var c := a + b;
    if Distinct(c) {
      DistinctParts(a, b);
    }
    if Distinct(a) && Distinct(b) && forall n :: n in a ==> n !in b {
      forall i, j | 0 <= i < j < |c| ensures c[i] != c[j] {
        if j < |a| {
          assert c[i] == a[i] && c[j] == a[j];
        } else if i < |a| {
          assert c[i] == a[i] && a[i] in a && c[j] == b[j - |a|];
        } else {
          assert c[i] == b[i - |a|] && c[j] == b[j - |a|];
        }
      }
    }
  }

  predicate Owned(fields: seq<FieldDef>, n: string) {
    exists i :: 0 <= i < |fields| && n in OwnNames(fields[i])
  }

  lemma OwnedSplits(before: seq<FieldDef>, last: FieldDef, n: string)
    ensures Owned(before + [last], n) <==> Owned(before, n) || n in OwnNames(last)
  {
    var fields := before + [last];
    if i :| 0 <= i < |before| && n in OwnNames(before[i]) {
      assert fields[i] == before[i];
    }
    if n in OwnNames(last) {
      assert fields[|before|] == last;
    }
  }

  lemma {:induction false} OwnedByOne(fields: seq<FieldDef>, n: string)
    ensures n in AllOwn(fields) <==> Owned(fields, n)
  {
    if fields != [] {
      var before, last := fields[..|fields| - 1], fields[|fields| - 1];
      OwnedByOne(before, n);
      OwnListIs(last);
      OwnedSplits(before, last, n);
      assert fields == before + [last];
    }
  }

  /** Nothing that could stop the body, apart from its own declarations. */
  predicate AllNeeds(fields: seq<FieldDef>, stream: Stream, scope: Scope) {
    forall i :: 0 <= i < |fields| ==> Needs(fields[i], stream, scope)
  }

  predicate AllBound(fields: seq<FieldDef>, stream: Stream, env: Env) {
    forall i :: 0 <= i < |fields| ==> fields[i].name in env && env[fields[i].name] == OwnValue(fields[i], stream)
  }

  predicate AllHonored(fields: seq<FieldDef>, stream: Stream) {
    forall i :: 0 <= i < |fields| ==> FieldHonored(stream, fields[i])
  }

  /** The name is one that the field's statements declare beside the field's own. */
  predicate Companion(f: FieldDef, name: string) {
    (HasColumnVar(f) && name == ColumnVar(f.name)) || (HasFieldVar(f) && name == FieldVar(f.name))
  }

  predicate NoCompanions(fields: seq<FieldDef>) {
    forall i, j :: 0 <= i < |fields| && 0 <= j < |fields| ==> !Companion(fields[i], fields[j].name)
  }

  lemma FixedIsOwnName(f: FieldDef, n: string)
    requires n in FIXED_NAMES
    ensures n in OwnNames(f) <==> f.name == n
  {
    CompanionNames(f.name);
  }

  lemma StaysReady(last: FieldDef, stream: Stream, env: Env, after: Env, scope: Scope)
    requires last.name !in FIXED_NAMES && Ready(env, scope) && Binds(last, stream, env, after)
    ensures Ready(after, scope)
  {
    FixedIsOwnName(last, "table");
    FixedIsOwnName(last, "batch");
  }

  /** Binding one more field keeps the others bound. */
  lemma OneMoreBound(before: seq<FieldDef>, last: FieldDef, stream: Stream, env: Env, after: Env)
    requires forall f <- before :: f.name != last.name && !Companion(last, f.name)
    requires AllBound(before, stream, env) && Binds(last, stream, env, after)
    ensures AllBound(before + [last], stream, after)
  {
    forall i | 0 <= i < |before + [last]|
      ensures (before + [last])[i].name in after && after[(before + [last])[i].name] == OwnValue((before + [last])[i], stream)
    {
      if i < |before| {
        assert before[i] in before && before[i].name !in OwnNames(last);
      }
    }
  }

  lemma {:induction false} FieldsRun(fields: seq<FieldDef>, stream: Stream, env: Env, scope: Scope)
    requires Ready(env, scope) && DistinctFields(fields) && NoCompanions(fields)
    requires forall i :: 0 <= i < |fields| ==>
               OwnNames(fields[i]) <= scope.declared && fields[i].name !in FIXED_NAMES
    ensures var r := RunAll(AllFields(fields), stream, env, scope);
            (r.Ok? <==> AllNeeds(fields, stream, scope) && AllHonored(fields, stream))
            && (r.Ok? ==> Ready(r.value, scope) && AllBound(fields, stream, r.value))
  {
    if fields != [] {
      var before, last := fields[..|fields| - 1], fields[|fields| - 1];
      assert fields == before + [last];
      assert forall i :: 0 <= i < |before| ==> before[i] == fields[i];
      FieldsRun(before, stream, env, scope);
      RunConcat(AllFields(before), FieldStmts(last), stream, env, scope);
      var r := RunAll(AllFields(before), stream, env, scope);
      if r.Ok? {
        FieldRuns(last, stream, r.value, scope);
        var all := RunAll(AllFields(fields), stream, env, scope);
        if all.Ok? {
          OneMoreBound(before, last, stream, r.value, all.value);
          StaysReady(last, stream, r.value, all.value, scope);
        }
      }
    }
  }

  const HEADER_ENV: Env := map["data" := Data, "table" := Table, "batch" := TheBatch, "schemaMetadata" := Metadata]

  lemma LiteralReads(value: string)
    ensures JsLiteral(Quoted(value, PythonLike)) == Some(value)
  {
    JsRoundTrip(value, "");
    assert Quoted(value, PythonLike) + "" == Quoted(value, PythonLike);
  }

  lemma DirectionReads(direction: string)
    requires IsDirection(direction)
    ensures JsLiteral("\"" + direction + "\"") == Some(direction)
  {
    PlainText(direction);
    LiteralReads(direction);
  }

  lemma {:induction false} PlainText(s: string)
    requires forall i :: 0 <= i < |s| ==> 'a' <= s[i] <= 'z'
    ensures Escape(s, PythonLike) == s
  {
    if s != "" {
      PlainText(s[1..]);
      assert EscapeChar(s[0], PythonLike) == [s[0]];
    }
  }

  lemma GuardRuns(key: string, text: string, expected: string, rest: seq<Stmt>, stream: Stream, scope: Scope)
    requires "schemaMetadata" in scope.declared && JsLiteral(text) == Some(expected)
    ensures var r := RunAll([AssertMetadata(key, text)] + rest, stream, HEADER_ENV, scope);
            if scope.Free("laicAssertMetadata") && HasMetadata(stream.schema.metadata, key, expected)
            then r == RunAll(rest, stream, HEADER_ENV, scope) else r.Err?
  {
    OuterReached("laicAssertMetadata", HEADER_ENV, scope);
    RunFirst(AssertMetadata(key, text), rest, stream, HEADER_ENV, scope);
  }

  lemma GuardsRun(contract: Contract, stream: Stream, scope: Scope)
    requires "schemaMetadata" in scope.declared && IsDirection(contract.direction)
    ensures var r := RunAll(Guards(contract), stream, HEADER_ENV, scope);
            (r.Ok? <==> scope.Free("laicAssertMetadata") && Announces(contract, stream.schema.metadata))
            && (r.Ok? ==> r.value == HEADER_ENV)
  {
    var g := Guards(contract);
    LiteralReads(contract.skillId);
    LiteralReads(contract.version);
    DirectionReads(contract.direction);
    assert g == [g[0]] + ([g[1]] + ([g[2]] + []));
    GuardRuns(g[0].key, g[0].text, contract.skillId, [g[1]] + ([g[2]] + []), stream, scope);
    GuardRuns(g[1].key, g[1].text, contract.version, [g[2]] + [], stream, scope);
    GuardRuns(g[2].key, g[2].text, contract.direction, [], stream, scope);
  }

  lemma OpeningRuns(stream: Stream, scope: Scope)
    requires FIXED_NAMES <= scope.declared
    ensures var r := RunAll(OPENING, stream, map["data" := Data], scope);
            (r.Ok? <==> scope.Free("arrow") && scope.Free("laicSchemaMetadata") && CountsPass(stream))
            && (r.Ok? ==> r.value == HEADER_ENV)
  {
    var a, b, c, d := Const("table", TableFromIpc), CheckCounts, Const("batch", FirstBatch), Const("schemaMetadata", SchemaMetadata);
    var env0: Env := map["data" := Data];
    var env1 := env0["table" := Table];
    var env2 := env1["batch" := TheBatch];
    assert OPENING == [a] + ([b] + ([c] + [d]));
    OuterReached("arrow", env0, scope);
    RunFirst(a, [b] + ([c] + [d]), stream, env0, scope);
    RunFirst(b, [c] + [d], stream, env1, scope);
    RunFirst(c, [d], stream, env1, scope);
    OuterReached("laicSchemaMetadata", env2, scope);
    RunOne(d, stream, env2, scope);
    assert env2["schemaMetadata" := Metadata] == HEADER_ENV;
  }

  lemma HeaderRuns(contract: Contract, stream: Stream, scope: Scope)
    requires FIXED_NAMES <= scope.declared && IsDirection(contract.direction)
    ensures var r := RunAll(OPENING + Guards(contract), stream, map["data" := Data], scope);
            (r.Ok? <==> scope.Free("arrow") && scope.Free("laicSchemaMetadata") && scope.Free("laicAssertMetadata")
                        && CountsPass(stream) && Announces(contract, stream.schema.metadata))
            && (r.Ok? ==> r.value == HEADER_ENV)
  {
    RunConcat(OPENING, Guards(contract), stream, map["data" := Data], scope);
    OpeningRuns(stream, scope);
    GuardsRun(contract, stream, scope);
  }

  /** What a struct must avoid for its TypeScript deserializer to work: no name may be declared twice, and
      none of the names that the body reads of its module may be declared or defined. */
  predicate BodySafe(def: StructDef, stream: Stream, classes: set<string>) {
    var scope := ScopeOf(LocalNames(def), classes);
    && Distinct(LocalNames(def)) && "data" !in LocalNames(def)
    && scope.Free("arrow") && scope.Free("laicSchemaMetadata") && scope.Free("laicAssertMetadata")
    && def.name !in scope.declared && def.name in classes
    && (forall i :: 0 <= i < |def.fields| ==> DefaultParses(def.fields[i].default))
    && AllNeeds(def.fields, stream, scope)
  }

  lemma FieldsAreLocal(def: StructDef, i: nat, classes: set<string>)
    requires i < |def.fields| && Distinct(LocalNames(def)) && "data" !in LocalNames(def)
    ensures OwnNames(def.fields[i]) <= ScopeOf(LocalNames(def), classes).declared && def.fields[i].name !in FIXED_NAMES
    ensures Distinct(AllOwn(def.fields))
  {
    DistinctConcat(["table", "batch", "schemaMetadata"], AllOwn(def.fields));
    forall n | n in OwnNames(def.fields[i]) ensures n in AllOwn(def.fields) {
      OwnedByOne(def.fields, n);
    }
    assert def.fields[i].name in OwnNames(def.fields[i]);
    assert "table" in ["table", "batch", "schemaMetadata"] && "batch" in ["table", "batch", "schemaMetadata"]
           && "schemaMetadata" in ["table", "batch", "schemaMetadata"];
  }

  lemma AllFieldsRun(def: StructDef, stream: Stream, classes: set<string>)
    requires DistinctFields(def.fields) && Distinct(LocalNames(def)) && "data" !in LocalNames(def)
    ensures var scope := ScopeOf(LocalNames(def), classes);
            var r := RunAll(AllFields(def.fields), stream, HEADER_ENV, scope);
            FIXED_NAMES <= scope.declared
            && (r.Ok? <==> AllNeeds(def.fields, stream, scope) && AllHonored(def.fields, stream))
            && (r.Ok? ==> NoOuters(r.value) && AllBound(def.fields, stream, r.value))
  {
    var scope := ScopeOf(LocalNames(def), classes);
    if def.fields != [] {
      FieldsAreLocal(def, 0, classes);
    }
    forall i | 0 <= i < |def.fields| ensures OwnNames(def.fields[i]) <= scope.declared && def.fields[i].name !in FIXED_NAMES {
      FieldsAreLocal(def, i, classes);
    }
    assert LocalNames(def)[0] == "table" && LocalNames(def)[1] == "batch" && LocalNames(def)[2] == "schemaMetadata";
    OwnDistinctExactly(def.fields);
    FieldsRun(def.fields, stream, HEADER_ENV, scope);
  }

  /** The stream has one batch of one row, announces the contract and honors every field. */
  predicate Honors(def: StructDef, contract: Contract, stream: Stream) {
    CountsPass(stream) && Announces(contract, stream.schema.metadata) && AllHonored(def.fields, stream)
  }

  lemma StmtsRun(body: Body, def: StructDef, contract: Contract, stream: Stream, classes: set<string>)
    requires IsBody(body, def, contract) && IsDirection(contract.direction)
    requires DistinctFields(def.fields) && Distinct(LocalNames(def)) && "data" !in LocalNames(def)
    ensures var scope := ScopeOf(LocalNames(def), classes);
            var r := RunAll(body.stmts, stream, map["data" := Data], scope);
            (r.Ok? <==> scope.Free("arrow") && scope.Free("laicSchemaMetadata") && scope.Free("laicAssertMetadata")
                        && AllNeeds(def.fields, stream, scope) && Honors(def, contract, stream))
            && (r.Ok? ==> NoOuters(r.value) && AllBound(def.fields, stream, r.value))
  {
    var scope := ScopeOf(LocalNames(def), classes);
    AllFieldsRun(def, stream, classes);
    HeaderRuns(contract, stream, scope);
    RunConcat(OPENING + Guards(contract), AllFields(def.fields), stream, map["data" := Data], scope);
  }

  lemma ResultIsBound(body: Body, def: StructDef, contract: Contract, stream: Stream, env: Env)
    requires IsBody(body, def, contract) && AllBound(def.fields, stream, env)
    ensures forall n :: n in body.result ==> n in env
    ensures forall i :: 0 <= i < |def.fields| ==> def.fields[i].name in body.result
  {
    forall n | n in body.result ensures n in env {
      var i :| 0 <= i < |body.result| && body.result[i] == n;
      assert def.fields[i].name == n;
    }
    forall i | 0 <= i < |def.fields| ensures def.fields[i].name in body.result {
      assert body.result[i] == def.fields[i].name;
    }
  }

  /** Parameters and arguments stand in the same order. */
  lemma {:induction false} InstanceIs(params: seq<Parameter>, args: seq<Object>, names: seq<string>, env: Env)
    requires |params| == |args| == |names| && forall n :: n in names ==> n in env
    requires forall i :: 0 <= i < |names| ==> params[i].0 == names[i] && args[i] == env[names[i]]
    ensures Instance(params, args) == map n | n in names :: env[n]
  {
    if names != [] {
      var k := |names| - 1;
      InstanceIs(params[..k], args[..k], names[..k], env);
      assert names == names[..k] + [names[k]];
    }
  }

  lemma RunBodyIs(body: Body, def: StructDef, contract: Contract, stream: Stream, classes: set<string>)
    requires IsBody(body, def, contract) && Parses(body)
    ensures |body.params| == |body.result|
    ensures var scope := ScopeOf(LocalNames(def), classes);
            var r, whole := RunAll(body.stmts, stream, map["data" := Data], scope), RunBody(body, stream, classes);
            if r.Ok? && Expecting(def.name, ModuleClass(def.name), r.value, scope).Ok? && forall n :: n in body.result ==> n in r.value
            then whole == Ok(map n | n in body.result :: r.value[n])
            else whole.Err?
  {
    BodyDeclares(body, def, contract);
    var r := RunAll(body.stmts, stream, map["data" := Data], ScopeOf(LocalNames(def), classes));
    if r.Ok? && forall n :: n in body.result ==> n in r.value {
      var args := seq(|body.result|, i requires 0 <= i < |body.result| => r.value[body.result[i]]);
      InstanceIs(body.params, args, body.result, r.value);
    }
  }

  /** Statement by statement, the body binds every field to its own column, or to its default where the
      column is absent, exactly for the structs with safe names and the streams that honor the contract. */
  lemma BodyBindsExactly(body: Body, def: StructDef, contract: Contract, stream: Stream, classes: set<string>)
    requires Compilable(def) && IsBody(body, def, contract) && IsDirection(contract.direction)
    ensures var r := RunBody(body, stream, classes);
            if BodySafe(def, stream, classes) && Honors(def, contract, stream)
            then r.Ok? && r.value.Keys == (set n | n in body.result) && AllBound(def.fields, stream, r.value)
            else r.Err?
  {
    BodyParses(body, def, contract);
    if Parses(body) {
      RunBodyIs(body, def, contract, stream, classes);
      StmtsRun(body, def, contract, stream, classes);
      var scope := ScopeOf(LocalNames(def), classes);
      var r := RunAll(body.stmts, stream, map["data" := Data], scope);
      if r.Ok? {
        ClassReached(def.name, r.value, scope);
        ResultIsBound(body, def, contract, stream, r.value);
      }
    }
  }

  lemma CarriedFieldIsHonored(f: FieldDef, v: Value, stream: Stream)
    requires OneRow(stream) && Supported(f.ty) && Provides(stream, f, v)
    ensures FieldHonored(stream, f)
  {
    if HasColumn(stream, f.name) && TensorOf(f.ty).Some? {
      ParsersInvertFormat(TensorOf(f.ty).value.1);
    }
  }

  /** Every stream that carries a record passes all checks. */
  lemma CarryingStreamsAreHonored(def: StructDef, contract: Contract, rec: Record, stream: Stream)
    requires Compilable(def) && StreamCarries(def, contract, rec, stream)
    ensures Honors(def, contract, stream)
  {
    assert TotalRows(stream.batches) == stream.batches[0].rows + TotalRows(stream.batches[1..]) && stream.batches[1..] == [];
    forall i | 0 <= i < |def.fields| ensures FieldHonored(stream, def.fields[i]) {
      CarriedFieldIsHonored(def.fields[i], rec[def.fields[i].name], stream);
    }
  }

  /** The constant that stands for a value of a type. */
  predicate Stands(c: JsConst, ty: LaicType, v: Value) {
    match v
    case VLeaf(Str(s)) => c == JsString(s)
    case VLeaf(Bool(b)) => c == JsBool(b)
    case VLeaf(Int(i)) => c == if ty.I64? then JsBigInt(i) else JsNumber(i)
    case VLeaf(Flt(bits)) => c.JsFloat? && c.bits == bits
    case _ => false
  }

  /** The variable of a field is bound to row zero of the column that carries the field's value, or to the
      default that the value is. */
  ghost predicate Holds(f: FieldDef, v: Value, stream: Stream, o: Object)
    requires OneRow(stream)
  {
    match ColumnNamed(stream, f.name)
    case None => o.Constant? && Stands(o.c, f.ty, v)
    case Some(column) =>
      && o == (if f.ty.List? then ArrayValue(f.name) else RowValue(f.name))
      && column.cells != [] && CellCarries(f.ty, v, column.cells[0])
  }

  /** On a stream that carries a record every field of it reaches the class, if the names are safe, and
      nothing does otherwise. */
  lemma BodyDeliversExactly(body: Body, def: StructDef, contract: Contract, rec: Record, stream: Stream, classes: set<string>)
    requires Compilable(def) && IsBody(body, def, contract) && IsDirection(contract.direction)
    requires WellTyped(def, rec) && StreamCarries(def, contract, rec, stream)
    ensures var r := RunBody(body, stream, classes);
            if BodySafe(def, stream, classes)
            then r.Ok? && forall i :: 0 <= i < |def.fields| ==>
                   def.fields[i].name in r.value && Holds(def.fields[i], rec[def.fields[i].name], stream, r.value[def.fields[i].name])
            else r.Err?
  {
    CarryingStreamsAreHonored(def, contract, rec, stream);
    BodyBindsExactly(body, def, contract, stream, classes);
    if BodySafe(def, stream, classes) {
      var env := RunBody(body, stream, classes).value;
      forall i | 0 <= i < |def.fields|
        ensures Holds(def.fields[i], rec[def.fields[i].name], stream, env[def.fields[i].name])
      {
        CarriedFieldIsHeld(def.fields[i], rec[def.fields[i].name], stream);
      }
    }
  }

  lemma CarriedFieldIsHeld(f: FieldDef, v: Value, stream: Stream)
    requires OneRow(stream) && Provides(stream, f, v)
    ensures Holds(f, v, stream, OwnValue(f, stream))
  {
    if f.default.Some? {
      DefaultIsRead(f.default.value, f.ty);
    }
  }

  lemma ClassReached(name: string, env: Env, scope: Scope)
    requires NoOuters(env)
    ensures Expecting(name, ModuleClass(name), env, scope).Ok? <==> name !in scope.declared && name in scope.classes
  {
  }

  // Clashes

  predicate Named(fields: seq<FieldDef>, n: string) {
    exists i :: 0 <= i < |fields| && fields[i].name == n
  }

  /** The declarations clash exactly when a field is called like one of the body's own variables, or like
      the companion of a field. */
  predicate Clash(fields: seq<FieldDef>) {
    || Named(fields, "data") || Named(fields, "table") || Named(fields, "batch") || Named(fields, "schemaMetadata")
    || exists i, j :: 0 <= i < |fields| && 0 <= j < |fields| && Companion(fields[i], fields[j].name)
  }

  lemma OwnNamesMeet(a: FieldDef, b: FieldDef)
    requires a.name != b.name
    ensures OwnNames(a) !! OwnNames(b) <==> !Companion(a, b.name) && !Companion(b, a.name)
  {
    CompanionsDiffer(a.name, b.name);
    CompanionsDiffer(b.name, a.name);
    if Companion(a, b.name) {
      assert b.name in OwnNames(a) && b.name in OwnNames(b);
    }
    if Companion(b, a.name) {
      assert a.name in OwnNames(a) && a.name in OwnNames(b);
    }
  }

  predicate Apart(before: seq<FieldDef>, last: FieldDef) {
    forall i :: 0 <= i < |before| ==> !Companion(before[i], last.name) && !Companion(last, before[i].name)
  }

  lemma NoCompanionsSplits(before: seq<FieldDef>, last: FieldDef)
    ensures NoCompanions(before + [last]) <==> NoCompanions(before) && Apart(before, last)
  {
    var fields := before + [last];
    assert fields[|before|] == last;
    assert forall i :: 0 <= i < |before| ==> fields[i] == before[i];
    CompanionNames(last.name);
    if NoCompanions(fields) {
      forall i | 0 <= i < |before| ensures !Companion(before[i], last.name) && !Companion(last, before[i].name) {
        assert !Companion(fields[i], fields[|before|].name) && !Companion(fields[|before|], fields[i].name);
      }
      forall i, j | 0 <= i < |before| && 0 <= j < |before| ensures !Companion(before[i], before[j].name) {
        assert !Companion(fields[i], fields[j].name);
      }
    }
  }

  lemma OwnedApart(before: seq<FieldDef>, last: FieldDef)
    requires forall i :: 0 <= i < |before| ==> before[i].name != last.name
    ensures (forall n :: n in AllOwn(before) ==> n !in OwnList(last)) <==> Apart(before, last)
  {
    OwnListIs(last);
    forall i | 0 <= i < |before|
      ensures OwnNames(before[i]) !! OwnNames(last) <==> !Companion(before[i], last.name) && !Companion(last, before[i].name)
    {
      OwnNamesMeet(before[i], last);
    }
    forall n ensures n in AllOwn(before) <==> Owned(before, n) {
      OwnedByOne(before, n);
    }
    if forall n :: n in AllOwn(before) ==> n !in OwnList(last) {
      forall i | 0 <= i < |before| ensures OwnNames(before[i]) !! OwnNames(last) {
        forall n | n in OwnNames(before[i]) ensures n !in OwnNames(last) {
          assert Owned(before, n);
        }
      }
    }
  }

  lemma {:induction false} OwnDistinctExactly(fields: seq<FieldDef>)
    requires DistinctFields(fields)
    ensures Distinct(AllOwn(fields)) <==> NoCompanions(fields)
  {
    if fields != [] {
      var before, last := fields[..|fields| - 1], fields[|fields| - 1];
      assert fields == before + [last];
      assert forall i :: 0 <= i < |before| ==> before[i].name != last.name;
      OwnDistinctExactly(before);
      DistinctConcat(AllOwn(before), OwnList(last));
      OwnListIs(last);
      OwnedApart(before, last);
      NoCompanionsSplits(before, last);
    }
  }

  lemma FixedOwned(fields: seq<FieldDef>, n: string)
    requires n in FIXED_NAMES
    ensures n in AllOwn(fields) <==> Named(fields, n)
  {
    OwnedByOne(fields, n);
    if Owned(fields, n) {
      var i :| 0 <= i < |fields| && n in OwnNames(fields[i]);
      FixedIsOwnName(fields[i], n);
    }
    if Named(fields, n) {
      var i :| 0 <= i < |fields| && fields[i].name == n;
      FixedIsOwnName(fields[i], n);
    }
  }

  lemma ClashesExactly(def: StructDef)
    requires DistinctFields(def.fields)
    ensures Distinct(LocalNames(def)) && "data" !in LocalNames(def) <==> !Clash(def.fields)
  {
    DistinctConcat(["table", "batch", "schemaMetadata"], AllOwn(def.fields));
    OwnDistinctExactly(def.fields);
    FixedOwned(def.fields, "data");
    FixedOwned(def.fields, "table");
    FixedOwned(def.fields, "batch");
    FixedOwned(def.fields, "schemaMetadata");
  }

  function Captured(): StructDef {
    Two("R", TEXT, FieldDef("x_column", StringT, None))
  }

  /** A field called `x_column` beside a field `x` is accepted, and then the module does not even parse. */
  lemma CompanionCaptured(body: Body, contract: Contract, stream: Stream, classes: set<string>)
    requires IsBody(body, Captured(), contract)
    ensures StructOk(Captured(), RESERVED)
    ensures RunBody(body, stream, classes) == Err(SyntaxError)
  {
    TwoAreAccepted("R", TEXT, FieldDef("x_column", StringT, None));
    BodyDeclares(body, Captured(), contract);
    CapturedClashes();
  }

  lemma CapturedClashes()
    ensures !(Distinct(LocalNames(Captured())) && "data" !in LocalNames(Captured()))
  {
    ClashesExactly(Captured());
    assert Companion(Captured().fields[0], Captured().fields[1].name);
  }
}
