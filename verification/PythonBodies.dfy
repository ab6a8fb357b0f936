/** Whole Python deserializers: exactly when every record a stream carries comes back, and which streams
    are refused. */
module PythonBodies {
  import opened Wrappers
  import opened Ast
  import opened Shape
  import opened Validate
  import opened Arrow
  import opened Records
  import opened PythonValues
  import opened PythonSerialize
  import opened PythonDeserialize
  import opened PythonDecoding

  // The header

  const FIXED_NAMES: set<string> := {"cls", "data", "reader", "batch", "meta"}

  const HEADER_ENV: map<string, Object> :=
    map["cls" := TheClass, "data" := TheData, "reader" := TheReader(1), "batch" := TheBatch, "meta" := TheMeta]

  /** The states between the header's statements. */
  function Opened(): State {
    State(Start().env["reader" := TheReader(0)], Nothing)
  }

  function Read(): State {
    State(Opened().env["reader" := TheReader(1)]["batch" := TheBatch], Nothing)
  }

  lemma HeaderEnv()
    ensures Read().env["meta" := TheMeta] == HEADER_ENV
  {
  }

  lemma OpensExactly(stream: Stream, scope: Scope)
    requires FIXED_NAMES <= scope.locals
    ensures var r := RunStmts([OpenStream, ReadBatch], stream, scope, Start());
      && (r.Ok? <==> scope.Free("ipc") && stream.batches != [] && |stream.batches[0].columns| == |stream.schema.fields|)
      && (r.Ok? ==> r.value == Read())
      && (scope.Free("ipc") && stream.batches == [] ==> r == Err(EmptyStream))
  {
    assert [OpenStream, ReadBatch] == [OpenStream] + [ReadBatch];
    RunFirst(OpenStream, [ReadBatch], stream, scope, Start());
    if scope.Free("ipc") {
      assert RunStmt(OpenStream, stream, scope, Start()) == Ok(Opened());
      RunOne(ReadBatch, stream, scope, Opened());
    }
  }

  lemma CountsExactly(stream: Stream, scope: Scope)
    requires FIXED_NAMES <= scope.locals && stream.batches != []
    ensures var r := RunStmts([CheckOneRow, CheckNoMoreBatches, LoadMeta], stream, scope, Read());
      && (r.Ok? <==> scope.Free("StopIteration") && |stream.batches| == 1 && stream.batches[0].rows == 1)
      && (r.Ok? ==> r.value == State(HEADER_ENV, Nothing))
      && (stream.batches[0].rows != 1 ==> r == Err(RowCount(stream.batches[0].rows)))
      && (stream.batches[0].rows == 1 && |stream.batches| > 1 && scope.Free("StopIteration") ==> r == Err(TrailingBatch))
  {
    HeaderEnv();
    var s := Read();
    assert [CheckOneRow, CheckNoMoreBatches, LoadMeta] == [CheckOneRow] + ([CheckNoMoreBatches] + [LoadMeta]);
    RunFirst(CheckOneRow, [CheckNoMoreBatches] + [LoadMeta], stream, scope, s);
    RunFirst(CheckNoMoreBatches, [LoadMeta], stream, scope, s);
    RunOne(LoadMeta, stream, scope, s);
    assert "StopIteration" !in s.env;
  }

  lemma GuardRuns(key: string, value: string, stream: Stream, scope: Scope)
    requires FIXED_NAMES <= scope.locals
    ensures RunStmt(GuardMeta(key, EncodedLiteral(value)), stream, scope, State(HEADER_ENV, Nothing))
            == if key !in stream.schema.metadata then Err(MissingMetadata(key))
               else if stream.schema.metadata[key] != value then Err(MetadataMismatch(key))
               else Ok(State(HEADER_ENV, Nothing))
  {
    EncodedLiteralIsRead(value);
  }

  lemma GuardsExactly(contract: Contract, stream: Stream, scope: Scope)
    requires FIXED_NAMES <= scope.locals
    ensures var r := RunStmts(Guards(contract), stream, scope, State(HEADER_ENV, Nothing));
      && (r.Ok? <==> Announces(contract, stream.schema.metadata))
      && match FirstComplaint(contract, stream.schema.metadata)
         case None => r == Ok(State(HEADER_ENV, Nothing))
         case Some(Missing(key)) => r == Err(MissingMetadata(key))
         case Some(Different(key)) => r == Err(MetadataMismatch(key))
  {
    var g := Guards(contract);
    var s := State(HEADER_ENV, Nothing);
    assert g == [g[0]] + ([g[1]] + [g[2]]);
    GuardRuns(SKILL_ID_KEY, contract.skillId, stream, scope);
    GuardRuns(VERSION_KEY, contract.version, stream, scope);
    GuardRuns(DIRECTION_KEY, contract.direction, stream, scope);
    RunFirst(g[0], [g[1]] + [g[2]], stream, scope, s);
    RunFirst(g[1], [g[2]], stream, scope, s);
    RunOne(g[2], stream, scope, s);
  }

  /** With the names `ipc` and `StopIteration` in reach: what the header reports of a stream whose first batch has
      the columns of the schema. */
  function HeaderVerdict(contract: Contract, stream: Stream): Result<State, PyError> {
    if stream.batches == [] then Err(EmptyStream)
    else if stream.batches[0].rows != 1 then Err(RowCount(stream.batches[0].rows))
    else if |stream.batches| > 1 then Err(TrailingBatch)
    else
      match FirstComplaint(contract, stream.schema.metadata)
      case None => Ok(State(HEADER_ENV, Nothing))
      case Some(Missing(key)) => Err(MissingMetadata(key))
      case Some(Different(key)) => Err(MetadataMismatch(key))
  }

  predicate Columned(stream: Stream) {
    stream.batches != [] ==> |stream.batches[0].columns| == |stream.schema.fields|
  }

  /** The header passes exactly on one batch of one row that announces the contract, if no field takes the
      names `ipc` and `StopIteration`. */
  lemma HeaderExactly(contract: Contract, stream: Stream, scope: Scope)
    requires FIXED_NAMES <= scope.locals
    ensures var r := RunStmts(HEADER + Guards(contract), stream, scope, Start());
      && (r.Ok? <==> OneRow(stream) && Announces(contract, stream.schema.metadata)
                     && scope.Free("ipc") && scope.Free("StopIteration"))
      && (r.Ok? ==> r.value == State(HEADER_ENV, Nothing))
      && (scope.Free("ipc") && scope.Free("StopIteration") && Columned(stream) ==> r == HeaderVerdict(contract, stream))
  {
    var open, count := [OpenStream, ReadBatch], [CheckOneRow, CheckNoMoreBatches, LoadMeta];
    assert HEADER + Guards(contract) == open + (count + Guards(contract));
    RunConcat(open, count + Guards(contract), stream, scope, Start());
    OpensExactly(stream, scope);
    if RunStmts(open, stream, scope, Start()).Ok? {
      RunConcat(count, Guards(contract), stream, scope, Read());
      CountsExactly(stream, scope);
      GuardsExactly(contract, stream, scope);
    }
  }

  // All fields

  /** The variables after the first fields have been bound. */
  function Bound(fields: seq<FieldDef>, rec: Record): map<string, Object>
    requires forall i :: 0 <= i < |fields| ==> fields[i].name in rec
  {
    if fields == [] then HEADER_ENV
    else
      var last := fields[|fields| - 1].name;
      Bound(fields[..|fields| - 1], rec)[last := Plain(ToPy(rec[last]))]
  }

  predicate Names(fields: seq<FieldDef>, name: string) {
    exists i :: 0 <= i < |fields| && fields[i].name == name
  }

  lemma {:induction false} BoundAt(fields: seq<FieldDef>, rec: Record, name: string)
    requires forall i :: 0 <= i < |fields| ==> fields[i].name in rec
    ensures name in Bound(fields, rec) <==> Names(fields, name) || name in HEADER_ENV
    ensures Names(fields, name) ==> Bound(fields, rec)[name] == Plain(ToPy(rec[name]))
    ensures !Names(fields, name) && name in HEADER_ENV ==> Bound(fields, rec)[name] == HEADER_ENV[name]
  {
    if fields != [] {
      var n := |fields| - 1;
      BoundAt(fields[..n], rec, name);
      assert Names(fields, name) <==> fields[n].name == name || Names(fields[..n], name) by {
        if i :| 0 <= i < |fields| && fields[i].name == name {
          if i < n {
            assert fields[..n][i] == fields[i];
          }
        }
        if i :| 0 <= i < n && fields[..n][i].name == name {
          assert fields[i].name == name;
        }
      }
    }
  }

  /** Each field reaches what it reads; a field called `batch` comes last. */
  predicate FieldsFree(fields: seq<FieldDef>, scope: Scope, stream: Stream) {
    forall i :: 0 <= i < |fields| ==>
      FieldFree(fields[i], scope, stream) && (fields[i].name == "batch" ==> i == |fields| - 1)
  }

  lemma BoundShadowsByValues(fields: seq<FieldDef>, rec: Record)
    requires forall i :: 0 <= i < |fields| ==> fields[i].name in rec
    ensures OnlyValuesShadow(Bound(fields, rec))
  {
    forall g | g in ["ipc", "StopIteration", "pa", "int", "len", "dict"] && g in Bound(fields, rec)
      ensures Bound(fields, rec)[g].Plain?
    {
      BoundAt(fields, rec, g);
      assert g !in HEADER_ENV;
    }
  }

  lemma FreePrefix(fields: seq<FieldDef>, scope: Scope, stream: Stream)
    requires fields != []
    ensures var n := |fields| - 1;
            FieldsFree(fields, scope, stream) <==>
            FieldsFree(fields[..n], scope, stream) && FieldFree(fields[n], scope, stream) && !Names(fields[..n], "batch")
  {
    var n := |fields| - 1;
    assert forall i :: 0 <= i < n ==> fields[..n][i] == fields[i];
    if FieldsFree(fields[..n], scope, stream) && FieldFree(fields[n], scope, stream) && !Names(fields[..n], "batch") {
      forall i | 0 <= i < |fields|
        ensures FieldFree(fields[i], scope, stream) && (fields[i].name == "batch" ==> i == |fields| - 1)
      {
        if i < n {
          assert fields[..n][i].name != "batch";
        }
      }
    }
  }

  /** Binding all fields, one after the other. */
  lemma {:induction false} FieldsRun(fields: seq<FieldDef>, rec: Record, stream: Stream, scope: Scope)
    requires OneRow(stream) && FIXED_NAMES <= scope.locals
    requires forall i :: 0 <= i < |fields| ==>
               && Supported(fields[i].ty) && fields[i].name in rec
               && HasType(rec[fields[i].name], fields[i].ty) && Provides(stream, fields[i], rec[fields[i].name])
    ensures var r := RunStmts(AllFields(fields), stream, scope, State(HEADER_ENV, Nothing));
            (r.Ok? <==> FieldsFree(fields, scope, stream)) && (r.Ok? ==> r.value.env == Bound(fields, rec))
  {
    if fields != [] {
      var n := |fields| - 1;
      var before, last := fields[..n], fields[n];
      var start := State(HEADER_ENV, Nothing);
      FieldsRun(before, rec, stream, scope);
      RunConcat(AllFields(before), FieldStmts(last), stream, scope, start);
      FreePrefix(fields, scope, stream);
      var r := RunStmts(AllFields(before), stream, scope, start);
      if r.Ok? {
        BoundAt(before, rec, "batch");
        if Names(before, "batch") {
          FieldNeedsBatch(last, stream, scope, r.value);
        } else {
          BoundShadowsByValues(before, rec);
          FieldRuns(last, rec[last.name], stream, scope, r.value);
        }
      }
    }
  }

  // Whole bodies

  /** Neither a field nor a class of the module has the name. */
  predicate Unshadowed(name: string, def: StructDef, classes: set<string>) {
    !Names(def.fields, name) && name !in classes
  }

  /** The names that the fields of a struct and the classes of its module must avoid for its Python
      deserializer to work on a stream: `ipc`, `StopIteration` and, among fields, `cls` always, and others
      where some field reads them. */
  predicate BodySafe(def: StructDef, classes: set<string>, stream: Stream) {
    && Unshadowed("ipc", def, classes) && Unshadowed("StopIteration", def, classes) && !Names(def.fields, "cls")
    && FieldsFree(def.fields, ScopeOf(def, classes), stream)
  }

  lemma FieldIsHeld(def: StructDef, rec: Record, i: nat)
    requires WellTyped(def, rec) && i < |def.fields|
    ensures forall k :: 0 <= k < |def.fields| ==> def.fields[k].name in rec
    ensures var n := def.fields[i].name;
            HoldsPlain(n, Bound(def.fields, rec)) && Bound(def.fields, rec)[n].v == ToPy(rec[n])
  {
    assert Names(def.fields, def.fields[i].name);
    BoundAt(def.fields, rec, def.fields[i].name);
  }

  lemma ResultNames(def: StructDef, result: seq<string>, rec: Record, n: string)
    requires WellTyped(def, rec) && |result| == |def.fields| && forall i :: 0 <= i < |result| ==> result[i] == def.fields[i].name
    ensures n in result <==> n in rec
  {
    if n in rec {
      var i :| 0 <= i < |def.fields| && def.fields[i].name == n;
      assert result[i] == n;
    }
  }

  lemma ConstructsExactly(def: StructDef, result: seq<string>, rec: Record, classes: set<string>)
    requires WellTyped(def, rec) && |result| == |def.fields| && forall i :: 0 <= i < |result| ==> result[i] == def.fields[i].name
    ensures forall i :: 0 <= i < |def.fields| ==> def.fields[i].name in rec
    ensures var r := Construct(result, Bound(def.fields, rec), ScopeOf(def, classes));
            if Names(def.fields, "cls") then r.Err? else r == Ok(ToPyRecord(rec))
  {
    var env := Bound(def.fields, rec);
    BoundAt(def.fields, rec, "cls");
    if !Names(def.fields, "cls") {
      forall n ensures n in result <==> n in rec {
        ResultNames(def, result, rec, n);
      }
      forall n | n in result ensures HoldsPlain(n, env) && env[n].v == ToPy(rec[n]) {
        var i :| 0 <= i < |result| && result[i] == n;
        FieldIsHeld(def, rec, i);
      }
      assert (map n | n in result :: env[n].v) == ToPyRecord(rec);
    }
  }

  lemma FixedNamesAreLocal(def: StructDef, classes: set<string>)
    ensures FIXED_NAMES <= ScopeOf(def, classes).locals
    ensures forall n :: n !in FIXED_NAMES ==> (ScopeOf(def, classes).Free(n) <==> Unshadowed(n, def, classes))
  {
  }

  lemma CarriedFields(def: StructDef, contract: Contract, rec: Record, stream: Stream, classes: set<string>)
    requires Compilable(def) && WellTyped(def, rec) && StreamCarries(def, contract, rec, stream)
    ensures var r := RunStmts(AllFields(def.fields), stream, ScopeOf(def, classes), State(HEADER_ENV, Nothing));
      && (forall i :: 0 <= i < |def.fields| ==> def.fields[i].name in rec)
      && (r.Ok? <==> FieldsFree(def.fields, ScopeOf(def, classes), stream)) && (r.Ok? ==> r.value.env == Bound(def.fields, rec))
  {
    FixedNamesAreLocal(def, classes);
    FieldsRun(def.fields, rec, stream, ScopeOf(def, classes));
  }

  lemma HeaderNames(def: StructDef, classes: set<string>)
    ensures FIXED_NAMES <= ScopeOf(def, classes).locals
    ensures ScopeOf(def, classes).Free("ipc") <==> Unshadowed("ipc", def, classes)
    ensures ScopeOf(def, classes).Free("StopIteration") <==> Unshadowed("StopIteration", def, classes)
  {
    FixedNamesAreLocal(def, classes);
  }

  /** A body is its header and then its fields. */
  lemma BodySplits(body: Body, def: StructDef, contract: Contract, stream: Stream, classes: set<string>)
    requires IsBody(body, def, contract)
    ensures var r := RunStmts(body.stmts, stream, ScopeOf(def, classes), Start());
            if OneRow(stream) && Announces(contract, stream.schema.metadata)
               && Unshadowed("ipc", def, classes) && Unshadowed("StopIteration", def, classes)
            then r == RunStmts(AllFields(def.fields), stream, ScopeOf(def, classes), State(HEADER_ENV, Nothing))
            else r.Err?
  {
    var header := HEADER + Guards(contract);
    assert body.stmts == header + AllFields(def.fields);
    HeaderNames(def, classes);
    HeaderExactly(contract, stream, ScopeOf(def, classes));
    RunConcat(header, AllFields(def.fields), stream, ScopeOf(def, classes), Start());
  }

  /** Where the header fails, the deserializer reports what the header reports. */
  lemma BodyComplains(body: Body, def: StructDef, contract: Contract, stream: Stream, classes: set<string>)
    requires IsBody(body, def, contract) && Columned(stream) && HeaderVerdict(contract, stream).Err?
    requires Unshadowed("ipc", def, classes) && Unshadowed("StopIteration", def, classes)
    ensures RunBody(body, stream, ScopeOf(def, classes)) == Err(HeaderVerdict(contract, stream).error)
  {
    var header := HEADER + Guards(contract);
    assert body.stmts == header + AllFields(def.fields);
    HeaderNames(def, classes);
    HeaderExactly(contract, stream, ScopeOf(def, classes));
    RunConcat(header, AllFields(def.fields), stream, ScopeOf(def, classes), Start());
  }

  /** On a stream that carries a record the deserializer returns that record, field for field, if the
      names of its fields and of the module's classes are safe, and fails otherwise. */
  lemma BodyDecodesExactly(body: Body, def: StructDef, contract: Contract, rec: Record, stream: Stream, classes: set<string>)
    requires Compilable(def) && IsBody(body, def, contract)
    requires WellTyped(def, rec) && StreamCarries(def, contract, rec, stream)
    ensures var r := RunBody(body, stream, ScopeOf(def, classes));
            if BodySafe(def, classes, stream) then r == Ok(ToPyRecord(rec)) else r.Err?
  {
    BodySplits(body, def, contract, stream, classes);
    CarriedFields(def, contract, rec, stream, classes);
    ConstructsExactly(def, body.result, rec, classes);
  }

  // Nothing else is read

  /** What a successful read says about a field's column: tensors announce the declared element type, rank
      and fixed sizes, a scalar's field has the declared type, and only a scalar with a default may be absent. */
  predicate FieldHonored(stream: Stream, f: FieldDef) {
    match IndexOf(stream.schema.fields, f.name)
    case None => f.default.Some? && IsLeaf(f.ty) && !f.ty.Tensor?
    case Some(i) =>
      && (TensorOf(f.ty).Some? ==> TensorHonored(stream, f.name, TensorOf(f.ty).value.0, TensorOf(f.ty).value.1))
      && (IsLeaf(f.ty) && !f.ty.Tensor? ==> stream.schema.fields[i].ty == LeafType(f.ty))
  }

  lemma ChecksRan(f: FieldDef, rest: seq<Stmt>, stream: Stream, scope: Scope, s: State)
    requires TensorOf(f.ty).Some? && TensorOf(f.ty).value.1 != []
    requires RunStmts(TensorChecks(f.name, TensorOf(f.ty).value.0, TensorOf(f.ty).value.1) + rest, stream, scope, s).Ok?
    ensures TensorHonored(stream, f.name, TensorOf(f.ty).value.0, TensorOf(f.ty).value.1)
  {
    var (dtype, dims) := TensorOf(f.ty).value;
    RunConcat(TensorChecks(f.name, dtype, dims), rest, stream, scope, s);
    TensorChecksRun(f.name, dtype, dims, stream, scope, s);
  }

  lemma ScalarRead(f: FieldDef, stream: Stream, scope: Scope, s: State)
    requires IsLeaf(f.ty) && !f.ty.Tensor? && RunStmts(FieldStmts(f), stream, scope, s).Ok?
    ensures FieldHonored(stream, f)
  {
    var stmts := FieldStmts(f);
    var load, check, rest := stmts[0], stmts[1], stmts[2..];
    assert stmts == [load] + ([check] + rest);
    RunFirst(load, [check] + rest, stream, scope, s);
    var s1 := RunStmt(load, stream, scope, s).value;
    RunFirst(check, rest, stream, scope, s1);
  }

  lemma FieldRead(f: FieldDef, stream: Stream, scope: Scope, s: State)
    requires Supported(f.ty) && RunStmts(FieldStmts(f), stream, scope, s).Ok?
    ensures FieldHonored(stream, f)
  {
    if f.ty.Tensor? {
      var checks := TensorChecks(f.name, f.ty.dtype, f.ty.dims);
      RunFirst(BindValue(f.name), checks, stream, scope, s);
      assert checks + [] == checks;
      ChecksRan(f, [], stream, scope, RunStmt(BindValue(f.name), stream, scope, s).value);
    } else if TensorOf(f.ty).Some? {
      ChecksRan(f, [if f.ty.List? then BindItems(f.name) else BindValid(f.name)], stream, scope, s);
    } else if IsLeaf(f.ty) {
      ScalarRead(f, stream, scope, s);
    }
  }

  lemma LastFieldRan(fields: seq<FieldDef>, stream: Stream, scope: Scope, s: State)
    requires fields != [] && RunStmts(AllFields(fields), stream, scope, s).Ok?
    ensures var before := RunStmts(AllFields(fields[..|fields| - 1]), stream, scope, s);
            before.Ok? && RunStmts(FieldStmts(fields[|fields| - 1]), stream, scope, before.value).Ok?
  {
    RunConcat(AllFields(fields[..|fields| - 1]), FieldStmts(fields[|fields| - 1]), stream, scope, s);
  }

  lemma {:induction false} FieldRan(fields: seq<FieldDef>, i: nat, stream: Stream, scope: Scope, s: State)
    requires i < |fields| && RunStmts(AllFields(fields), stream, scope, s).Ok?
    ensures exists at: State :: RunStmts(FieldStmts(fields[i]), stream, scope, at).Ok?
  {
    LastFieldRan(fields, stream, scope, s);
    if i < |fields| - 1 {
      FieldRan(fields[..|fields| - 1], i, stream, scope, s);
    }
  }

  /** Any stream the deserializer reads has one batch of one row, announces the contract, and honors every
      field: a changed skill id, version, direction, element type, shape, row count or batch count is refused. */
  lemma BodyRefuses(body: Body, def: StructDef, contract: Contract, stream: Stream, classes: set<string>)
    requires Compilable(def) && IsBody(body, def, contract)
    requires !(OneRow(stream) && Announces(contract, stream.schema.metadata)
               && forall i :: 0 <= i < |def.fields| ==> FieldHonored(stream, def.fields[i]))
    ensures RunBody(body, stream, ScopeOf(def, classes)).Err?
  {
    if RunBody(body, stream, ScopeOf(def, classes)).Ok? {
      BodySplits(body, def, contract, stream, classes);
      forall i | 0 <= i < |def.fields| ensures FieldHonored(stream, def.fields[i]) {
        FieldRan(def.fields, i, stream, ScopeOf(def, classes), State(HEADER_ENV, Nothing));
        var at: State :| RunStmts(FieldStmts(def.fields[i]), stream, ScopeOf(def, classes), at).Ok?;
        FieldRead(def.fields[i], stream, ScopeOf(def, classes), at);
      }
    }
  }
}
