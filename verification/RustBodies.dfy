/** Whole Rust deserializers: every record a stream carries comes back, and no stream that breaks the
    contract is read. */
module RustBodies {
  import opened Wrappers
  import opened Ast
  import opened Shape
  import opened Literals
  import opened Validate
  import opened Arrow
  import opened Records
  import opened RustTypes
  import opened RustSerialize
  import opened RustDeserialize
  import opened RustDecoding
  import RustReading
  import RustEncoding

  // Every carried record is read

  ghost predicate Agrees(scope: Record, rec: Record) {
    forall n :: n in scope ==> n in rec && scope[n] == rec[n]
  }

  lemma {:induction false} LetsBind(fields: seq<FieldDef>, lets: seq<(string, seq<Op>)>, rec: Record, stream: Stream, scope: Record)
    requires OneRow(stream) && |lets| == |fields| && Agrees(scope, rec)
    requires forall i :: 0 <= i < |fields| ==>
               && FieldBlock(fields[i]).Some? && lets[i] == (fields[i].name, FieldBlock(fields[i]).value)
               && fields[i].name in rec && BlockValue(lets[i].1, stream) == Ok(rec[fields[i].name])
    ensures var r := RunLets(lets, stream, scope);
      && r.Ok? && Agrees(r.value, rec) && scope.Keys <= r.value.Keys
      && forall i :: 0 <= i < |fields| ==> fields[i].name in r.value
  {
    if fields != [] {
      var next := scope[fields[0].name := rec[fields[0].name]];
      LetsBind(fields[1..], lets[1..], rec, stream, next);
      forall i | 0 <= i < |fields| ensures fields[i].name in RunLets(lets, stream, scope).value {
        if i == 0 {
          assert fields[0].name in next;
        } else {
          assert fields[1..][i - 1] == fields[i];
        }
      }
    }
  }

  lemma GuardStep(key: string, value: string, rest: seq<(string, string)>, metadata: map<string, string>)
    ensures var r := RunGuards([(key, Quoted(value, Rust))] + rest, metadata);
            if HasC1(value) then r == Err(IllTyped)
            else match ComplaintOf(key, value, metadata)
                 case None => r == RunGuards(rest, metadata)
                 case Some(Missing(k)) => r == Err(MissingMetadata(k))
                 case Some(Different(k)) => r == Err(MetadataMismatch(k))
  {
    RustEncoding.QuotedLiteral(value);
    assert ([(key, Quoted(value, Rust))] + rest)[1..] == rest;
  }

  /** The guards pass exactly on the contract's own metadata, and otherwise report the first key that is missing
      or different. */
  lemma GuardsPassExactly(body: Body, def: StructDef, contract: Contract, metadata: map<string, string>)
    requires IsBody(body, def, contract) && IsDirection(contract.direction)
    ensures RunGuards(body.guards, metadata).Ok? <==> RustEncoding.PlainContract(contract) && Announces(contract, metadata)
    ensures RustEncoding.PlainContract(contract) ==>
              match FirstComplaint(contract, metadata)
              case None => RunGuards(body.guards, metadata).Ok?
              case Some(Missing(key)) => RunGuards(body.guards, metadata) == Err(MissingMetadata(key))
              case Some(Different(key)) => RunGuards(body.guards, metadata) == Err(MetadataMismatch(key))
  {
    var g := body.guards;
    assert g == [g[0]] + ([g[1]] + ([g[2]] + []));
    GuardStep(DIRECTION_KEY, contract.direction, [], metadata);
    GuardStep(VERSION_KEY, contract.version, [g[2]] + [], metadata);
    GuardStep(SKILL_ID_KEY, contract.skillId, [g[1]] + ([g[2]] + []), metadata);
    DirectionIsPlain(contract.direction);
  }

  lemma LetsRead(body: Body, def: StructDef, contract: Contract, rec: Record, stream: Stream)
    requires Compilable(def) && DefaultsInhabit(def) && IsBody(body, def, contract) && AllCompile(def.fields)
    requires WellTyped(def, rec) && StreamCarries(def, contract, rec, stream)
    ensures forall i :: 0 <= i < |def.fields| ==> BlockValue(body.lets[i].1, stream) == Ok(rec[def.fields[i].name])
  {
    forall i | 0 <= i < |def.fields| ensures BlockValue(body.lets[i].1, stream) == Ok(rec[def.fields[i].name]) {
      RustReading.FieldDecodes(def.fields[i], rec[def.fields[i].name], stream);
    }
  }

  lemma LetsYield(body: Body, def: StructDef, contract: Contract, rec: Record, stream: Stream)
    requires Compilable(def) && DefaultsInhabit(def) && IsBody(body, def, contract) && AllCompile(def.fields)
    requires WellTyped(def, rec) && StreamCarries(def, contract, rec, stream)
    ensures var r := RunLets(body.lets, stream, map[]);
      && r.Ok? && Agrees(r.value, rec)
      && forall i :: 0 <= i < |def.fields| ==> def.fields[i].name in r.value
  {
    LetsRead(body, def, contract, rec, stream);
    LetsBind(def.fields, body.lets, rec, stream, map[]);
  }

  lemma ResultNames(body: Body, def: StructDef, contract: Contract)
    requires IsBody(body, def, contract)
    ensures |body.result| == |def.fields| && forall i :: 0 <= i < |def.fields| ==> body.result[i] == def.fields[i].name
  {
  }

  lemma SelfIsBuilt(def: StructDef, result: seq<string>, rec: Record, scope: Record)
    requires WellTyped(def, rec) && Agrees(scope, rec)
    requires |result| == |def.fields| && forall i :: 0 <= i < |result| ==> result[i] == def.fields[i].name && result[i] in scope
    ensures BuildSelf(result, scope) == Ok(rec)
  {
    var built := map n | n in result :: scope[n];
    forall n ensures n in built <==> n in rec {
      if n in rec {
        var i :| 0 <= i < |def.fields| && def.fields[i].name == n;
        assert result[i] == n;
      }
    }
    assert built == rec;
  }

  /** Where the deserializer is valid Rust, it returns the record of every stream that carries one. */
  lemma BodyDecodes(body: Body, def: StructDef, contract: Contract, rec: Record, stream: Stream)
    requires Compilable(def) && DefaultsInhabit(def) && IsDirection(contract.direction)
    requires IsBody(body, def, contract) && RustEncoding.PlainContract(contract) && AllCompile(def.fields)
    requires WellTyped(def, rec) && StreamCarries(def, contract, rec, stream)
    ensures RunBody(body, stream) == Ok(rec)
  {
    GuardsPassExactly(body, def, contract, stream.schema.metadata);
    LetsYield(body, def, contract, rec, stream);
    ResultNames(body, def, contract);
    SelfIsBuilt(def, body.result, rec, RunLets(body.lets, stream, map[]).value);
  }

  // Nothing else is read

  lemma PrefixRan(a: seq<Op>, b: seq<Op>, stream: Stream)
    requires OneRow(stream) && RunOps(a + b, stream, Nothing).Ok?
    ensures RunOps(a, stream, Nothing).Ok? && RunOps(b, stream, RunOps(a, stream, Nothing).value).Ok?
  {
    RunOpsConcat(a, b, stream, Nothing);
  }

  /** What a successful read says about a field's column: a scalar without a column has a default, tensors
      announce the declared element type, rank and fixed sizes, and columns have the declared type, except
      that the type of a null is never looked at. */
  predicate FieldHonored(stream: Stream, f: FieldDef)
    requires OneRow(stream)
  {
    match IndexOf(stream.schema.fields, f.name)
    case None => f.default.Some? && IsLeaf(f.ty) && !f.ty.Tensor?
    case Some(i) =>
      && (TensorOf(f.ty).Some? ==> TensorHonored(stream, f.name, TensorOf(f.ty).value.0, TensorOf(f.ty).value.1))
      && (f.ty.Optional? || TypeMatches(f.ty, stream.batches[0].columns[i].ty))
      && (IsLeaf(f.ty) && !f.ty.Tensor? ==> stream.schema.fields[i].ty == LeafType(f.ty))
  }

  lemma ScalarRead(f: FieldDef, stream: Stream)
    requires OneRow(stream) && IsLeaf(f.ty) && !f.ty.Tensor?
    requires FieldBlock(f).Some? && RunOps(FieldBlock(f).value, stream, Nothing).Ok?
    ensures FieldHonored(stream, f)
  {
    TablesAgree(f.ty);
    var ops := FieldBlock(f).value;
    assert ops[1..] == [ops[1], ops[2], ops[3]] && ops[1..][1..] == [ops[2], ops[3]];
    var column := ColumnNamed(stream, f.name);
    if column.Some? {
      var focus := Untyped(column.value.ty, column.value.cells);
      assert RunOp(ops[0], stream, Nothing) == Ok(focus);
      assert RunOp(ops[1], stream, focus).Ok?;
      assert RunOps([ops[2], ops[3]], stream, focus).Ok?;
    }
  }

  lemma TensorRead(f: FieldDef, stream: Stream)
    requires OneRow(stream) && f.ty.Tensor? && RunOps(FieldBlock(f).value, stream, Nothing).Ok?
    ensures FieldHonored(stream, f)
  {
    var tail := [LoadColumn(f.name), AsArray(BinaryArray), ValueZero(ToVec)];
    PrefixRan(TensorChecks(f.name, f.ty.dtype, f.ty.dims), tail, stream);
    TensorChecksRun(f.name, f.ty.dtype, f.ty.dims, stream, Nothing);
    assert tail[1..] == [AsArray(BinaryArray), ValueZero(ToVec)];
    var column := ColumnNamed(stream, f.name).value;
    assert RunOp(AsArray(BinaryArray), stream, Untyped(column.ty, column.cells)).Ok?;
  }

  /** After the first two operations a list or map column has been found and has the container's type. */
  lemma ContainerFound(field: string, open: Op, rest: seq<Op>, stream: Stream) returns (column: Column)
    requires OneRow(stream) && (open.AsList? || open.AsMap?)
    requires RunOps([LoadColumn(field), open, RowZero] + rest, stream, Nothing).Ok?
    ensures ColumnNamed(stream, field) == Some(column)
    ensures if open.AsList? then column.ty.ListOf? else column.ty.MapOf?
    ensures var head := RunOps([LoadColumn(field), open, RowZero], stream, Nothing);
      && head.Ok? && RunOps(rest, stream, head.value).Ok?
      && if open.AsList? then head.value.Untyped? && head.value.ty == column.ty.item
         else head.value.Pairs? && head.value.key == column.ty.key && head.value.value == column.ty.value
              && head.value.keysAs.None? && head.value.valuesAs.None?
  {
    var head := [LoadColumn(field), open, RowZero];
    PrefixRan(head, rest, stream);
    assert head[1..] == [open, RowZero] && head[1..][1..] == [RowZero] && [RowZero][1..] == [];
    column := ColumnNamed(stream, field).value;
    var at := Untyped(column.ty, column.cells);
    assert RunOps([open, RowZero], stream, at).Ok?;
    var rows := RunOp(open, stream, at).value;
    assert RunOps([RowZero], stream, rows) == RunOp(RowZero, stream, rows);
  }

  lemma FirstRan(op: Op, rest: seq<Op>, stream: Stream, at: Focus)
    requires OneRow(stream) && RunOps([op] + rest, stream, at).Ok?
    ensures RunOp(op, stream, at).Ok? && RunOps(rest, stream, RunOp(op, stream, at).value).Ok?
  {
    RunCons(op, rest, stream, at);
  }

  lemma TensorListRead(field: string, item: LaicType, stream: Stream, at: Focus)
    requires OneRow(stream) && at.Untyped? && item.Tensor? && RunOps(ListTail(field, item).value, stream, at).Ok?
    ensures TensorHonored(stream, field, item.dtype, item.dims) && at.ty == Binary
  {
    RunOpsConcat(TensorChecks(field, item.dtype, item.dims), [AsArray(BinaryArray), Collect(ToVec)], stream, at);
    TensorChecksRun(field, item.dtype, item.dims, stream, at);
    FirstRan(AsArray(BinaryArray), [Collect(ToVec)], stream, at);
  }

  lemma LeafListRead(field: string, item: LaicType, stream: Stream, at: Focus)
    requires OneRow(stream) && at.Untyped? && !item.Tensor? && (IsLeaf(item) || (item.Optional? && IsLeaf(item.inner)))
    requires ListTail(field, item).Some? && RunOps(ListTail(field, item).value, stream, at).Ok?
    ensures TypeMatches(item, at.ty)
  {
    TablesAgree(if item.Optional? then item.inner else item);
    var tail := ListTail(field, item).value;
    assert tail == [tail[0]] + [tail[1]];
    FirstRan(tail[0], [tail[1]], stream, at);
  }

  lemma ListRead(f: FieldDef, stream: Stream)
    requires OneRow(stream) && f.ty.List? && Supported(f.ty)
    requires FieldBlock(f).Some? && RunOps(FieldBlock(f).value, stream, Nothing).Ok?
    ensures FieldHonored(stream, f)
  {
    var item := f.ty.item;
    var column := ContainerFound(f.name, AsList, ListTail(f.name, item).value, stream);
    var at := RunOps([LoadColumn(f.name), AsList, RowZero], stream, Nothing).value;
    if item.Tensor? {
      TensorListRead(f.name, item, stream, at);
    } else {
      LeafListRead(f.name, item, stream, at);
    }
  }

  lemma OptionalRead(f: FieldDef, stream: Stream)
    requires OneRow(stream) && f.ty.Optional? && Supported(f.ty)
    requires FieldBlock(f).Some? && RunOps(FieldBlock(f).value, stream, Nothing).Ok?
    ensures FieldHonored(stream, f)
  {
    var inner := f.ty.inner;
    var checks := if inner.Tensor? then TensorChecks(f.name, inner.dtype, inner.dims) else [];
    RustReading.OptionalBlockIs(f);
    PrefixRan([LoadColumn(f.name)] + checks, [NullMeansNone] + OptionalTail(inner).value, stream);
    FirstRan(LoadColumn(f.name), checks, stream, Nothing);
    if inner.Tensor? {
      TensorChecksRun(f.name, inner.dtype, inner.dims, stream, RunOp(LoadColumn(f.name), stream, Nothing).value);
    }
  }

  lemma MapRead(f: FieldDef, stream: Stream)
    requires OneRow(stream) && f.ty.Map? && Supported(f.ty)
    requires FieldBlock(f).Some? && RunOps(FieldBlock(f).value, stream, Nothing).Ok?
    ensures FieldHonored(stream, f)
  {
    var key, value := f.ty.key, f.ty.value;
    TablesAgree(key);
    TablesAgree(value);
    var k, v := KeysAs(ArrowArrayType(key).value), ValuesAs(ArrowArrayType(value).value);
    var c := CollectMap(InnerConvert(key), InnerConvert(value));
    var column := ContainerFound(f.name, AsMap, [k, v, c], stream);
    var at := RunOps([LoadColumn(f.name), AsMap, RowZero], stream, Nothing).value;
    assert [k, v, c] == [k] + ([v] + [c]);
    FirstRan(k, [v] + [c], stream, at);
    FirstRan(v, [c], stream, RunOp(k, stream, at).value);
  }

  lemma FieldRead(f: FieldDef, stream: Stream)
    requires OneRow(stream) && Supported(f.ty) && FieldBlock(f).Some? && BlockValue(FieldBlock(f).value, stream).Ok?
    ensures FieldHonored(stream, f)
  {
    match f.ty {
      case Tensor(_, _) => TensorRead(f, stream);
      case List(_) => ListRead(f, stream);
      case Optional(_) => OptionalRead(f, stream);
      case Map(_, _) => MapRead(f, stream);
      case _ => ScalarRead(f, stream);
    }
  }

  lemma {:induction false} LetsRan(lets: seq<(string, seq<Op>)>, stream: Stream, scope: Record)
    requires OneRow(stream) && RunLets(lets, stream, scope).Ok?
    ensures forall i :: 0 <= i < |lets| ==> BlockValue(lets[i].1, stream).Ok?
  {
    if lets != [] {
      LetsRan(lets[1..], stream, scope[lets[0].0 := BlockValue(lets[0].1, stream).value]);
      forall i | 0 <= i < |lets| ensures BlockValue(lets[i].1, stream).Ok? {
        if i > 0 {
          assert lets[i] == lets[1..][i - 1];
        }
      }
    }
  }

  /** Any stream the deserializer reads has one batch of one row, announces the contract, and honors every
      field: a changed skill id, version, direction, element type, shape, row count or batch count is refused. */
  lemma BodyRefuses(body: Body, def: StructDef, contract: Contract, stream: Stream)
    requires Compilable(def) && IsDirection(contract.direction) && IsBody(body, def, contract)
    requires !(OneRow(stream) && Announces(contract, stream.schema.metadata)
               && forall i :: 0 <= i < |def.fields| ==> FieldHonored(stream, def.fields[i]))
    ensures RunBody(body, stream).Err?
  {
    if RunBody(body, stream).Ok? {
      GuardsPassExactly(body, def, contract, stream.schema.metadata);
      LetsRan(body.lets, stream, map[]);
      forall i | 0 <= i < |def.fields| ensures FieldHonored(stream, def.fields[i]) {
        assert BlockValue(body.lets[i].1, stream).Ok?;
        FieldRead(def.fields[i], stream);
      }
    }
  }
}
