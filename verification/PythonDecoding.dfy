/** The emitted Python deserializer, field by field: what it binds, and which names it must not lose. */
module PythonDecoding {
  import opened Wrappers
  import opened Ast
  import opened Shape
  import opened Literals
  import opened Validate
  import opened Arrow
  import opened Records
  import opened PythonValues
  import opened PythonSerialize
  import opened PythonDeserialize
  import PythonEncoding
  import Text

  // Running statements

  lemma {:induction false} RunConcat(a: seq<Stmt>, b: seq<Stmt>, stream: Stream, scope: Scope, s: State)
    ensures var r := RunStmts(a, stream, scope, s);
            RunStmts(a + b, stream, scope, s) == if r.Err? then Err(r.error) else RunStmts(b, stream, scope, r.value)
  {
    if a == [] {
      assert a + b == b;
    } else {
      assert (a + b)[1..] == a[1..] + b;
      var first := RunStmt(a[0], stream, scope, s);
      if first.Ok? {
        RunConcat(a[1..], b, stream, scope, first.value);
      }
    }
  }

  lemma RunFirst(stmt: Stmt, rest: seq<Stmt>, stream: Stream, scope: Scope, s: State)
    ensures var r := RunStmt(stmt, stream, scope, s);
            RunStmts([stmt] + rest, stream, scope, s) == if r.Err? then Err(r.error) else RunStmts(rest, stream, scope, r.value)
  {
    assert ([stmt] + rest)[1..] == rest;
  }

  lemma RunOne(stmt: Stmt, stream: Stream, scope: Scope, s: State)
    ensures RunStmts([stmt], stream, scope, s) == RunStmt(stmt, stream, scope, s)
  {
    assert [stmt][1..] == [];
  }

  /** The global of this name can be reached. */
  predicate Reaches(name: string, env: map<string, Object>, scope: Scope) {
    Expecting(name, Global(name), env, scope).Ok?
  }

  predicate SeesBatch(env: map<string, Object>, scope: Scope) {
    Expecting("batch", TheBatch, env, scope).Ok?
  }

  // Tensor checks

  /** The field announces the declared element type, rank and fixed sizes. */
  predicate TensorHonored(stream: Stream, field: string, dtype: TensorElementType, dims: seq<Dimension>) {
    && IndexOf(stream.schema.fields, field).Some?
    && var metadata := stream.schema.fields[IndexOf(stream.schema.fields, field).value].metadata;
    && DTYPE_KEY in metadata && metadata[DTYPE_KEY] == DtypeName(dtype)
    && SHAPE_KEY in metadata && PythonAccepts(dims, metadata[SHAPE_KEY])
  }

  lemma CheckDimRuns(field: string, index: nat, size: nat, sizes: seq<int>, rest: seq<Stmt>, stream: Stream,
                     scope: Scope, s: State)
    requires s.temp == Sizes(sizes) && index < |sizes|
    ensures var r := RunStmts([CheckDim(field, index, size)] + rest, stream, scope, s);
            if sizes[index] == size then r == RunStmts(rest, stream, scope, s) else r.Err?
  {
    RunFirst(CheckDim(field, index, size), rest, stream, scope, s);
  }

  /** A dimension that is not fixed adds no check. */
  lemma DimStepRuns(field: string, dims: seq<Dimension>, from: nat, sizes: seq<int>, stream: Stream,
                    scope: Scope, s: State)
    requires from < |dims| && |sizes| == |dims| && s.temp == Sizes(sizes)
    ensures var r, rest := RunStmts(DimChecks(field, dims, from), stream, scope, s),
                           RunStmts(DimChecks(field, dims, from + 1), stream, scope, s);
            if dims[from].Fixed? && sizes[from] != dims[from].size then r.Err? else r == rest
  {
    var rest := DimChecks(field, dims, from + 1);
    if dims[from].Fixed? {
      CheckDimRuns(field, from, dims[from].size, sizes, rest, stream, scope, s);
    } else {
      assert [] + rest == rest;
    }
  }

  lemma {:induction false} DimChecksRun(field: string, dims: seq<Dimension>, from: nat, sizes: seq<int>, stream: Stream,
                                        scope: Scope, s: State)
    requires from <= |dims| && |sizes| == |dims| && s.temp == Sizes(sizes)
    ensures var r := RunStmts(DimChecks(field, dims, from), stream, scope, s);
            (r.Ok? ==> r == Ok(s)) && (r.Ok? <==> FixedDimsMatch(dims, sizes, from))
    decreases |dims| - from
  {
    if from < |dims| {
      DimChecksRun(field, dims, from + 1, sizes, stream, scope, s);
      FixedDimsStep(dims, sizes, from);
      DimStepRuns(field, dims, from, sizes, stream, scope, s);
    }
  }

  lemma {:induction false} NumbersPerItem(parts: seq<string>)
    ensures PythonNumbers(parts).Some? ==> |PythonNumbers(parts).value| == |parts|
  {
    if parts != [] {
      NumbersPerItem(parts[1..]);
    }
  }

  lemma CheckRankRuns(field: string, rank: nat, stream: Stream, scope: Scope, s: State)
    requires s.temp.FieldMeta? && rank > 0
    ensures var r := RunStmt(CheckRank(field, rank), stream, scope, s);
            var metadata := s.temp.metadata;
      && (r.Ok? <==> && SHAPE_KEY in metadata && PythonShape(metadata[SHAPE_KEY]).Some?
                     && |PythonShape(metadata[SHAPE_KEY]).value| == rank
                     && Reaches("int", s.env, scope) && Reaches("len", s.env, scope))
      && (r.Ok? ==> r.value == State(s.env, Sizes(PythonShape(metadata[SHAPE_KEY]).value)))
  {
    if SHAPE_KEY in s.temp.metadata {
      NumbersPerItem(ShapeItems(s.temp.metadata[SHAPE_KEY]));
    }
  }

  lemma CheckDtypeRuns(field: string, dtype: string, stream: Stream, scope: Scope, s: State)
    ensures var r := RunStmt(CheckDtype(field, dtype), stream, scope, s);
            var i := IndexOf(stream.schema.fields, field);
      && (r.Ok? <==> && SeesBatch(s.env, scope) && i.Some? && DTYPE_KEY in stream.schema.fields[i.value].metadata
                     && stream.schema.fields[i.value].metadata[DTYPE_KEY] == dtype)
      && (r.Ok? ==> r.value == State(s.env, FieldMeta(stream.schema.fields[i.value].metadata)))
  {
  }

  /** The tensor checks pass exactly on honored metadata, with `batch`, `int` and `len` in reach, and bind nothing. */
  lemma TensorChecksRun(field: string, dtype: TensorElementType, dims: seq<Dimension>, stream: Stream,
                        scope: Scope, s: State)
    requires dims != []
    ensures var r := RunStmts(TensorChecks(field, dtype, dims), stream, scope, s);
      && (r.Ok? ==> r.value.env == s.env)
      && (r.Ok? <==> && SeesBatch(s.env, scope) && TensorHonored(stream, field, dtype, dims)
                     && Reaches("int", s.env, scope) && Reaches("len", s.env, scope))
  {
    var d, k := CheckDtype(field, DtypeName(dtype)), CheckRank(field, |dims|);
    var rest := DimChecks(field, dims, 0);
    assert TensorChecks(field, dtype, dims) == [d] + ([k] + rest);
    RunFirst(d, [k] + rest, stream, scope, s);
    CheckDtypeRuns(field, DtypeName(dtype), stream, scope, s);
    var afterDtype := RunStmt(d, stream, scope, s);
    if afterDtype.Ok? {
      RunFirst(k, rest, stream, scope, afterDtype.value);
      CheckRankRuns(field, |dims|, stream, scope, afterDtype.value);
      var afterRank := RunStmt(k, stream, scope, afterDtype.value);
      if afterRank.Ok? {
        DimChecksRun(field, dims, 0, afterRank.value.temp.sizes, stream, scope, afterRank.value);
      }
    }
  }

  lemma CarriedMetadataIsHonored(f: FieldDef, stream: Stream, i: nat)
    requires IndexOf(stream.schema.fields, f.name) == Some(i)
    requires TensorOf(f.ty).Some? && MetadataMatches(f.ty, stream.schema.fields[i].metadata)
    ensures TensorHonored(stream, f.name, TensorOf(f.ty).value.0, TensorOf(f.ty).value.1)
  {
    var dims := TensorOf(f.ty).value.1;
    ParsersInvertFormat(dims);
    AnnouncementsAt(dims);
  }

  // Values

  /** A cell reads as the attribute it carries, except that a map reads as its list of pairs. */
  lemma {:induction false} CellReads(ty: LaicType, v: Value, cell: Cell)
    requires !ty.Map? && (ty.List? ==> !ty.item.Map? && !ty.item.List? && (ty.item.Optional? ==> IsLeaf(ty.item.inner)))
    requires ty.Optional? ==> IsLeaf(ty.inner) || (ty.inner.List? && IsLeaf(ty.inner.item))
    requires HasType(v, ty) && CellCarries(ty, v, cell)
    ensures AsPy(cell) == ToPy(v)
  {
    match ty {
      case List(item) =>
        forall i | 0 <= i < |v.items| ensures AsPy(cell.items[i]) == ToPy(v.items[i]) {
          CellReads(item, v.items[i], cell.items[i]);
        }
        assert AsPy(cell).items == ToPy(v).items;
      case Optional(inner) =>
        if v.o.Some? {
          CellReads(inner, v.o.value, cell);
        }
      case _ =>
    }
  }

  lemma {:induction false} DictOfCarried(entries: seq<(Cell, Cell)>, keys: seq<Scalar>, m: map<Scalar, Scalar>,
                                         pairs: seq<(PyValue, PyValue)>)
    requires |entries| == |keys| == |pairs|
    requires forall i :: 0 <= i < |keys| ==> keys[i] in m && entries[i] == (Leaf(keys[i]), Leaf(m[keys[i]]))
    requires forall i :: 0 <= i < |keys| ==> pairs[i] == (AsPy(entries[i].0), AsPy(entries[i].1))
    ensures DictOf(pairs).Some?
    ensures forall p :: p in DictOf(pairs).value <==> p.PyLeaf? && p.x in keys
    ensures forall k :: k in keys ==> DictOf(pairs).value[PyLeaf(k)] == PyLeaf(m[k])
  {
    if keys != [] {
      var n := |keys| - 1;
      DictOfCarried(entries[..n], keys[..n], m, pairs[..n]);
      assert pairs[n] == (PyLeaf(keys[n]), PyLeaf(m[keys[n]]));
      assert forall k :: k in keys <==> k in keys[..n] || k == keys[n];
    }
  }

  lemma SameDict(d: map<PyValue, PyValue>, keys: seq<Scalar>, m: map<Scalar, Scalar>)
    requires Enumerates(keys, m)
    requires forall p :: p in d <==> p.PyLeaf? && p.x in keys
    requires forall k :: k in keys ==> d[PyLeaf(k)] == PyLeaf(m[k])
    ensures d == ToPyDict(m)
  {
    var t := ToPyDict(m);
    forall p ensures (p in d <==> p in t) && (p in d ==> d[p] == t[p]) {
      if p.PyLeaf? {
        assert p == PyLeaf(p.x);
        assert p.x in keys <==> p.x in m;
      }
    }
  }

  lemma MapReads(m: map<Scalar, Scalar>, entries: seq<(Cell, Cell)>, pairs: seq<(PyValue, PyValue)>)
    requires EntriesCarry(entries, m) && |pairs| == |entries|
    requires forall i :: 0 <= i < |entries| ==> pairs[i] == (AsPy(entries[i].0), AsPy(entries[i].1))
    ensures DictOf(pairs) == Some(ToPyDict(m))
  {
    var keys: seq<Scalar> :| Enumerates(keys, m) && |keys| == |entries|
      && forall i :: 0 <= i < |keys| ==> entries[i] == (Leaf(keys[i]), Leaf(m[keys[i]]));
    DictOfCarried(entries, keys, m, pairs);
    SameDict(DictOf(pairs).value, keys, m);
  }

  // Fields

  /** An infinite default is printed as `inf.0`, which is not Python. */
  predicate DefaultParses(f: FieldDef) {
    IsLeaf(f.ty) && !f.ty.Tensor? && f.default.Some? && f.default.value.FloatLit? ==> IsFinite(f.default.value.bits)
  }

  /** The names a field's statements need, given what names mean in the function. A tensor is bound before
      its checks read `batch`. */
  predicate FieldFree(f: FieldDef, scope: Scope, stream: Stream) {
    && DefaultParses(f)
    && (TensorOf(f.ty).Some? ==> scope.Free("int") && scope.Free("len"))
    && (f.ty.Tensor? ==> f.name != "batch")
    && (f.ty.Map? ==> scope.Free("dict"))
    && (IsLeaf(f.ty) && !f.ty.Tensor? && IndexOf(stream.schema.fields, f.name).Some? ==> scope.Free("pa"))
  }

  /** Whatever shadows a global here is a field's value. */
  predicate OnlyValuesShadow(env: map<string, Object>) {
    forall g :: g in ["ipc", "StopIteration", "pa", "int", "len", "dict"] && g in env ==> env[g].Plain?
  }

  lemma ReachesExactly(name: string, env: map<string, Object>, scope: Scope)
    requires OnlyValuesShadow(env) && name in ["ipc", "StopIteration", "pa", "int", "len", "dict"]
    ensures Reaches(name, env, scope) <==> scope.Free(name)
  {
  }

  /** Where the statements of a field run, and what they leave behind. */
  ghost predicate RunsFree(f: FieldDef, v: Value, stream: Stream, scope: Scope, s: State) {
    var r := RunStmts(FieldStmts(f), stream, scope, s);
    && (r.Ok? <==> FieldFree(f, scope, stream))
    && (r.Ok? ==> r.value.env == s.env[f.name := Plain(ToPy(v))])
  }

  lemma CellFound(f: FieldDef, v: Value, stream: Stream) returns (i: nat, cell: Cell)
    requires OneRow(stream) && Provides(stream, f, v) && IndexOf(stream.schema.fields, f.name).Some?
    ensures IndexOf(stream.schema.fields, f.name) == Some(i)
    ensures FirstCell(stream, f.name) == Ok(cell) && CellCarries(f.ty, v, cell)
    ensures MetadataMatches(f.ty, stream.schema.fields[i].metadata) && TypeMatches(f.ty, stream.schema.fields[i].ty)
    ensures ColumnByName(stream, f.name).Ok? && ColumnByName(stream, f.name).value.cells == [cell]
  {
    i := IndexOf(stream.schema.fields, f.name).value;
    cell := stream.batches[0].columns[i].cells[0];
    assert FieldCarries(f, v, stream.schema.fields[i], stream.batches[0].columns[i]);
  }

  /** The statements after a scalar's column has been found. */
  lemma ScalarTail(f: FieldDef, v: Value, column: Column, i: nat, rest: seq<Stmt>, stream: Stream, scope: Scope, s: State)
    requires IsLeaf(f.ty) && !f.ty.Tensor? && s.temp == ColumnOf(column) && column.cells != [] && AsPy(column.cells[0]) == ToPy(v)
    requires IndexOf(stream.schema.fields, f.name) == Some(i) && stream.schema.fields[i].ty == LeafType(f.ty)
    requires SeesBatch(s.env, scope) && OnlyValuesShadow(s.env)
    requires f.default.None? ==> rest == []
    requires f.default.Some? ==> rest == [ElseBind(f.name, LiteralToPython(f.default.value))]
    ensures var r := RunStmts([CheckType(f.name, PyArrowType(f.ty))] + ([BindFirst(f.name)] + rest), stream, scope, s);
            (r.Ok? <==> scope.Free("pa") && DefaultParses(f)) && (r.Ok? ==> r.value.env == s.env[f.name := Plain(ToPy(v))])
  {
    var check, bind := CheckType(f.name, PyArrowType(f.ty)), BindFirst(f.name);
    RunFirst(check, [bind] + rest, stream, scope, s);
    ReachesExactly("pa", s.env, scope);
    if scope.Free("pa") {
      RunFirst(bind, rest, stream, scope, s);
      if f.default.Some? {
        DefaultEvaluates(f.default.value);
        RunOne(rest[0], stream, scope, Bind(s, f.name, ToPy(v)));
      }
    }
  }

  function Otherwise(f: FieldDef): seq<Stmt> {
    if f.default.Some? then [ElseBind(f.name, LiteralToPython(f.default.value))] else []
  }

  function Loads(f: FieldDef): Stmt {
    if f.default.Some? then LoadColumnIfPresent(f.name) else LoadColumn(f.name)
  }

  lemma ScalarStmts(f: FieldDef)
    requires IsLeaf(f.ty) && !f.ty.Tensor?
    ensures FieldStmts(f) == [Loads(f)] + ([CheckType(f.name, PyArrowType(f.ty))] + ([BindFirst(f.name)] + Otherwise(f)))
  {
  }

  lemma LoadRuns(f: FieldDef, stream: Stream, scope: Scope, s: State)
    requires SeesBatch(s.env, scope)
    ensures ColumnByName(stream, f.name).Ok? ==>
              RunStmt(Loads(f), stream, scope, s) == Ok(State(s.env, ColumnOf(ColumnByName(stream, f.name).value)))
    ensures f.default.Some? && IndexOf(stream.schema.fields, f.name).None? ==>
              RunStmt(Loads(f), stream, scope, s) == Ok(State(s.env, Absent))
  {
  }

  lemma ScalarPresent(f: FieldDef, v: Value, stream: Stream, scope: Scope, s: State)
    requires OneRow(stream) && IsLeaf(f.ty) && !f.ty.Tensor? && HasType(v, f.ty) && Provides(stream, f, v)
    requires IndexOf(stream.schema.fields, f.name).Some? && SeesBatch(s.env, scope) && OnlyValuesShadow(s.env)
    ensures RunsFree(f, v, stream, scope, s)
  {
    var i, cell := CellFound(f, v, stream);
    var column := ColumnByName(stream, f.name).value;
    var tail := [CheckType(f.name, PyArrowType(f.ty))] + ([BindFirst(f.name)] + Otherwise(f));
    ScalarStmts(f);
    LoadRuns(f, stream, scope, s);
    RunFirst(Loads(f), tail, stream, scope, s);
    ScalarTail(f, v, column, i, Otherwise(f), stream, scope, State(s.env, ColumnOf(column)));
  }

  lemma DefaultEvaluates(lit: Literal)
    ensures LiteralValue(LiteralToPython(lit)).Ok? <==> (lit.FloatLit? ==> IsFinite(lit.bits))
    ensures forall ty :: DefaultValue(ty, lit).Some? ==> LiteralValue(LiteralToPython(lit)) == Ok(ToPy(DefaultValue(ty, lit).value))
  {
    if lit.StringLit? {
      StringLiteralIsRead(lit.s);
    }
  }

  /** Without a column only the last statement of a scalar does anything. */
  lemma AbsentTail(field: string, expected: DataType, other: Stmt, stream: Stream, scope: Scope, s: State)
    requires s.temp.Absent?
    ensures RunStmts([CheckType(field, expected)] + ([BindFirst(field)] + [other]), stream, scope, s)
            == RunStmt(other, stream, scope, s)
  {
    RunFirst(CheckType(field, expected), [BindFirst(field)] + [other], stream, scope, s);
    RunFirst(BindFirst(field), [other], stream, scope, s);
    RunOne(other, stream, scope, s);
  }

  lemma ScalarAbsent(f: FieldDef, v: Value, stream: Stream, scope: Scope, s: State)
    requires OneRow(stream) && Supported(f.ty) && Provides(stream, f, v)
    requires IndexOf(stream.schema.fields, f.name).None? && SeesBatch(s.env, scope)
    ensures RunsFree(f, v, stream, scope, s)
  {
    assert IsLeaf(f.ty) && !f.ty.Tensor?;
    var other := ElseBind(f.name, LiteralToPython(f.default.value));
    var tail := [CheckType(f.name, PyArrowType(f.ty))] + ([BindFirst(f.name)] + [other]);
    ScalarStmts(f);
    LoadRuns(f, stream, scope, s);
    RunFirst(Loads(f), tail, stream, scope, s);
    AbsentTail(f.name, PyArrowType(f.ty), other, stream, scope, State(s.env, Absent));
    DefaultEvaluates(f.default.value);
  }

  lemma BindsItems(field: string, cell: Cell, stream: Stream, scope: Scope, s: State)
    requires SeesBatch(s.env, scope) && FirstCell(stream, field) == Ok(cell)
    ensures RunStmt(BindValue(field), stream, scope, s) == Ok(Bind(s, field, AsPy(cell)))
    ensures RunStmt(BindValid(field), stream, scope, s) == Ok(Bind(s, field, AsPy(cell)))
    ensures cell.Items? ==> RunStmt(BindItems(field), stream, scope, s) == Ok(Bind(s, field, AsPy(cell)))
  {
    if cell.Items? {
      assert AsPy(cell).items == seq(|cell.items|, k requires 0 <= k < |cell.items| => AsPy(cell.items[k]));
    }
  }

  lemma BindingShadows(s: State, field: string, v: PyValue, scope: Scope)
    requires "batch" in scope.locals && SeesBatch(s.env, scope) && OnlyValuesShadow(s.env)
    ensures OnlyValuesShadow(Bind(s, field, v).env)
    ensures SeesBatch(Bind(s, field, v).env, scope) <==> field != "batch"
  {
  }

  lemma TensorRuns(f: FieldDef, v: Value, stream: Stream, scope: Scope, s: State)
    requires OneRow(stream) && f.ty.Tensor? && Supported(f.ty) && HasType(v, f.ty) && Provides(stream, f, v)
    requires "batch" in scope.locals && SeesBatch(s.env, scope) && OnlyValuesShadow(s.env)
    ensures RunsFree(f, v, stream, scope, s)
  {
    var i, cell := CellFound(f, v, stream);
    CarriedMetadataIsHonored(f, stream, i);
    BindsItems(f.name, cell, stream, scope, s);
    var checks := TensorChecks(f.name, f.ty.dtype, f.ty.dims);
    var s1 := Bind(s, f.name, ToPy(v));
    RunFirst(BindValue(f.name), checks, stream, scope, s);
    BindingShadows(s, f.name, ToPy(v), scope);
    TensorChecksRun(f.name, f.ty.dtype, f.ty.dims, stream, scope, s1);
    ReachesExactly("int", s1.env, scope);
    ReachesExactly("len", s1.env, scope);
  }

  /** Checks first, then one binding statement. */
  lemma CheckedBindRuns(f: FieldDef, tensor: LaicType, bind: Stmt, v: Value, stream: Stream, scope: Scope, s: State)
    requires tensor.Tensor? && tensor.dims != [] && TensorOf(f.ty) == Some((tensor.dtype, tensor.dims))
    requires FieldStmts(f) == TensorChecks(f.name, tensor.dtype, tensor.dims) + [bind] && !f.ty.Tensor? && !f.ty.Map?
    requires !IsLeaf(f.ty)
    requires SeesBatch(s.env, scope) && OnlyValuesShadow(s.env) && TensorHonored(stream, f.name, tensor.dtype, tensor.dims)
    requires forall t: State :: t.env == s.env ==>
               RunStmt(bind, stream, scope, t).Ok? && RunStmt(bind, stream, scope, t).value.env == s.env[f.name := Plain(ToPy(v))]
    ensures RunsFree(f, v, stream, scope, s)
  {
    var checks := TensorChecks(f.name, tensor.dtype, tensor.dims);
    RunConcat(checks, [bind], stream, scope, s);
    TensorChecksRun(f.name, tensor.dtype, tensor.dims, stream, scope, s);
    ReachesExactly("int", s.env, scope);
    ReachesExactly("len", s.env, scope);
    var r := RunStmts(checks, stream, scope, s);
    if r.Ok? {
      RunOne(bind, stream, scope, r.value);
    }
  }

  lemma ListRuns(f: FieldDef, v: Value, stream: Stream, scope: Scope, s: State)
    requires OneRow(stream) && f.ty.List? && Supported(f.ty) && HasType(v, f.ty) && Provides(stream, f, v)
    requires SeesBatch(s.env, scope) && OnlyValuesShadow(s.env)
    ensures RunsFree(f, v, stream, scope, s)
  {
    var i, cell := CellFound(f, v, stream);
    CellReads(f.ty, v, cell);
    if f.ty.item.Tensor? {
      CarriedMetadataIsHonored(f, stream, i);
      forall t: State | t.env == s.env
        ensures RunStmt(BindItems(f.name), stream, scope, t).Ok?
        ensures RunStmt(BindItems(f.name), stream, scope, t).value.env == s.env[f.name := Plain(ToPy(v))]
      {
        BindsItems(f.name, cell, stream, scope, t);
      }
      CheckedBindRuns(f, f.ty.item, BindItems(f.name), v, stream, scope, s);
    } else {
      BindsItems(f.name, cell, stream, scope, s);
      RunOne(BindValue(f.name), stream, scope, s);
    }
  }

  lemma OptionalRuns(f: FieldDef, v: Value, stream: Stream, scope: Scope, s: State)
    requires OneRow(stream) && f.ty.Optional? && Supported(f.ty) && HasType(v, f.ty) && Provides(stream, f, v)
    requires SeesBatch(s.env, scope) && OnlyValuesShadow(s.env)
    ensures RunsFree(f, v, stream, scope, s)
  {
    var i, cell := CellFound(f, v, stream);
    CellReads(f.ty, v, cell);
    if f.ty.inner.Tensor? {
      CarriedMetadataIsHonored(f, stream, i);
      forall t: State | t.env == s.env
        ensures RunStmt(BindValid(f.name), stream, scope, t).Ok?
        ensures RunStmt(BindValid(f.name), stream, scope, t).value.env == s.env[f.name := Plain(ToPy(v))]
      {
        BindsItems(f.name, cell, stream, scope, t);
      }
      CheckedBindRuns(f, f.ty.inner, BindValid(f.name), v, stream, scope, s);
    } else {
      BindsItems(f.name, cell, stream, scope, s);
      RunOne(BindValid(f.name), stream, scope, s);
    }
  }

  lemma BindsPairs(field: string, cell: Cell, d: map<PyValue, PyValue>, stream: Stream, scope: Scope, s: State)
    requires SeesBatch(s.env, scope) && FirstCell(stream, field) == Ok(cell)
    requires AsPy(cell).PyPairs? && DictOf(AsPy(cell).pairs) == Some(d)
    ensures var r := RunStmt(BindDict(field), stream, scope, s);
            (r.Ok? <==> Reaches("dict", s.env, scope)) && (r.Ok? ==> r.value == Bind(s, field, PyDict(d)))
  {
  }

  lemma BindsDict(field: string, entries: seq<(Cell, Cell)>, m: map<Scalar, Scalar>, stream: Stream, scope: Scope, s: State)
    requires SeesBatch(s.env, scope) && FirstCell(stream, field) == Ok(Entries(entries)) && EntriesCarry(entries, m)
    ensures var r := RunStmt(BindDict(field), stream, scope, s);
            (r.Ok? <==> Reaches("dict", s.env, scope)) && (r.Ok? ==> r.value == Bind(s, field, PyDict(ToPyDict(m))))
  {
    var cell := Entries(entries);
    assert DictOf(AsPy(cell).pairs) == Some(ToPyDict(m)) by {
      MapReads(m, entries, AsPy(cell).pairs);
    }
    BindsPairs(field, cell, ToPyDict(m), stream, scope, s);
  }

  lemma EntriesFound(f: FieldDef, v: Value, stream: Stream) returns (entries: seq<(Cell, Cell)>)
    requires OneRow(stream) && f.ty.Map? && Supported(f.ty) && HasType(v, f.ty) && Provides(stream, f, v)
    ensures v.VMap? && FirstCell(stream, f.name) == Ok(Entries(entries)) && EntriesCarry(entries, v.m)
  {
    var i, cell := CellFound(f, v, stream);
    entries := cell.entries;
  }

  lemma MapRuns(f: FieldDef, v: Value, stream: Stream, scope: Scope, s: State)
    requires OneRow(stream) && f.ty.Map? && Supported(f.ty) && HasType(v, f.ty) && Provides(stream, f, v)
    requires SeesBatch(s.env, scope) && OnlyValuesShadow(s.env)
    ensures RunsFree(f, v, stream, scope, s)
  {
    var entries := EntriesFound(f, v, stream);
    BindsDict(f.name, entries, v.m, stream, scope, s);
    ReachesExactly("dict", s.env, scope);
    RunOne(BindDict(f.name), stream, scope, s);
  }

  /** Every field's statements bind the field to its own value, exactly when they can reach what they read. */
  lemma FieldRuns(f: FieldDef, v: Value, stream: Stream, scope: Scope, s: State)
    requires OneRow(stream) && Supported(f.ty) && HasType(v, f.ty) && Provides(stream, f, v)
    requires "batch" in scope.locals && SeesBatch(s.env, scope) && OnlyValuesShadow(s.env)
    ensures RunsFree(f, v, stream, scope, s)
  {
    if IndexOf(stream.schema.fields, f.name).None? {
      ScalarAbsent(f, v, stream, scope, s);
    } else {
      match f.ty {
        case Tensor(_, _) => TensorRuns(f, v, stream, scope, s);
        case List(_) => ListRuns(f, v, stream, scope, s);
        case Optional(_) => OptionalRuns(f, v, stream, scope, s);
        case Map(_, _) => MapRuns(f, v, stream, scope, s);
        case _ => ScalarPresent(f, v, stream, scope, s);
      }
    }
  }

  predicate ReadsBatch(stmt: Stmt) {
    || stmt.LoadColumn? || stmt.LoadColumnIfPresent? || stmt.BindValue? || stmt.BindValid? || stmt.BindItems?
    || stmt.BindDict? || stmt.CheckDtype?
  }

  lemma StmtNeedsBatch(stmt: Stmt, stream: Stream, scope: Scope, s: State)
    requires ReadsBatch(stmt) && !SeesBatch(s.env, scope)
    ensures RunStmt(stmt, stream, scope, s).Err?
  {
  }

  lemma FieldStartsWithBatch(f: FieldDef)
    ensures FieldStmts(f) != [] && ReadsBatch(FieldStmts(f)[0])
  {
  }

  /** Every field's first statement reads `batch`. */
  lemma FieldNeedsBatch(f: FieldDef, stream: Stream, scope: Scope, s: State)
    requires !SeesBatch(s.env, scope)
    ensures RunStmts(FieldStmts(f), stream, scope, s).Err?
  {
    FieldStartsWithBatch(f);
    StmtNeedsBatch(FieldStmts(f)[0], stream, scope, s);
  }
}
