/** What each block of the emitted Rust deserializer reads from a stream that carries its field. */
module RustReading {
  import opened Wrappers
  import opened Ast
  import opened Shape
  import opened Literals
  import opened Validate
  import opened Arrow
  import opened Records
  import opened RustTypes
  import opened RustSerialize
  import opened RustDeserialize
  import opened RustDecoding
  import RustEncoding

  lemma RunChain(a: Op, b: Op, c: Op, stream: Stream, at: Focus, m1: Focus, m2: Focus)
    requires OneRow(stream) && RunOp(a, stream, at) == Ok(m1) && RunOp(b, stream, m1) == Ok(m2)
    ensures RunOps([a, b, c], stream, at) == RunOp(c, stream, m2)
  {
    RunThree(a, b, c, stream, at, m1);
    RunTwo(b, c, stream, m1, m2);
  }

  /** `.value(0)` of a scalar column. */
  lemma ValueRuns(ty: LaicType, v: Value, cells: seq<Cell>, arr: ArrayType, convert: Convert, stream: Stream)
    requires OneRow(stream) && IsLeaf(ty) && HasType(v, ty) && cells != [] && CellCarries(ty, v, cells[0])
    requires ArrayElement(arr) == LeafType(ty) && ConvertTypechecks(arr, convert)
    ensures RunOps([AsArray(arr), ValueZero(convert)], stream, Untyped(LeafType(ty), cells)) == Ok(Computed(v))
    ensures RunOps([AsArray(arr), ValueZero(convert), WrapSome], stream, Untyped(LeafType(ty), cells))
            == Ok(Computed(VOption(Some(v))))
  {
    LeafIsRead(ty, v, cells[0], arr, convert);
    RunTwo(AsArray(arr), ValueZero(convert), stream, Untyped(LeafType(ty), cells), Typed(arr, cells));
    RunChain(AsArray(arr), ValueZero(convert), WrapSome, stream, Untyped(LeafType(ty), cells), Typed(arr, cells), Computed(v));
  }

  lemma CollectRuns(item: LaicType, items: seq<Value>, cells: seq<Cell>, arr: ArrayType, convert: Convert, stream: Stream)
    requires OneRow(stream) && IsLeaf(item) && |cells| == |items|
    requires forall i :: 0 <= i < |items| ==> HasType(items[i], item) && CellCarries(item, items[i], cells[i])
    requires ArrayElement(arr) == LeafType(item) && ConvertTypechecks(arr, convert)
    ensures RunOps([AsArray(arr), Collect(convert)], stream, Untyped(LeafType(item), cells)) == Ok(Computed(VList(items)))
    ensures RunOps([AsArray(arr), Collect(convert), WrapSome], stream, Untyped(LeafType(item), cells))
            == Ok(Computed(VOption(Some(VList(items)))))
  {
    LeavesAreRead(item, items, cells, arr, convert);
    RunTwo(AsArray(arr), Collect(convert), stream, Untyped(LeafType(item), cells), Typed(arr, cells));
    RunChain(AsArray(arr), Collect(convert), WrapSome, stream, Untyped(LeafType(item), cells), Typed(arr, cells), Computed(VList(items)));
  }

  lemma CollectOptionsRuns(inner: LaicType, items: seq<Value>, cells: seq<Cell>, arr: ArrayType, convert: Convert, stream: Stream)
    requires OneRow(stream) && IsLeaf(inner) && |cells| == |items|
    requires forall i :: 0 <= i < |items| ==> HasType(items[i], Optional(inner)) && CellCarries(Optional(inner), items[i], cells[i])
    requires ArrayElement(arr) == LeafType(inner) && ConvertTypechecks(arr, convert)
    ensures RunOps([AsArray(arr), CollectOptions(convert)], stream, Untyped(LeafType(inner), cells)) == Ok(Computed(VList(items)))
  {
    OptionsAreRead(inner, items, cells, arr, convert);
    RunTwo(AsArray(arr), CollectOptions(convert), stream, Untyped(LeafType(inner), cells), Typed(arr, cells));
  }

  /** The conversions the tables choose are the ones that copy, on readable leaves. */
  lemma ConversionsFit(ty: LaicType)
    requires IsLeaf(ty)
    ensures ArrowArrayType(ty).Some? && ArrayElement(ArrowArrayType(ty).value) == LeafType(ty)
    ensures !ty.Tensor? ==> ConvertTypechecks(ArrowArrayType(ty).value, InnerConvert(ty))
    ensures !ty.Tensor? && !ty.BytesT? ==> ConvertTypechecks(ArrowArrayType(ty).value, PrimitiveConvert(ty))
    ensures ConvertTypechecks(BinaryArray, ToVec)
  {
  }

  /** The field's column as the first operation finds it. */
  lemma ColumnFound(f: FieldDef, v: Value, stream: Stream) returns (i: nat, column: Column)
    requires OneRow(stream) && Provides(stream, f, v) && IndexOf(stream.schema.fields, f.name).Some?
    ensures IndexOf(stream.schema.fields, f.name) == Some(i)
    ensures column == stream.batches[0].columns[i] && ColumnNamed(stream, f.name) == Some(column)
    ensures FieldCarries(f, v, stream.schema.fields[i], column)
    ensures RunOp(LoadColumn(f.name), stream, Nothing) == Ok(Untyped(column.ty, column.cells))
  {
    i := IndexOf(stream.schema.fields, f.name).value;
    column := stream.batches[0].columns[i];
  }

  lemma ScalarPresent(f: FieldDef, v: Value, stream: Stream)
    requires OneRow(stream) && IsLeaf(f.ty) && !f.ty.Tensor? && HasType(v, f.ty) && DefaultCompiles(f)
    requires f.default.Some? ==> InhabitsType(f.ty, f.default.value)
    requires Provides(stream, f, v) && IndexOf(stream.schema.fields, f.name).Some?
    ensures ScalarBlock(f).Some? && BlockValue(ScalarBlock(f).value, stream) == Ok(v)
  {
    var i, column := ColumnFound(f, v, stream);
    ConversionsFit(f.ty);
    var ops := ScalarBlock(f).value;
    var arr := ops[2].arr;
    if f.default.Some? {
      DefaultIsValue(f, arr);
    }
    assert ops == [ops[0], ops[1]] + [ops[2], ops[3]];
    RunOpsConcat([ops[0], ops[1]], [ops[2], ops[3]], stream, Nothing);
    RunTwo(ops[0], ops[1], stream, Nothing, Untyped(column.ty, column.cells));
    TablesAgree(f.ty);
    ValueRuns(f.ty, v, column.cells, arr, ops[3].convert, stream);
  }

  lemma DefaultIsValue(f: FieldDef, arr: ArrayType)
    requires IsLeaf(f.ty) && !f.ty.Tensor? && f.default.Some? && InhabitsType(f.ty, f.default.value)
    requires DefaultCompiles(f) && ArrayElement(arr) == LeafType(f.ty)
    ensures LiteralValue(LiteralToRust(f.default.value), arr).Some?
    ensures DefaultValue(f.ty, f.default.value).Some? ==>
              LiteralValue(LiteralToRust(f.default.value), arr) == DefaultValue(f.ty, f.default.value)
  {
    if f.default.value.StringLit? {
      RustEncoding.QuotedLiteral(f.default.value.s);
    }
  }

  lemma {:induction false} ReturnedStays(ops: seq<Op>, stream: Stream, v: Value)
    requires OneRow(stream)
    ensures RunOps(ops, stream, Returned(v)) == Ok(Returned(v))
  {
    if ops != [] {
      ReturnedStays(ops[1..], stream, v);
    }
  }

  lemma ScalarAbsent(f: FieldDef, v: Value, stream: Stream)
    requires OneRow(stream) && Supported(f.ty) && DefaultCompiles(f)
    requires f.default.Some? ==> InhabitsType(f.ty, f.default.value)
    requires Provides(stream, f, v) && IndexOf(stream.schema.fields, f.name).None?
    ensures FieldBlock(f).Some? && BlockValue(FieldBlock(f).value, stream) == Ok(v)
  {
    assert IsLeaf(f.ty) && !f.ty.Tensor?;
    ConversionsFit(f.ty);
    var ops := ScalarBlock(f).value;
    DefaultIsValue(f, ops[0].arr);
    assert RunOp(ops[0], stream, Nothing) == Ok(Returned(v));
    ReturnedStays(ops[1..], stream, v);
  }

  lemma TensorDecodes(f: FieldDef, v: Value, stream: Stream)
    requires OneRow(stream) && f.ty.Tensor? && HasType(v, f.ty)
    requires Provides(stream, f, v) && IndexOf(stream.schema.fields, f.name).Some?
    ensures FieldBlock(f).Some? && BlockValue(FieldBlock(f).value, stream) == Ok(v)
  {
    var i, column := ColumnFound(f, v, stream);
    CarriedMetadataIsHonored(f, stream, i);
    TensorChecksRun(f.name, f.ty.dtype, f.ty.dims, stream, Nothing);
    var tail := [LoadColumn(f.name), AsArray(BinaryArray), ValueZero(ToVec)];
    RunOpsConcat(TensorChecks(f.name, f.ty.dtype, f.ty.dims), tail, stream, Nothing);
    ValueRuns(f.ty, v, column.cells, BinaryArray, ToVec, stream);
    RunThree(LoadColumn(f.name), AsArray(BinaryArray), ValueZero(ToVec), stream, Nothing, Untyped(column.ty, column.cells));
  }

  /** The three operations before a list's items. */
  lemma ListHead(f: FieldDef, item: LaicType, v: Value, stream: Stream) returns (i: nat, dt: DataType, items: seq<Cell>)
    requires OneRow(stream) && f.ty == List(item) && HasType(v, f.ty)
    requires Provides(stream, f, v) && IndexOf(stream.schema.fields, f.name).Some?
    ensures RunOps([LoadColumn(f.name), AsList, RowZero], stream, Nothing) == Ok(Untyped(dt, items))
    ensures IndexOf(stream.schema.fields, f.name) == Some(i) && TypeMatches(item, dt)
    ensures MetadataMatches(f.ty, stream.schema.fields[i].metadata)
    ensures |items| == |v.items| && forall k :: 0 <= k < |items| ==> CellCarries(item, v.items[k], items[k])
  {
    var column;
    i, column := ColumnFound(f, v, stream);
    dt, items := column.ty.item, column.cells[0].items;
    RunChain(LoadColumn(f.name), AsList, RowZero, stream, Nothing,
             Untyped(column.ty, column.cells), ListRows(column.ty.item, column.cells));
  }

  lemma ListTailRuns(f: FieldDef, item: LaicType, items: seq<Value>, i: nat, dt: DataType, cells: seq<Cell>, stream: Stream)
    requires OneRow(stream) && f.ty == List(item) && Supported(f.ty) && ReadableInRust(f.ty) && HasType(VList(items), f.ty)
    requires IndexOf(stream.schema.fields, f.name) == Some(i) && MetadataMatches(f.ty, stream.schema.fields[i].metadata)
    requires TypeMatches(item, dt) && |cells| == |items| && forall k :: 0 <= k < |items| ==> CellCarries(item, items[k], cells[k])
    ensures ListTail(f.name, item).Some?
    ensures RunOps(ListTail(f.name, item).value, stream, Untyped(dt, cells)) == Ok(Computed(VList(items)))
  {
    if item.Optional? {
      ConversionsFit(item.inner);
      CollectOptionsRuns(item.inner, items, cells, ArrowArrayType(item.inner).value, InnerConvert(item.inner), stream);
    } else if item.Tensor? {
      CarriedMetadataIsHonored(f, stream, i);
      TensorChecksRun(f.name, item.dtype, item.dims, stream, Untyped(dt, cells));
      RunOpsConcat(TensorChecks(f.name, item.dtype, item.dims), [AsArray(BinaryArray), Collect(ToVec)], stream, Untyped(dt, cells));
      CollectRuns(item, items, cells, BinaryArray, ToVec, stream);
    } else {
      ConversionsFit(item);
      CollectRuns(item, items, cells, ArrowArrayType(item).value, InnerConvert(item), stream);
    }
  }

  lemma ListDecodes(f: FieldDef, v: Value, stream: Stream)
    requires OneRow(stream) && f.ty.List? && Supported(f.ty) && ReadableInRust(f.ty) && HasType(v, f.ty)
    requires Provides(stream, f, v) && IndexOf(stream.schema.fields, f.name).Some?
    ensures FieldBlock(f).Some? && BlockValue(FieldBlock(f).value, stream) == Ok(v)
  {
    var item := f.ty.item;
    var i, dt, cells := ListHead(f, item, v, stream);
    assert v == VList(v.items);
    ListTailRuns(f, item, v.items, i, dt, cells, stream);
    RunOpsConcat([LoadColumn(f.name), AsList, RowZero], ListTail(f.name, item).value, stream, Nothing);
  }

  /** Loading an optional column and checking the metadata its field must carry. */
  lemma OptionalHead(f: FieldDef, v: Value, stream: Stream) returns (column: Column)
    requires OneRow(stream) && f.ty.Optional? && HasType(v, f.ty)
    requires Provides(stream, f, v) && IndexOf(stream.schema.fields, f.name).Some?
    ensures TypeMatches(f.ty.inner, column.ty) && |column.cells| == 1 && CellCarries(f.ty, v, column.cells[0])
    ensures var inner := f.ty.inner;
            var checks := if inner.Tensor? then TensorChecks(f.name, inner.dtype, inner.dims) else [];
            RunOps([LoadColumn(f.name)] + checks, stream, Nothing) == Ok(Untyped(column.ty, column.cells))
  {
    var i;
    i, column := ColumnFound(f, v, stream);
    var inner := f.ty.inner;
    var checks := if inner.Tensor? then TensorChecks(f.name, inner.dtype, inner.dims) else [];
    RunCons(LoadColumn(f.name), checks, stream, Nothing);
    if inner.Tensor? {
      CarriedMetadataIsHonored(f, stream, i);
      TensorChecksRun(f.name, inner.dtype, inner.dims, stream, Untyped(column.ty, column.cells));
    }
  }

  lemma OptionalTailRuns(inner: LaicType, v: Value, column: Column, stream: Stream)
    requires OneRow(stream) && (IsLeaf(inner) || (inner.List? && IsLeaf(inner.item))) && ReadableInRust(Optional(inner))
    requires HasType(v, inner) && TypeMatches(inner, column.ty) && |column.cells| == 1 && CellCarries(inner, v, column.cells[0])
    ensures OptionalTail(inner).Some?
    ensures RunOps(OptionalTail(inner).value, stream, Untyped(column.ty, column.cells)) == Ok(Computed(VOption(Some(v))))
  {
    if inner.List? {
      ConversionsFit(inner.item);
      var arr, convert := ArrowArrayType(inner.item).value, InnerConvert(inner.item);
      var tail := [AsArray(arr), Collect(convert), WrapSome];
      assert OptionalTail(inner).value == [AsList, RowZero] + tail;
      var items := column.cells[0].items;
      RunOpsConcat([AsList, RowZero], tail, stream, Untyped(column.ty, column.cells));
      RunTwo(AsList, RowZero, stream, Untyped(column.ty, column.cells), ListRows(column.ty.item, column.cells));
      CollectRuns(inner.item, v.items, items, arr, convert, stream);
      assert v == VList(v.items);
    } else {
      ConversionsFit(inner);
      var ops := OptionalTail(inner).value;
      assert ops == [AsArray(ops[0].arr), ValueZero(ops[1].convert), WrapSome];
      ValueRuns(inner, v, column.cells, ops[0].arr, ops[1].convert, stream);
    }
  }

  lemma OptionalBlockIs(f: FieldDef)
    requires f.ty.Optional? && OptionalTail(f.ty.inner).Some?
    ensures var inner := f.ty.inner;
            var checks := if inner.Tensor? then TensorChecks(f.name, inner.dtype, inner.dims) else [];
            FieldBlock(f) == Some(([LoadColumn(f.name)] + checks) + ([NullMeansNone] + OptionalTail(inner).value))
  {
    var inner := f.ty.inner;
    var checks := if inner.Tensor? then TensorChecks(f.name, inner.dtype, inner.dims) else [];
    assert [LoadColumn(f.name)] + checks + [NullMeansNone] + OptionalTail(inner).value
           == ([LoadColumn(f.name)] + checks) + ([NullMeansNone] + OptionalTail(inner).value);
  }

  lemma NullTestRuns(inner: LaicType, v: Value, column: Column, tail: seq<Op>, stream: Stream)
    requires OneRow(stream) && |column.cells| == 1 && HasType(v, Optional(inner)) && CellCarries(Optional(inner), v, column.cells[0])
    requires v.o.Some? ==> RunOps(tail, stream, Untyped(column.ty, column.cells)) == Ok(Computed(v))
    ensures RunOps([NullMeansNone] + tail, stream, Untyped(column.ty, column.cells))
            == Ok(if v.o.None? then Returned(v) else Computed(v))
  {
    RunCons(NullMeansNone, tail, stream, Untyped(column.ty, column.cells));
    if v.o.None? {
      assert v == VOption(None);
      ReturnedStays(tail, stream, v);
    }
  }

  /** A null row is `None`; an empty list is not. */
  lemma OptionalDecodes(f: FieldDef, v: Value, stream: Stream)
    requires OneRow(stream) && f.ty.Optional? && Supported(f.ty) && ReadableInRust(f.ty) && HasType(v, f.ty)
    requires Provides(stream, f, v) && IndexOf(stream.schema.fields, f.name).Some?
    ensures FieldBlock(f).Some? && BlockValue(FieldBlock(f).value, stream) == Ok(v)
  {
    DeserializerNeverPanics(f);
    var inner := f.ty.inner;
    var checks := if inner.Tensor? then TensorChecks(f.name, inner.dtype, inner.dims) else [];
    var tail := OptionalTail(inner).value;
    var column := OptionalHead(f, v, stream);
    OptionalBlockIs(f);
    if v.o.Some? {
      OptionalTailRuns(inner, v.o.value, column, stream);
      assert v == VOption(Some(v.o.value));
    }
    NullTestRuns(inner, v, column, tail, stream);
    RunOpsConcat([LoadColumn(f.name)] + checks, [NullMeansNone] + tail, stream, Nothing);
  }

  lemma CollectMapRuns(kt: DataType, vt: DataType, entries: seq<(Cell, Cell)>, k: ArrayType, kc: Convert,
                       v: ArrayType, vc: Convert, m: map<Scalar, Scalar>, stream: Stream)
    requires OneRow(stream) && ArrayElement(k) == kt && ArrayElement(v) == vt
    requires ConvertTypechecks(k, kc) && ConvertTypechecks(v, vc) && InsertAll(k, kc, v, vc, entries) == Ok(m)
    ensures RunOps([KeysAs(k), ValuesAs(v), CollectMap(kc, vc)], stream, Pairs(kt, vt, entries, None, None)) == Ok(Computed(VMap(m)))
  {
    var p0 := Pairs(kt, vt, entries, None, None);
    var p1 := Pairs(kt, vt, entries, Some(k), None);
    var p2 := Pairs(kt, vt, entries, Some(k), Some(v));
    assert RunOp(KeysAs(k), stream, p0) == Ok(p1);
    assert RunOp(ValuesAs(v), stream, p1) == Ok(p2);
    RunChain(KeysAs(k), ValuesAs(v), CollectMap(kc, vc), stream, p0, p1, p2);
  }

  lemma MapTailRuns(key: LaicType, value: LaicType, m: map<Scalar, Scalar>, entries: seq<(Cell, Cell)>, stream: Stream)
    requires OneRow(stream) && IsMapKey(key) && IsMapValue(value)
    requires HasType(VMap(m), Map(key, value)) && EntriesCarry(entries, m)
    ensures ArrowArrayType(key).Some? && ArrowArrayType(value).Some?
    ensures RunOps([KeysAs(ArrowArrayType(key).value), ValuesAs(ArrowArrayType(value).value),
                    CollectMap(InnerConvert(key), InnerConvert(value))],
                   stream, Pairs(LeafType(key), LeafType(value), entries, None, None))
            == Ok(Computed(VMap(m)))
  {
    ConversionsFit(key);
    ConversionsFit(value);
    var k, v := ArrowArrayType(key).value, ArrowArrayType(value).value;
    var kc, vc := InnerConvert(key), InnerConvert(value);
    MapIsRead(key, value, m, entries, k, kc, v, vc);
    CollectMapRuns(LeafType(key), LeafType(value), entries, k, kc, v, vc, m, stream);
  }

  lemma MapRowRuns(name: string, key: DataType, value: DataType, column: Column, entries: seq<(Cell, Cell)>, stream: Stream)
    requires OneRow(stream) && RunOp(LoadColumn(name), stream, Nothing) == Ok(Untyped(column.ty, column.cells))
    requires column.ty.MapOf? && column.ty.key == key && column.ty.value == value && column.cells == [Entries(entries)]
    ensures RunOps([LoadColumn(name), AsMap, RowZero], stream, Nothing) == Ok(Pairs(key, value, entries, None, None))
  {
    RunChain(LoadColumn(name), AsMap, RowZero, stream, Nothing,
             Untyped(column.ty, column.cells), MapRows(key, value, column.cells));
  }

  lemma MapHead(f: FieldDef, v: Value, stream: Stream) returns (entries: seq<(Cell, Cell)>)
    requires OneRow(stream) && f.ty.Map? && IsLeaf(f.ty.key) && IsLeaf(f.ty.value) && HasType(v, f.ty)
    requires Provides(stream, f, v) && IndexOf(stream.schema.fields, f.name).Some?
    ensures EntriesCarry(entries, v.m)
    ensures RunOps([LoadColumn(f.name), AsMap, RowZero], stream, Nothing)
            == Ok(Pairs(LeafType(f.ty.key), LeafType(f.ty.value), entries, None, None))
  {
    var i, column := ColumnFound(f, v, stream);
    entries := column.cells[0].entries;
    assert TypeMatches(f.ty.key, column.ty.key) && TypeMatches(f.ty.value, column.ty.value);
    assert column.cells == [Entries(entries)];
    MapRowRuns(f.name, LeafType(f.ty.key), LeafType(f.ty.value), column, entries, stream);
  }

  lemma MapDecodes(f: FieldDef, v: Value, stream: Stream)
    requires OneRow(stream) && f.ty.Map? && Supported(f.ty) && HasType(v, f.ty)
    requires Provides(stream, f, v) && IndexOf(stream.schema.fields, f.name).Some?
    ensures FieldBlock(f).Some? && BlockValue(FieldBlock(f).value, stream) == Ok(v)
  {
    var key, value := f.ty.key, f.ty.value;
    var entries := MapHead(f, v, stream);
    assert v == VMap(v.m);
    MapTailRuns(key, value, v.m, entries, stream);
    RunOpsConcat([LoadColumn(f.name), AsMap, RowZero],
                 [KeysAs(ArrowArrayType(key).value), ValuesAs(ArrowArrayType(value).value),
                  CollectMap(InnerConvert(key), InnerConvert(value))],
                 stream, Nothing);
  }

  /** Every block that compiles reads the value its stream provides. */
  lemma FieldDecodes(f: FieldDef, v: Value, stream: Stream)
    requires OneRow(stream) && Supported(f.ty) && FieldCompiles(f) && HasType(v, f.ty) && Provides(stream, f, v)
    requires f.default.Some? ==> InhabitsType(f.ty, f.default.value)
    ensures FieldBlock(f).Some? && BlockValue(FieldBlock(f).value, stream) == Ok(v)
  {
    if IndexOf(stream.schema.fields, f.name).None? {
      ScalarAbsent(f, v, stream);
    } else {
      match f.ty {
        case Tensor(_, _) => TensorDecodes(f, v, stream);
        case List(_) => ListDecodes(f, v, stream);
        case Optional(_) => OptionalDecodes(f, v, stream);
        case Map(_, _) => MapDecodes(f, v, stream);
        case _ => ScalarPresent(f, v, stream);
      }
    }
  }
}
