/** What the emitted Rust serializer builds carries the record it was given. */
module RustEncoding {
  import opened Wrappers
  import opened Ast
  import opened Literals
  import opened Validate
  import opened Arrow
  import opened Records
  import opened RustTypes
  import opened RustSerialize

  lemma OrdersStayInside(order: Order)
    requires IsOrder(order)
    ensures KeysOnly(order)
  {
    forall m, i | 0 <= i < |order(m)| ensures order(m)[i] in m {
      assert Enumerates(order(m), m);
    }
  }

  lemma AppendsLeaf(ty: LaicType, x: Scalar)
    requires IsLeaf(ty) && Fits(LeafType(ty), x)
    ensures AppendScalar(LeafType(ty), Deref(ty), x) == Some(Leaf(x))
    ensures (if ty.StringT? || ty.BytesT? then ByRef else Deref(ty)) == Deref(ty)
  {
    TablesAgree(ty);
  }

  lemma {:induction false} AppendsAll(ty: LaicType, items: seq<Value>)
    requires IsLeaf(ty) && forall i :: 0 <= i < |items| ==> HasType(items[i], ty)
    ensures var cells := AppendValues(LeafType(ty), Deref(ty), items);
      && cells.Some? && |cells.value| == |items|
      && forall i :: 0 <= i < |items| ==> CellCarries(ty, items[i], cells.value[i])
  {
    if items != [] {
      AppendsAll(ty, items[..|items| - 1]);
      assert HasType(items[|items| - 1], ty);
      AppendsLeaf(ty, items[|items| - 1].x);
    }
  }

  lemma {:induction false} AppendsAllOptions(ty: LaicType, items: seq<Value>)
    requires IsLeaf(ty) && forall i :: 0 <= i < |items| ==> HasType(items[i], Optional(ty))
    ensures var cells := AppendOptionValues(LeafType(ty), Deref(ty), items);
      && cells.Some? && |cells.value| == |items|
      && forall i :: 0 <= i < |items| ==> CellCarries(Optional(ty), items[i], cells.value[i])
  {
    if items != [] {
      AppendsAllOptions(ty, items[..|items| - 1]);
      var last := items[|items| - 1];
      assert HasType(last, Optional(ty));
      if last.o.Some? {
        AppendsLeaf(ty, last.o.value.x);
      }
    }
  }

  lemma {:induction false} AppendsAllPairs(key: LaicType, value: LaicType, keys: seq<Scalar>, m: map<Scalar, Scalar>)
    requires IsLeaf(key) && IsLeaf(value)
    requires forall i :: 0 <= i < |keys| ==> keys[i] in m
    requires forall k :: k in m ==> Fits(LeafType(key), k) && Fits(LeafType(value), m[k])
    ensures var entries := AppendPairs(LeafType(key), Deref(key), LeafType(value), Deref(value), keys, m);
      && entries.Some? && |entries.value| == |keys|
      && forall i :: 0 <= i < |keys| ==> entries.value[i] == (Leaf(keys[i]), Leaf(m[keys[i]]))
  {
    if keys != [] {
      AppendsAllPairs(key, value, keys[..|keys| - 1], m);
      var k := keys[|keys| - 1];
      AppendsLeaf(key, k);
      AppendsLeaf(value, m[k]);
    }
  }

  /** A program of four steps, one after the other. */
  lemma RunFour(a: Step, b: Step, c: Step, d: Step, v: Value, order: Order, b1: Building, b2: Building, b3: Building, b4: Building)
    requires KeysOnly(order)
    requires RunStep(a, Start, v, order) == Some(b1) && RunStep(b, b1, v, order) == Some(b2)
    requires RunStep(c, b2, v, order) == Some(b3) && RunStep(d, b3, v, order) == Some(b4)
    ensures RunSteps([a, b, c, d], Start, v, order) == Some(b4)
  {
    assert [a, b, c, d][1..] == [b, c, d] && [b, c, d][1..] == [c, d] && [c, d][1..] == [d] && [d][1..] == [];
    assert RunSteps([d], b3, v, order) == Some(b4);
    assert RunSteps([c, d], b2, v, order) == Some(b4);
    assert RunSteps([b, c, d], b1, v, order) == Some(b4);
  }

  lemma RunThree(a: Step, b: Step, c: Step, v: Value, order: Order, b1: Building, b2: Building, b3: Building)
    requires KeysOnly(order)
    requires RunStep(a, Start, v, order) == Some(b1) && RunStep(b, b1, v, order) == Some(b2)
    requires RunStep(c, b2, v, order) == Some(b3)
    ensures RunSteps([a, b, c], Start, v, order) == Some(b3)
  {
    assert [a, b, c][1..] == [b, c] && [b, c][1..] == [c] && [c][1..] == [];
    assert RunSteps([c], b2, v, order) == Some(b3);
    assert RunSteps([b, c], b1, v, order) == Some(b3);
  }

  lemma RowAppended(item: DataType, cells: seq<Cell>, v: Value, order: Order)
    requires KeysOnly(order)
    ensures RunStep(AppendRow, Lists(item, cells, []), v, order) == Some(Lists(item, [], [Items(cells)]))
  {
    assert [] + [Items(cells)] == [Items(cells)];
  }

  lemma RunOne(a: Step, v: Value, order: Order)
    requires KeysOnly(order)
    ensures RunSteps([a], Start, v, order) == RunStep(a, Start, v, order)
  {
    assert [a][1..] == [];
  }

  /** The column a value was built into. */
  ghost predicate Builds(ty: LaicType, reached: bool, v: Value, order: Order, column: Column)
    requires KeysOnly(order)
  {
    && ColumnSteps(ty, reached).Some?
    && BuildColumn(ColumnSteps(ty, reached).value, v, order) == Some(column)
    && column.ty == ArrowDatatype(ty)
    && |column.cells| == 1 && CellCarries(ty, v, column.cells[0])
    && (column.cells[0].Null? ==> ty.Optional?)
  }

  lemma BuildLeaf(ty: LaicType, reached: bool, v: Value, order: Order) returns (column: Column)
    requires KeysOnly(order) && IsLeaf(ty) && HasType(v, ty)
    ensures Builds(ty, reached, v, order, column)
  {
    column := Column(LeafType(ty), [Leaf(v.x)]);
    RunOne(ColumnSteps(ty, reached).value[0], v, order);
  }

  /** An optional leaf goes through an array of options. */
  lemma OptionalLeafSteps(inner: LaicType) returns (arr: ArrayType, access: Access)
    requires IsLeaf(inner)
    ensures OptionalSteps(inner) == Some([FromVec(arr, access)]) && ArrayElement(arr) == LeafType(inner)
    ensures access == if IsCopy(LeafType(inner)) then ByValue else AsDeref
  {
    arr, access := OptionalSteps(inner).value[0].arr, OptionalSteps(inner).value[0].access;
  }

  lemma BuildOptionalLeaf(inner: LaicType, reached: bool, v: Value, order: Order) returns (column: Column)
    requires KeysOnly(order) && IsLeaf(inner) && HasType(v, Optional(inner))
    ensures Builds(Optional(inner), reached, v, order, column)
  {
    var arr, access := OptionalLeafSteps(inner);
    var cell := if v.o.None? then Null else Leaf(v.o.value.x);
    assert FromVecCell(arr, access, v) == Some(cell);
    column := Column(LeafType(inner), [cell]);
    RunOne(FromVec(arr, access), v, order);
  }

  lemma ListStepsRun(builder: BuilderType, append: Append, items: seq<Value>, order: Order, cells: seq<Cell>)
    requires KeysOnly(order)
    requires AppendValues(BuilderElement(builder), append, items) == Some(cells)
    ensures BuildColumn([NewList(builder), AppendItems(append), AppendRow, Finish], VList(items), order)
            == Some(Column(ListOf(BuilderElement(builder), true), [Items(cells)]))
  {
    var dt := BuilderElement(builder);
    assert [] + cells == cells;
    RowAppended(dt, cells, VList(items), order);
    RunFour(NewList(builder), AppendItems(append), AppendRow, Finish, VList(items), order,
            Lists(dt, [], []), Lists(dt, cells, []), Lists(dt, [], [Items(cells)]), Built(Column(ListOf(dt, true), [Items(cells)])));
  }

  lemma BuildList(item: LaicType, reached: bool, v: Value, order: Order) returns (column: Column)
    requires KeysOnly(order) && IsLeaf(item) && HasType(v, List(item))
    ensures Builds(List(item), reached, v, order, column)
  {
    TablesAgree(item);
    AppendsAll(item, v.items);
    var cells := AppendValues(LeafType(item), Deref(item), v.items).value;
    ListStepsRun(ArrowBuilderType(item).value, Deref(item), v.items, order, cells);
    assert v == VList(v.items);
    column := Column(ListOf(LeafType(item), true), [Items(cells)]);
  }

  lemma OptionsStepsRun(builder: BuilderType, append: Append, items: seq<Value>, order: Order, cells: seq<Cell>)
    requires KeysOnly(order)
    requires AppendOptionValues(BuilderElement(builder), append, items) == Some(cells)
    ensures BuildColumn([NewList(builder), AppendOptions(append), AppendRow, Finish], VList(items), order)
            == Some(Column(ListOf(BuilderElement(builder), true), [Items(cells)]))
  {
    var dt := BuilderElement(builder);
    assert [] + cells == cells;
    RowAppended(dt, cells, VList(items), order);
    RunFour(NewList(builder), AppendOptions(append), AppendRow, Finish, VList(items), order,
            Lists(dt, [], []), Lists(dt, cells, []), Lists(dt, [], [Items(cells)]), Built(Column(ListOf(dt, true), [Items(cells)])));
  }

  lemma BuildListOfOptions(inner: LaicType, v: Value, order: Order) returns (column: Column)
    requires KeysOnly(order) && IsLeaf(inner) && HasType(v, List(Optional(inner)))
    ensures Builds(List(Optional(inner)), true, v, order, column)
  {
    TablesAgree(inner);
    AppendsAllOptions(inner, v.items);
    var cells := AppendOptionValues(LeafType(inner), Deref(inner), v.items).value;
    OptionsStepsRun(ArrowBuilderType(inner).value, Deref(inner), v.items, order, cells);
    assert v == VList(v.items);
    column := Column(ListOf(LeafType(inner), true), [Items(cells)]);
  }

  lemma OptionalRowRun(builder: BuilderType, append: Append, v: Value, order: Order, row: Cell)
    requires KeysOnly(order) && v.VOption?
    requires v.o.None? ==> row == Null
    requires v.o.Some? ==> v.o.value.VList?
                           && AppendValues(BuilderElement(builder), append, v.o.value.items).Some?
                           && row == Items(AppendValues(BuilderElement(builder), append, v.o.value.items).value)
    ensures BuildColumn([NewList(builder), AppendOptionalRow(append), Finish], v, order)
            == Some(Column(ListOf(BuilderElement(builder), true), [row]))
  {
    var dt := BuilderElement(builder);
    assert [] + [row] == [row];
    if v.o.Some? {
      assert [] + row.items == row.items;
    }
    RunThree(NewList(builder), AppendOptionalRow(append), Finish, v, order,
             Lists(dt, [], []), Lists(dt, [], [row]), Built(Column(ListOf(dt, true), [row])));
  }

  /** An absent list is a null row and an empty list is an empty one. */
  lemma BuildOptionalList(item: LaicType, reached: bool, v: Value, order: Order) returns (column: Column)
    requires KeysOnly(order) && IsLeaf(item) && HasType(v, Optional(List(item)))
    ensures Builds(Optional(List(item)), reached, v, order, column)
  {
    TablesAgree(item);
    var row := Null;
    if v.o.Some? {
      AppendsAll(item, v.o.value.items);
      row := Items(AppendValues(LeafType(item), Deref(item), v.o.value.items).value);
    }
    OptionalRowRun(ArrowBuilderType(item).value, Deref(item), v, order, row);
    column := Column(ListOf(LeafType(item), true), [row]);
  }

  lemma MapEntries(key: LaicType, value: LaicType, m: map<Scalar, Scalar>, order: Order) returns (entries: seq<(Cell, Cell)>)
    requires KeysOnly(order) && IsOrder(order) && IsLeaf(key) && IsLeaf(value) && HasType(VMap(m), Map(key, value))
    ensures AppendPairs(LeafType(key), Deref(key), LeafType(value), Deref(value), order(m), m) == Some(entries)
    ensures EntriesCarry(entries, m)
  {
    var keys := order(m);
    assert Enumerates(keys, m);
    AppendsAllPairs(key, value, keys, m);
    entries := AppendPairs(LeafType(key), Deref(key), LeafType(value), Deref(value), keys, m).value;
  }

  lemma MapStepsRun(keys: BuilderType, values: BuilderType, ka: Append, va: Append, m: map<Scalar, Scalar>, order: Order,
                    entries: seq<(Cell, Cell)>)
    requires KeysOnly(order)
    requires AppendPairs(BuilderElement(keys), ka, BuilderElement(values), va, order(m), m) == Some(entries)
    ensures BuildColumn([NewMap(keys, values), AppendEntries(ka, va), AppendRow, Finish], VMap(m), order)
            == Some(Column(MapOf("keys", BuilderElement(keys), "values", BuilderElement(values), true), [Entries(entries)]))
  {
    var kt, vt := BuilderElement(keys), BuilderElement(values);
    assert [] + entries == entries && [] + [Entries(entries)] == [Entries(entries)];
    RunFour(NewMap(keys, values), AppendEntries(ka, va), AppendRow, Finish, VMap(m), order,
            Maps(kt, vt, [], []), Maps(kt, vt, entries, []), Maps(kt, vt, [], [Entries(entries)]),
            Built(Column(MapOf("keys", kt, "values", vt, true), [Entries(entries)])));
  }

  lemma MapStepsAre(key: LaicType, value: LaicType)
    requires IsMapKey(key) && IsMapValue(value)
    ensures ArrowBuilderType(key).Some? && ArrowBuilderType(value).Some?
    ensures MapSteps(key, value)
            == Some([NewMap(ArrowBuilderType(key).value, ArrowBuilderType(value).value),
                     AppendEntries(Deref(key), Deref(value)), AppendRow, Finish])
  {
  }

  lemma BuildMap(key: LaicType, value: LaicType, reached: bool, v: Value, order: Order) returns (column: Column)
    requires KeysOnly(order) && IsOrder(order) && IsMapKey(key) && IsMapValue(value) && HasType(v, Map(key, value))
    ensures Builds(Map(key, value), reached, v, order, column)
  {
    TablesAgree(key);
    TablesAgree(value);
    assert v == VMap(v.m);
    var entries := MapEntries(key, value, v.m, order);
    MapStepsAre(key, value);
    MapStepsRun(ArrowBuilderType(key).value, ArrowBuilderType(value).value, Deref(key), Deref(value), v.m, order, entries);
    column := Column(MapOf("keys", LeafType(key), "values", LeafType(value), true), [Entries(entries)]);
  }

  /** Wherever emission succeeds, the built column has the declared type and carries the value. */
  lemma BuildAny(ty: LaicType, reached: bool, v: Value, order: Order) returns (column: Column)
    requires KeysOnly(order) && IsOrder(order) && Supported(ty) && HasType(v, ty)
    requires ColumnSteps(ty, reached).Some?
    ensures Builds(ty, reached, v, order, column)
  {
    PanicsExactly(ty);
    match ty {
      case List(item) =>
        if item.Optional? {
          column := BuildListOfOptions(item.inner, v, order);
        } else {
          column := BuildList(item, reached, v, order);
        }
      case Optional(inner) =>
        if inner.List? {
          column := BuildOptionalList(inner.item, reached, v, order);
        } else {
          column := BuildOptionalLeaf(inner, reached, v, order);
        }
      case Map(key, value) =>
        column := BuildMap(key, value, reached, v, order);
      case _ =>
        column := BuildLeaf(ty, reached, v, order);
    }
  }

  lemma DeclaredType(f: FieldDef)
    requires Supported(f.ty)
    ensures SchemaField(f).ty == ArrowDatatype(f.ty) && SchemaField(f).nullable == f.ty.Optional?
    ensures SchemaField(f).name == f.name && MetadataMatches(f.ty, SchemaField(f).metadata)
  {
    DatatypeMatches(f.ty);
  }

  // Whole programs

  lemma {:induction false} BuildAllColumns(columns: seq<(string, seq<Step>)>, rec: Record, order: Order)
    requires KeysOnly(order)
    requires forall i :: 0 <= i < |columns| ==>
               columns[i].0 in rec && BuildColumn(columns[i].1, rec[columns[i].0], order).Some?
    ensures var built := BuildColumns(columns, rec, order);
      && built.Some? && |built.value| == |columns|
      && forall i :: 0 <= i < |columns| ==>
           BuildColumn(columns[i].1, rec[columns[i].0], order) == Some(built.value[i])
  {
    if columns != [] {
      assert columns[0].0 in rec && BuildColumn(columns[0].1, rec[columns[0].0], order).Some?;
      BuildAllColumns(columns[1..], rec, order);
    }
  }

  lemma MetadataIs(a: (string, string), b: (string, string), c: (string, string))
    ensures MetadataMap([a, b, c]) ==
            if RustLiteral(a.1).None? || RustLiteral(b.1).None? || RustLiteral(c.1).None? then None
            else Some(map[a.0 := RustLiteral(a.1).value, b.0 := RustLiteral(b.1).value, c.0 := RustLiteral(c.1).value])
  {
    assert [a, b, c][..2] == [a, b] && [a, b][..1] == [a] && [a][..0] == [];
    assert MetadataMap([]) == Some(map[]);
    assert MetadataMap([a]) == if RustLiteral(a.1).None? then None else Some(map[a.0 := RustLiteral(a.1).value]);
    assert MetadataMap([a, b]) ==
           if RustLiteral(a.1).None? || RustLiteral(b.1).None? then None
           else Some(map[a.0 := RustLiteral(a.1).value, b.0 := RustLiteral(b.1).value]);
  }

  lemma DirectionLiteral(direction: string)
    requires IsDirection(direction)
    ensures RustLiteral("\"" + direction + "\"") == Some(direction)
  {
    assert !HasC1(direction);
    var quoted := "\"" + direction + "\"";
    assert Escape(direction, Rust) == direction by {
      PlainText(direction);
    }
    assert Quoted(direction, Rust) + "" == quoted;
    RustRoundTrip(direction, "");
  }

  lemma {:induction false} PlainText(s: string)
    requires forall i :: 0 <= i < |s| ==> 'a' <= s[i] <= 'z'
    ensures Escape(s, Rust) == s
  {
    if s != "" {
      PlainText(s[1..]);
      assert EscapeChar(s[0], Rust) == [s[0]];
    }
  }

  lemma QuotedLiteral(value: string)
    ensures RustLiteral(Quoted(value, Rust)) == if HasC1(value) then None else Some(value)
  {
    RustRoundTrip(value, "");
    assert Quoted(value, Rust) + "" == Quoted(value, Rust);
  }

  predicate CleanText(value: string) {
    !HasC1(value) && !HasTextFlow(value)
  }

  lemma QuotedCompiles(value: string)
    ensures LiteralCompiles(Quoted(value, Rust)) <==> CleanText(value)
  {
    QuotedLiteral(value);
    QuotedKeepsTextFlow(value);
  }

  /** Quoted, these names compile. */
  predicate CleanContract(contract: Contract) {
    CleanText(contract.skillId) && CleanText(contract.version)
  }

  /** Quoted, these names are tokens. */
  predicate PlainContract(contract: Contract) {
    !HasC1(contract.skillId) && !HasC1(contract.version)
  }

  lemma ContractMetadata(p: Program, def: StructDef, contract: Contract, reached: bool)
    requires IsProgram(p, def, contract, reached) && IsDirection(contract.direction)
    ensures MetadataMap(p.metadata).Some? <==> PlainContract(contract)
    ensures PlainContract(contract) ==> Announces(contract, MetadataMap(p.metadata).value)
  {
    QuotedLiteral(contract.skillId);
    QuotedLiteral(contract.version);
    DirectionLiteral(contract.direction);
    MetadataIs(p.metadata[0], p.metadata[1], p.metadata[2]);
    assert p.metadata == [p.metadata[0], p.metadata[1], p.metadata[2]];
    assert SKILL_ID_KEY != VERSION_KEY && SKILL_ID_KEY != DIRECTION_KEY && VERSION_KEY != DIRECTION_KEY by {
      assert |SKILL_ID_KEY| == 13 && |VERSION_KEY| == 12 && |DIRECTION_KEY| == 14;
    }
  }

  lemma FieldBuilds(f: FieldDef, reached: bool, v: Value, order: Order) returns (column: Column)
    requires KeysOnly(order) && IsOrder(order) && Supported(f.ty) && HasType(v, f.ty) && ColumnSteps(f.ty, reached).Some?
    ensures BuildColumn(ColumnSteps(f.ty, reached).value, v, order) == Some(column)
    ensures FieldCarries(f, v, SchemaField(f), column)
    ensures |column.cells| == 1 && column.ty == SchemaField(f).ty && (SchemaField(f).nullable || Null !in column.cells)
  {
    column := BuildAny(f.ty, reached, v, order);
    DeclaredType(f);
    DatatypeMatches(f.ty);
  }

  /** A field is declared nullable exactly if the cell of some value of its type is null. */
  lemma NullableExactly(f: FieldDef)
    requires Supported(f.ty)
    ensures SchemaField(f).nullable <==> exists v :: HasType(v, f.ty) && CellCarries(f.ty, v, Null)
  {
    if f.ty.Optional? {
      assert HasType(VOption(None), f.ty) && CellCarries(f.ty, VOption(None), Null);
    }
  }

  lemma ProgramBuildsColumns(p: Program, def: StructDef, contract: Contract, reached: bool, rec: Record, order: Order)
    returns (columns: seq<Column>)
    requires KeysOnly(order) && IsOrder(order) && Compilable(def) && WellTyped(def, rec)
    requires IsProgram(p, def, contract, reached)
    ensures BuildColumns(p.columns, rec, order) == Some(columns)
    ensures CarriesAll(def, rec, p.fields, columns)
  {
    forall i | 0 <= i < |def.fields|
      ensures p.columns[i].0 in rec && BuildColumn(p.columns[i].1, rec[p.columns[i].0], order).Some?
    {
      var column := FieldBuilds(def.fields[i], reached, rec[def.fields[i].name], order);
    }
    BuildAllColumns(p.columns, rec, order);
    columns := BuildColumns(p.columns, rec, order).value;
    forall i | 0 <= i < |def.fields|
      ensures FieldCarries(def.fields[i], rec[def.fields[i].name], p.fields[i], columns[i])
      ensures p.fields[i].nullable || Null !in columns[i].cells
    {
      var column := FieldBuilds(def.fields[i], reached, rec[def.fields[i].name], order);
      assert column == columns[i];
    }
  }

  lemma RunProgramIs(p: Program, rec: Record, order: Order, metadata: map<string, string>, columns: seq<Column>, batch: Batch)
    requires KeysOnly(order)
    requires MetadataMap(p.metadata) == Some(metadata) && BuildColumns(p.columns, rec, order) == Some(columns)
    requires TryNew(Schema(p.fields, metadata), columns) == Some(batch)
    ensures RunProgram(p, rec, order) == Some(Stream(Schema(p.fields, metadata), [batch]))
  {
  }

  lemma RunProgramFails(p: Program, rec: Record, order: Order)
    requires KeysOnly(order) && MetadataMap(p.metadata).None?
    ensures RunProgram(p, rec, order).None?
  {
  }

  /** For every compilable struct and well-typed record, a program that was emitted runs to a stream that
      carries the record, unless one of its metadata literals is not valid Rust. */
  lemma ProgramEncodes(p: Program, def: StructDef, contract: Contract, reached: bool, rec: Record, order: Order)
    requires IsOrder(order) && Compilable(def) && WellTyped(def, rec) && IsDirection(contract.direction)
    requires IsProgram(p, def, contract, reached)
    ensures KeysOnly(order)
    ensures RunProgram(p, rec, order).Some? <==> PlainContract(contract)
    ensures PlainContract(contract) ==>
              StreamCarries(def, contract, rec, RunProgram(p, rec, order).value)
              && Complete(def, RunProgram(p, rec, order).value)
  {
    OrdersStayInside(order);
    ContractMetadata(p, def, contract, reached);
    if PlainContract(contract) {
      var columns := ProgramBuildsColumns(p, def, contract, reached, rec, order);
      var metadata := MetadataMap(p.metadata).value;
      CarryingBatch(def, contract, rec, Schema(p.fields, metadata), columns);
      RunProgramIs(p, rec, order, metadata, columns, Batch(1, columns));
    } else {
      RunProgramFails(p, rec, order);
    }
  }

  // Compiling

  /** The type names that building the column of a type takes. */
  function FieldWrites(ty: LaicType): set<string> {
    match ty
    case List(item) => {"ListBuilder"} + LeafBuilder(if item.Optional? then item.inner else item)
    case Optional(inner) => if inner.List? then {"ListBuilder"} + LeafBuilder(inner.item) else LeafArray(inner)
    case Map(key, value) => {"MapBuilder"} + LeafBuilder(key) + LeafBuilder(value)
    case _ => LeafArray(ty)
  }

  lemma FirstStepNames(step: Step, rest: seq<Step>)
    requires forall i :: 0 <= i < |rest| ==> StepNames(rest[i]) == {}
    ensures ColumnNames([step] + rest) == StepNames(step)
  {
    assert ([step] + rest)[1..] == rest;
    NoNames(rest);
  }

  lemma {:induction false} NoNames(steps: seq<Step>)
    requires forall i :: 0 <= i < |steps| ==> StepNames(steps[i]) == {}
    ensures ColumnNames(steps) == {}
  {
    if steps != [] {
      NoNames(steps[1..]);
    }
  }

  /** Only the first step mentions names. */
  lemma FirstStepMentions(ty: LaicType, reached: bool)
    requires Supported(ty) && ColumnSteps(ty, reached).Some?
    ensures var steps := ColumnSteps(ty, reached).value;
            steps != [] && StepNames(steps[0]) == FieldWrites(ty)
  {
  }

  lemma LaterStepsMentionNothing(ty: LaicType, reached: bool)
    requires Supported(ty) && ColumnSteps(ty, reached).Some?
    ensures forall i :: 1 <= i < |ColumnSteps(ty, reached).value| ==> StepNames(ColumnSteps(ty, reached).value[i]) == {}
  {
  }

  /** The names a column's steps mention are decided by the field's type. */
  lemma ColumnMentions(ty: LaicType, reached: bool)
    requires Supported(ty) && ColumnSteps(ty, reached).Some?
    ensures ColumnNames(ColumnSteps(ty, reached).value) == FieldWrites(ty)
  {
    var steps := ColumnSteps(ty, reached).value;
    FirstStepMentions(ty, reached);
    LaterStepsMentionNothing(ty, reached);
    assert steps == [steps[0]] + steps[1..];
    FirstStepNames(steps[0], steps[1..]);
  }

  function FieldDeclares(ty: LaicType): set<string> {
    {"Field", "DataType"} + if ty.Map? then {"Fields"} else {}
  }

  lemma SchemaMentions(f: FieldDef)
    requires Supported(f.ty)
    ensures SchemaNames(SchemaField(f)) == FieldDeclares(f.ty)
  {
    if f.ty.Optional? {
      assert !ArrowDatatype(f.ty.inner).MapOf?;
    }
  }

  /** What the contract and the file's type names must avoid for a struct's serializer to be valid Rust. */
  predicate WriterSafe(def: StructDef, contract: Contract, defined: set<string>) {
    && CleanContract(contract) && WRITER_NAMES !! defined
    && forall i :: 0 <= i < |def.fields| ==>
         FieldDeclares(def.fields[i].ty) !! defined && FieldWrites(def.fields[i].ty) !! defined
  }

  lemma DirectionCompiles(direction: string)
    requires IsDirection(direction)
    ensures LiteralCompiles("\"" + direction + "\"") && LiteralCompiles(Quoted(direction, Rust))
  {
    PlainText(direction);
    QuotedCompiles(direction);
  }

  lemma WriterCompilesExactly(p: Program, def: StructDef, contract: Contract, reached: bool, defined: set<string>)
    requires Compilable(def) && IsProgram(p, def, contract, reached) && IsDirection(contract.direction)
    ensures ProgramCompiles(p, defined) <==> WriterSafe(def, contract, defined)
  {
    QuotedCompiles(contract.skillId);
    QuotedCompiles(contract.version);
    DirectionCompiles(contract.direction);
    assert p.metadata[0].1 == Quoted(contract.skillId, Rust) && p.metadata[1].1 == Quoted(contract.version, Rust);
    forall i | 0 <= i < |def.fields|
      ensures ColumnNames(p.columns[i].1) == FieldWrites(def.fields[i].ty)
      ensures SchemaNames(p.fields[i]) == FieldDeclares(def.fields[i].ty)
    {
      SchemaMentions(def.fields[i]);
      ColumnMentions(def.fields[i].ty, reached);
    }
  }
}
