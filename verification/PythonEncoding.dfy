/** What the emitted Python serializer builds carries the record it was given. */
module PythonEncoding {
  import opened Wrappers
  import opened Ast
  import opened Literals
  import opened Validate
  import opened Arrow
  import opened Records
  import opened PythonValues
  import opened PythonSerialize

  lemma {:induction false} PyArrowTypeMatches(ty: LaicType)
    ensures TypeMatches(ty, PyArrowType(ty))
  {
    match ty {
      case List(item) => PyArrowTypeMatches(item);
      case Optional(inner) => PyArrowTypeMatches(inner);
      case Map(key, value) =>
        PyArrowTypeMatches(key);
        PyArrowTypeMatches(value);
      case _ =>
    }
  }

  lemma DeclaredType(f: FieldDef)
    requires Supported(f.ty)
    ensures SchemaField(f).ty == PyArrowType(f.ty) && SchemaField(f).nullable == f.ty.Optional?
    ensures SchemaField(f).name == f.name && MetadataMatches(f.ty, SchemaField(f).metadata)
  {
  }

  /** A field is declared nullable exactly if the cell of some value of its type is null. */
  lemma NullableExactly(f: FieldDef)
    requires Supported(f.ty)
    ensures SchemaField(f).nullable <==> exists v :: HasType(v, f.ty) && CellCarries(f.ty, v, Null)
  {
    if f.ty.Optional? {
      assert HasType(VOption(None), f.ty) && CellCarries(f.ty, VOption(None), Null);
    }
  }

  // Values

  lemma LeafConverts(ty: LaicType, v: Value)
    requires IsLeaf(ty) || (ty.Optional? && IsLeaf(ty.inner))
    requires HasType(v, ty)
    ensures ToCell(PyArrowType(ty), ToPy(v)).Some? && CellCarries(ty, v, ToCell(PyArrowType(ty), ToPy(v)).value)
  {
  }

  lemma {:induction false} LeavesConvert(ty: LaicType, items: seq<Value>, values: seq<PyValue>)
    requires IsLeaf(ty) || (ty.Optional? && IsLeaf(ty.inner))
    requires |values| == |items| && forall i :: 0 <= i < |items| ==> HasType(items[i], ty) && values[i] == ToPy(items[i])
    ensures var cells := ToCells(PyArrowType(ty), values);
      && cells.Some? && |cells.value| == |items|
      && forall i :: 0 <= i < |items| ==> CellCarries(ty, items[i], cells.value[i])
  {
    if items != [] {
      var n := |items| - 1;
      LeavesConvert(ty, items[..n], values[..n]);
      LeafConverts(ty, items[n]);
    }
  }

  lemma {:induction false} EntriesConvert(key: LaicType, value: LaicType, m: map<Scalar, Scalar>, keys: seq<Scalar>,
                                          pairs: seq<(PyValue, PyValue)>)
    requires IsLeaf(key) && IsLeaf(value) && HasType(VMap(m), Map(key, value)) && |pairs| == |keys|
    requires forall i :: 0 <= i < |keys| ==> keys[i] in m && pairs[i] == (PyLeaf(keys[i]), PyLeaf(m[keys[i]]))
    ensures var entries := ToEntries(LeafType(key), LeafType(value), pairs);
      && entries.Some? && |entries.value| == |keys|
      && forall i :: 0 <= i < |keys| ==> entries.value[i] == (Leaf(keys[i]), Leaf(m[keys[i]]))
  {
    if keys != [] {
      var n := |keys| - 1;
      EntriesConvert(key, value, m, keys[..n], pairs[..n]);
      assert ToCell(LeafType(key), PyLeaf(keys[n])) == Some(Leaf(keys[n]));
      assert ToCell(LeafType(value), PyLeaf(m[keys[n]])) == Some(Leaf(m[keys[n]]));
    }
  }

  /** The order of a typed dictionary's keys, unwrapped. */
  lemma KeysOf(m: map<Scalar, Scalar>, order: Order) returns (keys: seq<Scalar>)
    requires IsOrder(order)
    ensures Enumerates(keys, m)
    ensures |order(ToPyDict(m))| == |keys| && forall i :: 0 <= i < |keys| ==> order(ToPyDict(m))[i] == PyLeaf(keys[i])
  {
    var d := ToPyDict(m);
    var listed := order(d);
    assert Enumerates(listed, d);
    keys := seq(|listed|, i requires 0 <= i < |listed| => if listed[i].PyLeaf? then listed[i].x else Int(0));
    forall i | 0 <= i < |keys| ensures listed[i] == PyLeaf(keys[i]) && keys[i] in m {
      assert listed[i] in d;
    }
    forall k | k in m ensures k in keys {
      assert PyLeaf(k) in d;
      var i :| 0 <= i < |listed| && listed[i] == PyLeaf(k);
      assert keys[i] == k;
    }
    forall i, j | 0 <= i < j < |keys| ensures keys[i] != keys[j] {
      assert listed[i] != listed[j];
    }
  }

  lemma ItemsEvaluate(m: map<Scalar, Scalar>, order: Order, classes: set<string>)
    returns (keys: seq<Scalar>, pairs: seq<(PyValue, PyValue)>)
    requires IsOrder(order) && "list" !in classes
    ensures Evaluate(ItemsOf, PyDict(ToPyDict(m)), order, classes) == Some(PyPairs(pairs))
    ensures Enumerates(keys, m) && |pairs| == |keys|
    ensures forall i :: 0 <= i < |keys| ==> keys[i] in m && pairs[i] == (PyLeaf(keys[i]), PyLeaf(m[keys[i]]))
  {
    var d := ToPyDict(m);
    keys := KeysOf(m, order);
    assert Enumerates(order(d), d);
    pairs := Pairs(order(d), d).value;
  }

  lemma EntriesAreCarried(keys: seq<Scalar>, entries: seq<(Cell, Cell)>, m: map<Scalar, Scalar>)
    requires Enumerates(keys, m) && |keys| == |entries|
    requires forall i :: 0 <= i < |keys| ==> entries[i] == (Leaf(keys[i]), Leaf(m[keys[i]]))
    ensures EntriesCarry(entries, m)
  {
  }

  lemma PairsConvert(key: LaicType, value: LaicType, m: map<Scalar, Scalar>, order: Order, classes: set<string>)
    returns (pairs: seq<(PyValue, PyValue)>, entries: seq<(Cell, Cell)>)
    requires IsOrder(order) && "list" !in classes && IsLeaf(key) && IsLeaf(value) && HasType(VMap(m), Map(key, value))
    ensures Evaluate(ItemsOf, PyDict(ToPyDict(m)), order, classes) == Some(PyPairs(pairs))
    ensures ToEntries(LeafType(key), LeafType(value), pairs) == Some(entries) && EntriesCarry(entries, m)
  {
    var keys;
    keys, pairs := ItemsEvaluate(m, order, classes);
    EntriesConvert(key, value, m, keys, pairs);
    entries := ToEntries(LeafType(key), LeafType(value), pairs).value;
    EntriesAreCarried(keys, entries, m);
  }

  lemma MapConverts(key: LaicType, value: LaicType, m: map<Scalar, Scalar>, order: Order, classes: set<string>) returns (cell: Cell)
    requires IsOrder(order) && "list" !in classes && IsLeaf(key) && IsLeaf(value) && HasType(VMap(m), Map(key, value))
    ensures var evaluated := Evaluate(ItemsOf, ToPy(VMap(m)), order, classes);
      evaluated.Some? && ToCell(PyArrowType(Map(key, value)), evaluated.value) == Some(cell)
    ensures CellCarries(Map(key, value), VMap(m), cell)
  {
    var pairs, entries := PairsConvert(key, value, m, order, classes);
    cell := Entries(entries);
    assert ToCell(MapOf("key", LeafType(key), "value", LeafType(value), true), PyPairs(pairs)) == Some(cell);
  }

  lemma ListConverts(item: LaicType, v: Value) returns (cell: Cell)
    requires (IsLeaf(item) || (item.Optional? && IsLeaf(item.inner))) && HasType(v, List(item))
    ensures ToCell(PyArrowType(List(item)), ToPy(v)) == Some(cell)
    ensures cell.Items? && CellCarries(List(item), v, cell)
  {
    var values := ToPy(v).items;
    LeavesConvert(item, v.items, values);
    cell := Items(ToCells(PyArrowType(item), values).value);
  }

  /** Every typed value converts to a cell that carries it. */
  lemma ValueConverts(ty: LaicType, v: Value, order: Order, classes: set<string>) returns (cell: Cell)
    requires IsOrder(order) && Supported(ty) && HasType(v, ty) && (ty.Map? ==> "list" !in classes)
    ensures var evaluated := Evaluate(if ty.Map? then ItemsOf else Attribute, ToPy(v), order, classes);
      evaluated.Some? && ToCell(PyArrowType(ty), evaluated.value) == Some(cell)
    ensures CellCarries(ty, v, cell) && (cell.Null? ==> ty.Optional?)
  {
    match ty {
      case List(item) =>
        cell := ListConverts(item, v);
      case Optional(inner) =>
        if v.o.None? {
          cell := Null;
        } else if inner.List? {
          cell := ListConverts(inner.item, v.o.value);
        } else {
          cell := Leaf(v.o.value.x);
        }
      case Map(key, value) =>
        cell := MapConverts(key, value, v.m, order, classes);
        assert v == VMap(v.m);
      case _ =>
        cell := Leaf(v.x);
    }
  }

  // Whole programs

  lemma MetadataIs(a: (string, string), b: (string, string), c: (string, string))
    requires PythonBytes(a.1).Some? && PythonBytes(b.1).Some? && PythonBytes(c.1).Some?
    ensures MetadataMap([a, b, c])
            == Some(map[a.0 := PythonBytes(a.1).value, b.0 := PythonBytes(b.1).value, c.0 := PythonBytes(c.1).value])
  {
    assert [a, b, c][..2] == [a, b] && [a, b][..1] == [a] && [a][..0] == [];
    assert MetadataMap([]) == Some(map[]);
    assert MetadataMap([a]) == Some(map[a.0 := PythonBytes(a.1).value]);
    assert MetadataMap([a, b]) == Some(map[a.0 := PythonBytes(a.1).value, b.0 := PythonBytes(b.1).value]);
  }

  lemma DirectionBytes(direction: string)
    requires IsDirection(direction)
    ensures PythonBytes("b\"" + direction + "\"") == Some(direction)
  {
    PlainText(direction);
    assert ("b\"" + direction + "\"")[1..] == Quoted(direction, PythonLike);
    StringLiteralIsRead(direction);
  }

  lemma {:induction false} PlainText(s: string)
    requires forall i :: 0 <= i < |s| ==> 'a' <= s[i] <= 'z'
    ensures Escape(s, PythonLike) == s
  {
    if s != "" {
      PlainText(s[1..]);
      assert EscapeChar(s[0], PythonLike) == [s[0]];
    }
  }

  lemma ContractMetadata(p: Program, def: StructDef, contract: Contract)
    requires IsProgram(p, def, contract) && IsDirection(contract.direction)
    ensures MetadataMap(p.metadata).Some? && Announces(contract, MetadataMap(p.metadata).value)
  {
    EncodedLiteralIsRead(contract.skillId);
    EncodedLiteralIsRead(contract.version);
    DirectionBytes(contract.direction);
    MetadataIs(p.metadata[0], p.metadata[1], p.metadata[2]);
    assert p.metadata == [p.metadata[0], p.metadata[1], p.metadata[2]];
    assert SKILL_ID_KEY != VERSION_KEY && SKILL_ID_KEY != DIRECTION_KEY && VERSION_KEY != DIRECTION_KEY by {
      assert |SKILL_ID_KEY| == 13 && |VERSION_KEY| == 12 && |DIRECTION_KEY| == 14;
    }
  }

  predicate Evaluates(entry: (string, Item), rec: PyRecord, order: Order, classes: set<string>) {
    entry.0 in rec && Evaluate(entry.1, rec[entry.0], order, classes).Some?
  }

  lemma {:induction false} DictionaryHolds(entries: seq<(string, Item)>, rec: PyRecord, order: Order, classes: set<string>)
    requires forall i :: 0 <= i < |entries| ==> Evaluates(entries[i], rec, order, classes)
    requires forall i, j :: 0 <= i < j < |entries| ==> entries[i].0 != entries[j].0
    ensures var d := Dictionary(entries, rec, order, classes);
      && d.Some?
      && forall i :: 0 <= i < |entries| ==>
           entries[i].0 in d.value && entries[i].0 in rec
           && Some(d.value[entries[i].0]) == Evaluate(entries[i].1, rec[entries[i].0], order, classes)
  {
    if entries != [] {
      var n := |entries| - 1;
      DictionaryHolds(entries[..n], rec, order, classes);
      assert Evaluates(entries[n], rec, order, classes);
      forall i | 0 <= i < n ensures entries[i].0 != entries[n].0 && entries[..n][i] == entries[i] {
      }
    }
  }

  lemma {:induction false} ColumnsAre(fields: seq<Field>, dictionary: PyRecord)
    requires forall i :: 0 <= i < |fields| ==>
               fields[i].name in dictionary && ToCell(fields[i].ty, dictionary[fields[i].name]).Some?
    ensures var columns := Columns(fields, dictionary);
      && columns.Some? && |columns.value| == |fields|
      && forall i :: 0 <= i < |fields| ==>
           columns.value[i] == Column(fields[i].ty, [ToCell(fields[i].ty, dictionary[fields[i].name]).value])
  {
    if fields != [] {
      assert fields[0].name in dictionary && ToCell(fields[0].ty, dictionary[fields[0].name]).Some?;
      ColumnsAre(fields[1..], dictionary);
    }
  }

  lemma RecordHolds(def: StructDef, rec: Record, i: nat)
    requires WellTyped(def, rec) && i < |def.fields|
    ensures def.fields[i].name in rec && def.fields[i].name in ToPyRecord(rec)
    ensures ToPyRecord(rec)[def.fields[i].name] == ToPy(rec[def.fields[i].name])
    ensures HasType(rec[def.fields[i].name], def.fields[i].ty)
  {
  }

  /** A class called `list` takes the builtin away, which only maps need. */
  predicate ListsSafely(def: StructDef, classes: set<string>) {
    "list" in classes ==> forall i :: 0 <= i < |def.fields| ==> !def.fields[i].ty.Map?
  }

  lemma DictionaryOfRecord(p: Program, def: StructDef, contract: Contract, rec: Record, order: Order, classes: set<string>)
    requires IsOrder(order) && Compilable(def) && WellTyped(def, rec) && IsProgram(p, def, contract) && ListsSafely(def, classes)
    ensures var d := Dictionary(p.entries, ToPyRecord(rec), order, classes);
      && d.Some?
      && forall i :: 0 <= i < |def.fields| ==>
           def.fields[i].name in d.value && def.fields[i].name in rec
           && Some(d.value[def.fields[i].name]) == Evaluate(Entry(def.fields[i]).1, ToPy(rec[def.fields[i].name]), order, classes)
  {
    forall i | 0 <= i < |p.entries| ensures Evaluates(p.entries[i], ToPyRecord(rec), order, classes) {
      RecordHolds(def, rec, i);
      var cell := ValueConverts(def.fields[i].ty, rec[def.fields[i].name], order, classes);
    }
    forall i, j | 0 <= i < j < |p.entries| ensures p.entries[i].0 != p.entries[j].0 {
      assert def.fields[i].name != def.fields[j].name;
    }
    DictionaryHolds(p.entries, ToPyRecord(rec), order, classes);
    forall i | 0 <= i < |def.fields|
      ensures def.fields[i].name in Dictionary(p.entries, ToPyRecord(rec), order, classes).value && def.fields[i].name in rec
      ensures Some(Dictionary(p.entries, ToPyRecord(rec), order, classes).value[def.fields[i].name])
              == Evaluate(Entry(def.fields[i]).1, ToPy(rec[def.fields[i].name]), order, classes)
    {
      RecordHolds(def, rec, i);
      assert p.entries[i] == Entry(def.fields[i]);
    }
  }

  /** One field's entry converts to one field's column. */
  lemma EntryConverts(f: FieldDef, v: Value, order: Order, classes: set<string>, entry: PyValue) returns (cell: Cell)
    requires IsOrder(order) && Supported(f.ty) && HasType(v, f.ty) && (f.ty.Map? ==> "list" !in classes)
    requires Some(entry) == Evaluate(Entry(f).1, ToPy(v), order, classes)
    ensures SchemaField(f).name == f.name && ToCell(SchemaField(f).ty, entry) == Some(cell)
    ensures FieldCarries(f, v, SchemaField(f), Column(SchemaField(f).ty, [cell]))
    ensures SchemaField(f).nullable || !cell.Null?
  {
    cell := ValueConverts(f.ty, v, order, classes);
    DeclaredType(f);
    PyArrowTypeMatches(f.ty);
  }

  /** The dictionary's entry for a field makes the field's column. */
  ghost predicate Converts(f: FieldDef, v: Value, field: Field, d: PyRecord) {
    && field.name in d && ToCell(field.ty, d[field.name]).Some?
    && var cell := ToCell(field.ty, d[field.name]).value;
    FieldCarries(f, v, field, Column(field.ty, [cell])) && (field.nullable || !cell.Null?)
  }

  lemma FieldConverts(f: FieldDef, v: Value, order: Order, classes: set<string>, d: PyRecord)
    requires IsOrder(order) && Supported(f.ty) && HasType(v, f.ty) && (f.ty.Map? ==> "list" !in classes)
    requires f.name in d && Some(d[f.name]) == Evaluate(Entry(f).1, ToPy(v), order, classes)
    ensures Converts(f, v, SchemaField(f), d)
  {
    var cell := EntryConverts(f, v, order, classes, d[f.name]);
  }

  lemma ConvertedColumnsCarry(def: StructDef, rec: Record, fields: seq<Field>, d: PyRecord)
    requires |fields| == |def.fields|
    requires forall i :: 0 <= i < |def.fields| ==>
               def.fields[i].name in rec && Converts(def.fields[i], rec[def.fields[i].name], fields[i], d)
    ensures Columns(fields, d).Some? && CarriesAll(def, rec, fields, Columns(fields, d).value)
  {
    forall i | 0 <= i < |fields| ensures fields[i].name in d && ToCell(fields[i].ty, d[fields[i].name]).Some? {
      assert Converts(def.fields[i], rec[def.fields[i].name], fields[i], d);
    }
    ColumnsAre(fields, d);
    var columns := Columns(fields, d).value;
    forall i | 0 <= i < |fields|
      ensures FieldCarries(def.fields[i], rec[def.fields[i].name], fields[i], columns[i])
      ensures fields[i].nullable || Null !in columns[i].cells
    {
      assert Converts(def.fields[i], rec[def.fields[i].name], fields[i], d);
    }
  }

  lemma ProgramBuildsColumns(p: Program, def: StructDef, contract: Contract, rec: Record, order: Order, classes: set<string>)
    returns (columns: seq<Column>)
    requires IsOrder(order) && Compilable(def) && WellTyped(def, rec) && IsProgram(p, def, contract) && ListsSafely(def, classes)
    ensures Dictionary(p.entries, ToPyRecord(rec), order, classes).Some?
    ensures Columns(p.fields, Dictionary(p.entries, ToPyRecord(rec), order, classes).value) == Some(columns)
    ensures CarriesAll(def, rec, p.fields, columns)
  {
    DictionaryOfRecord(p, def, contract, rec, order, classes);
    var d := Dictionary(p.entries, ToPyRecord(rec), order, classes).value;
    forall i | 0 <= i < |def.fields|
      ensures def.fields[i].name in rec && Converts(def.fields[i], rec[def.fields[i].name], p.fields[i], d)
    {
      RecordHolds(def, rec, i);
      FieldConverts(def.fields[i], rec[def.fields[i].name], order, classes, d);
    }
    ConvertedColumnsCarry(def, rec, p.fields, d);
    columns := Columns(p.fields, d).value;
  }

  lemma {:induction false} DictionaryNeeds(entries: seq<(string, Item)>, rec: PyRecord, order: Order, classes: set<string>, i: nat)
    requires i < |entries| && !Evaluates(entries[i], rec, order, classes)
    ensures Dictionary(entries, rec, order, classes).None?
  {
    if i < |entries| - 1 {
      DictionaryNeeds(entries[..|entries| - 1], rec, order, classes, i);
    }
  }

  /** What the classes of a module must not be called for a struct's serializer to work. */
  predicate WriterSafe(def: StructDef, classes: set<string>) {
    "pa" !in classes && "ipc" !in classes && ListsSafely(def, classes)
  }

  lemma UnsafeWriterFails(p: Program, def: StructDef, contract: Contract, rec: PyRecord, order: Order, classes: set<string>)
    requires IsProgram(p, def, contract) && !WriterSafe(def, classes)
    ensures RunProgram(p, rec, order, classes).None?
  {
    if !ListsSafely(def, classes) {
      var i :| 0 <= i < |def.fields| && def.fields[i].ty.Map?;
      assert p.entries[i] == Entry(def.fields[i]);
      DictionaryNeeds(p.entries, rec, order, classes, i);
    }
  }

  /** For every compilable struct and well-typed record the emitted program runs to a stream that carries
      the record, whatever the contract's strings contain, exactly if no class takes a name it reads. */
  lemma ProgramEncodes(p: Program, def: StructDef, contract: Contract, rec: Record, order: Order, classes: set<string>)
    requires IsOrder(order) && Compilable(def) && WellTyped(def, rec) && IsDirection(contract.direction)
    requires IsProgram(p, def, contract)
    ensures var stream := RunProgram(p, ToPyRecord(rec), order, classes);
      && (stream.Some? <==> WriterSafe(def, classes))
      && (stream.Some? ==> StreamCarries(def, contract, rec, stream.value) && Complete(def, stream.value))
  {
    if WriterSafe(def, classes) {
      ContractMetadata(p, def, contract);
      var metadata := MetadataMap(p.metadata).value;
      var columns := ProgramBuildsColumns(p, def, contract, rec, order, classes);
      CarryingBatch(def, contract, rec, Schema(p.fields, metadata), columns);
      assert RunProgram(p, ToPyRecord(rec), order, classes) == Some(Stream(Schema(p.fields, metadata), [Batch(1, columns)]));
    } else {
      UnsafeWriterFails(p, def, contract, ToPyRecord(rec), order, classes);
    }
  }
}
