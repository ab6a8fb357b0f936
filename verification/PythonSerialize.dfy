/** The Python serializer: what the generator emits for `to_ipc`, and what the emitted code builds. */
module PythonSerialize {
  import opened Wrappers
  import opened Ast
  import opened Shape
  import opened Literals
  import opened Validate
  import opened Arrow
  import opened Records
  import opened PythonValues

  // The emitted program

  /** `self.f`, or `list(self.f.items())` */
  datatype Item = Attribute | ItemsOf

  /** Metadata values are the source text of bytes expressions; each entry of the dictionary is a list of one. */
  datatype Program = Program(fields: seq<Field>, metadata: seq<(string, string)>, entries: seq<(string, Item)>)

  // The generator

  function PyArrowType(ty: LaicType): DataType {
    match ty
    case List(item) => ListOf(PyArrowType(item), true)
    case Optional(inner) => PyArrowType(inner)
    case Map(key, value) => MapOf("key", PyArrowType(key), "value", PyArrowType(value), true)
    case _ => LeafType(ty)
  }

  function SchemaField(f: FieldDef): Field {
    match f.ty
    case Tensor(dtype, dims) => Field(f.name, Binary, false, TensorMetadata(dtype, dims))
    case Optional(Tensor(dtype, dims)) => Field(f.name, Binary, true, TensorMetadata(dtype, dims))
    case List(Tensor(dtype, dims)) => Field(f.name, ListOf(Binary, true), false, TensorMetadata(dtype, dims))
    case _ => Field(f.name, PyArrowType(f.ty), f.ty.Optional?, map[])
  }

  function Entry(f: FieldDef): (string, Item) {
    (f.name, if f.ty.Map? then ItemsOf else Attribute)
  }

  predicate IsProgram(p: Program, def: StructDef, contract: Contract) {
    && p.metadata == [(SKILL_ID_KEY, EncodedLiteral(contract.skillId)), (VERSION_KEY, EncodedLiteral(contract.version)),
                      (DIRECTION_KEY, "b\"" + contract.direction + "\"")]
    && |p.fields| == |p.entries| == |def.fields|
    && forall i :: 0 <= i < |def.fields| ==>
         p.fields[i] == SchemaField(def.fields[i]) && p.entries[i] == Entry(def.fields[i])
  }

  method GenerateToIpc(def: StructDef, contract: Contract) returns (p: Program)
    ensures IsProgram(p, def, contract)
  {
    var fields: seq<Field> := [];
    for i := 0 to |def.fields|
      invariant |fields| == i
      invariant forall k :: 0 <= k < i ==> fields[k] == SchemaField(def.fields[k])
    {
      fields := fields + [SchemaField(def.fields[i])];
    }
    var skillId := EscapeStringLiteralBody(contract.skillId, PythonLike);
    var version := EscapeStringLiteralBody(contract.version, PythonLike);
    var metadata := [(SKILL_ID_KEY, "\"" + skillId + "\"" + ENCODE), (VERSION_KEY, "\"" + version + "\"" + ENCODE),
                     (DIRECTION_KEY, "b\"" + contract.direction + "\"")];
    var entries: seq<(string, Item)> := [];
    for i := 0 to |def.fields|
      invariant |entries| == i
      invariant forall k :: 0 <= k < i ==> entries[k] == Entry(def.fields[k])
    {
      entries := entries + [Entry(def.fields[i])];
    }
    return Program(fields, metadata, entries);
  }

  // Running the emitted program

  /** The insertion order of every dictionary. */
  type Order = map<PyValue, PyValue> -> seq<PyValue>

  ghost predicate IsOrder(order: Order) {
    forall m :: Enumerates(order(m), m)
  }

  function MetadataMap(metadata: seq<(string, string)>): Option<map<string, string>> {
    if metadata == [] then Some(map[])
    else
      var before :- MetadataMap(metadata[..|metadata| - 1]);
      var (key, text) := metadata[|metadata| - 1];
      var value :- PythonBytes(text);
      Some(before[key := value])
  }

  function Pairs(keys: seq<PyValue>, m: map<PyValue, PyValue>): (pairs: Option<seq<(PyValue, PyValue)>>)
    ensures pairs.Some? ==> |pairs.value| == |keys| && forall i :: 0 <= i < |keys| ==>
                              keys[i] in m && pairs.value[i] == (keys[i], m[keys[i]])
    ensures pairs.None? ==> exists i :: 0 <= i < |keys| && keys[i] !in m
  {
    if forall i :: 0 <= i < |keys| ==> keys[i] in m
    then Some(seq(|keys|, i requires 0 <= i < |keys| => (keys[i], m[keys[i]])))
    else None
  }

  /** Only dictionaries have items, and they are listed by the builtin `list`. */
  function Evaluate(item: Item, v: PyValue, order: Order, classes: set<string>): Option<PyValue> {
    match item
    case Attribute => Some(v)
    case ItemsOf =>
      if !v.PyDict? || "list" in classes then None
      else
        var pairs :- Pairs(order(v.m), v.m);
        Some(PyPairs(pairs))
  }

  /** The dictionary literal; a repeated key would keep its last value. */
  function Dictionary(entries: seq<(string, Item)>, rec: PyRecord, order: Order, classes: set<string>): Option<PyRecord> {
    if entries == [] then Some(map[])
    else
      var before :- Dictionary(entries[..|entries| - 1], rec, order, classes);
      var (name, item) := entries[|entries| - 1];
      if name !in rec then None
      else
        var v :- Evaluate(item, rec[name], order, classes);
        Some(before[name := v])
  }

  /** `pa.array([v], type)`: `None` is a null of any type, lists become list rows, lists of pairs map rows. */
  function ToCell(ty: DataType, v: PyValue): Option<Cell>
    decreases ty, 0, 0
  {
    match v
    case PyNone => Some(Null)
    case PyLeaf(x) => if Fits(ty, x) then Some(Leaf(x)) else None
    case PyList(items) =>
      if !ty.ListOf? then None
      else
        var cells :- ToCells(ty.item, items);
        Some(Items(cells))
    case PyPairs(pairs) =>
      if !ty.MapOf? then None
      else
        var entries :- ToEntries(ty.key, ty.value, pairs);
        Some(Entries(entries))
    case PyDict(_) => None
  }

  function ToCells(ty: DataType, items: seq<PyValue>): Option<seq<Cell>>
    decreases ty, 1, |items|
  {
    if items == [] then Some([])
    else
      var before :- ToCells(ty, items[..|items| - 1]);
      var last :- ToCell(ty, items[|items| - 1]);
      Some(before + [last])
  }

  function ToEntries(key: DataType, value: DataType, pairs: seq<(PyValue, PyValue)>): Option<seq<(Cell, Cell)>>
    decreases if key < value then value else key, 1, |pairs|
  {
    if pairs == [] then Some([])
    else
      var before :- ToEntries(key, value, pairs[..|pairs| - 1]);
      var k :- ToCell(key, pairs[|pairs| - 1].0);
      var v :- ToCell(value, pairs[|pairs| - 1].1);
      if k.Null? then None else Some(before + [(k, v)])
  }

  function Columns(fields: seq<Field>, dictionary: PyRecord): Option<seq<Column>> {
    if fields == [] then Some([])
    else if fields[0].name !in dictionary then None
    else
      var cell :- ToCell(fields[0].ty, dictionary[fields[0].name]);
      var rest :- Columns(fields[1..], dictionary);
      Some([Column(fields[0].ty, [cell])] + rest)
  }

  /** The stream `to_ipc` writes in a module that defines the given classes, or `None` if it raises: a class
      called like one of the imported modules takes its place. */
  function RunProgram(p: Program, rec: PyRecord, order: Order, classes: set<string>): Option<Stream> {
    var _ :- if "pa" in classes || "ipc" in classes then None else Some(Unit);
    var metadata :- MetadataMap(p.metadata);
    var dictionary :- Dictionary(p.entries, rec, order, classes);
    var columns :- Columns(p.fields, dictionary);
    Some(Stream(Schema(p.fields, metadata), [Batch(if columns == [] then 0 else 1, columns)]))
  }
}
