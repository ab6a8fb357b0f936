/** Records of a contract, and what it means for a stream to carry one. Both serializers are proved to
    produce such streams, and both deserializers to read them. */
module Records {
  import opened Wrappers
  import opened Bytes
  import opened Ast
  import opened Shape
  import opened Validate
  import opened Arrow

  datatype Value = VLeaf(x: Scalar) | VList(items: seq<Value>) | VOption(o: Option<Value>) | VMap(m: map<Scalar, Scalar>)

  type Record = map<string, Value>

  /** The Arrow type of a leaf. */
  function LeafType(ty: LaicType): DataType
    requires IsLeaf(ty)
  {
    match ty
    case StringT => Utf8
    case BytesT => Binary
    case BoolT => Boolean
    case I8 => Int8
    case I16 => Int16
    case I32 => Int32
    case I64 => Int64
    case U8 => UInt8
    case F32 => Float32
    case F64 => Float64
    case Tensor(_, _) => Binary
  }

  predicate HasType(v: Value, ty: LaicType) {
    match ty
    case List(item) => v.VList? && forall i :: 0 <= i < |v.items| ==> HasType(v.items[i], item)
    case Optional(inner) => v.VOption? && (v.o.Some? ==> HasType(v.o.value, inner))
    case Map(key, value) =>
      v.VMap? && IsLeaf(key) && IsLeaf(value)
      && forall k :: k in v.m ==> Fits(LeafType(key), k) && Fits(LeafType(value), v.m[k])
    case _ => v.VLeaf? && Fits(LeafType(ty), v.x)
  }

  predicate DistinctFields(fields: seq<FieldDef>) {
    forall i, j :: 0 <= i < j < |fields| ==> fields[i].name != fields[j].name
  }

  /** What the validator guarantees of a struct, apart from reserved words and defaults. */
  predicate Compilable(def: StructDef) {
    && def.fields != [] && DistinctFields(def.fields)
    && forall i :: 0 <= i < |def.fields| ==> Supported(def.fields[i].ty)
  }

  lemma AcceptedStructsAreCompilable(def: StructDef, words: seq<string>)
    requires StructOk(def, words)
    ensures Compilable(def)
    ensures forall f <- def.fields :: f.default.Some? ==> InhabitsType(f.ty, f.default.value)
  {
    forall i | 0 <= i < |def.fields| ensures Supported(def.fields[i].ty) {
      assert FieldOk(def.fields[i], words);
    }
    forall f <- def.fields ensures f.default.Some? ==> InhabitsType(f.ty, f.default.value) {
      var i :| 0 <= i < |def.fields| && def.fields[i] == f;
      assert FieldOk(def.fields[i], words);
    }
  }

  ghost predicate WellTyped(def: StructDef, rec: Record) {
    && (forall n :: n in rec <==> exists i :: 0 <= i < |def.fields| && def.fields[i].name == n)
    && forall i :: 0 <= i < |def.fields| ==> HasType(rec[def.fields[i].name], def.fields[i].ty)
  }

  /** The tensor inside a field type, whose metadata the field carries. */
  function TensorOf(ty: LaicType): Option<(TensorElementType, seq<Dimension>)> {
    match ty
    case Tensor(dtype, dims) => Some((dtype, dims))
    case List(item) => if item.Tensor? then Some((item.dtype, item.dims)) else None
    case Optional(inner) => if inner.Tensor? then Some((inner.dtype, inner.dims)) else None
    case _ => None
  }

  const DTYPE_KEY := "laic.tensor.dtype"
  const SHAPE_KEY := "laic.tensor.shape"
  const TENSOR_VERSION_KEY := "laic.tensor.version"
  const SKILL_ID_KEY := "laic.skill_id"
  const VERSION_KEY := "laic.version"
  const DIRECTION_KEY := "laic.direction"

  function TensorMetadata(dtype: TensorElementType, dims: seq<Dimension>): map<string, string> {
    map[DTYPE_KEY := DtypeName(dtype), SHAPE_KEY := FormatDims(dims), TENSOR_VERSION_KEY := "1"]
  }

  // Carrying a value

  /** The entries hold the pairs of the map, in any order. */
  ghost predicate EntriesCarry(entries: seq<(Cell, Cell)>, m: map<Scalar, Scalar>) {
    exists keys: seq<Scalar> :: Enumerates(keys, m) && |keys| == |entries|
      && forall i :: 0 <= i < |keys| ==> entries[i] == (Leaf(keys[i]), Leaf(m[keys[i]]))
  }

  ghost predicate CellCarries(ty: LaicType, v: Value, c: Cell) {
    match ty
    case List(item) =>
      v.VList? && c.Items? && |c.items| == |v.items|
      && forall i :: 0 <= i < |v.items| ==> CellCarries(item, v.items[i], c.items[i])
    case Optional(inner) =>
      v.VOption? && if v.o.None? then c.Null? else !c.Null? && CellCarries(inner, v.o.value, c)
    case Map(_, _) => v.VMap? && c.Entries? && EntriesCarry(c.entries, v.m)
    case _ => v.VLeaf? && c == Leaf(v.x)
  }

  /** The column type, whatever it says about the nullability and the names inside containers. */
  predicate TypeMatches(ty: LaicType, dt: DataType) {
    match ty
    case List(item) => dt.ListOf? && TypeMatches(item, dt.item)
    case Optional(inner) => TypeMatches(inner, dt)
    case Map(key, value) => dt.MapOf? && TypeMatches(key, dt.key) && TypeMatches(value, dt.value)
    case _ => dt == LeafType(ty)
  }

  predicate MetadataMatches(ty: LaicType, metadata: map<string, string>) {
    match TensorOf(ty)
    case None => true
    case Some((dtype, dims)) =>
      DTYPE_KEY in metadata && metadata[DTYPE_KEY] == DtypeName(dtype)
      && SHAPE_KEY in metadata && metadata[SHAPE_KEY] == FormatDims(dims)
  }

  ghost predicate FieldCarries(f: FieldDef, v: Value, field: Field, column: Column) {
    && field.name == f.name && field.ty == column.ty && TypeMatches(f.ty, field.ty)
    && MetadataMatches(f.ty, field.metadata)
    && |column.cells| == 1 && CellCarries(f.ty, v, column.cells[0])
  }

  /** The identity a stream announces. */
  datatype Contract = Contract(skillId: string, version: string, direction: string)

  predicate Announces(contract: Contract, metadata: map<string, string>) {
    && SKILL_ID_KEY in metadata && metadata[SKILL_ID_KEY] == contract.skillId
    && VERSION_KEY in metadata && metadata[VERSION_KEY] == contract.version
    && DIRECTION_KEY in metadata && metadata[DIRECTION_KEY] == contract.direction
  }

  /** What is wrong with an announcement. */
  datatype Complaint = Missing(key: string) | Different(key: string)

  function ComplaintOf(key: string, expected: string, metadata: map<string, string>): Option<Complaint> {
    if key !in metadata then Some(Missing(key))
    else if metadata[key] != expected then Some(Different(key))
    else None
  }

  /** Skill id, version and direction are looked at in this order. */
  function FirstComplaint(contract: Contract, metadata: map<string, string>): Option<Complaint> {
    var skillId := ComplaintOf("laic.skill_id", contract.skillId, metadata);
    var version := ComplaintOf("laic.version", contract.version, metadata);
    if skillId.Some? then skillId
    else if version.Some? then version
    else ComplaintOf("laic.direction", contract.direction, metadata)
  }

  lemma AnnouncesExactly(contract: Contract, metadata: map<string, string>)
    ensures Announces(contract, metadata) <==> FirstComplaint(contract, metadata).None?
  {
  }

  predicate OneRow(stream: Stream) {
    && |stream.batches| == 1 && stream.batches[0].rows == 1
    && |stream.batches[0].columns| == |stream.schema.fields|
  }

  /** The bits of a double that is neither infinite nor a NaN; others are not printed as literals. */
  predicate IsFinite(bits: u64) {
    bits / 0x10_0000_0000_0000 % 0x800 != 0x7FF
  }

  /** The double rounds to a finite single. */
  predicate FitsSingle(bits: u64) {
    bits % 0x8000_0000_0000_0000 < 0x47EF_FFFF_F000_0000
  }

  /** The value a default literal stands for, where it is one without rounding: an integer default of a
      float field, and a float default narrowed to 32 bits, are left out. */
  function DefaultValue(ty: LaicType, default: Literal): Option<Value> {
    match default
    case StringLit(s) => if ty.StringT? then Some(VLeaf(Str(s))) else None
    case BoolLit(b) => if ty.BoolT? then Some(VLeaf(Bool(b))) else None
    case IntegerLit(i) => if IsInteger(ty) && Fits(LeafType(ty), Int(i)) then Some(VLeaf(Int(i))) else None
    case FloatLit(bits) => if ty.F64? && IsFinite(bits) then Some(VLeaf(Flt(bits))) else None
  }

  predicate IsInteger(ty: LaicType) {
    ty.I8? || ty.I16? || ty.I32? || ty.I64? || ty.U8?
  }

  predicate IsFloat(ty: LaicType) {
    ty.F32? || ty.F64?
  }

  /** The field's column, wherever it stands in the batch. */
  function ColumnNamed(stream: Stream, name: string): Option<Column>
    requires OneRow(stream)
  {
    match IndexOf(stream.schema.fields, name)
    case None => None
    case Some(i) => Some(stream.batches[0].columns[i])
  }

  /** The stream holds the value in the field's column, or has no such column and the value is the
      field's default. */
  ghost predicate Provides(stream: Stream, f: FieldDef, v: Value)
    requires OneRow(stream)
  {
    match IndexOf(stream.schema.fields, f.name)
    case None => f.default.Some? && DefaultValue(f.ty, f.default.value) == Some(v)
    case Some(i) => FieldCarries(f, v, stream.schema.fields[i], stream.batches[0].columns[i])
  }

  /** The stream has one row that holds the record: every field in a column of its own name, or absent
      and equal to its default. The order of columns is free. */
  ghost predicate StreamCarries(def: StructDef, contract: Contract, rec: Record, stream: Stream) {
    && OneRow(stream) && Announces(contract, stream.schema.metadata)
    && forall i :: 0 <= i < |def.fields| ==>
         def.fields[i].name in rec && Provides(stream, def.fields[i], rec[def.fields[i].name])
  }

  /** Every field has its column. */
  predicate Complete(def: StructDef, stream: Stream) {
    forall i :: 0 <= i < |def.fields| ==> IndexOf(stream.schema.fields, def.fields[i].name).Some?
  }

  /** The schema and columns of a program, field by field. */
  ghost predicate CarriesAll(def: StructDef, rec: Record, fields: seq<Field>, columns: seq<Column>) {
    && |columns| == |fields| == |def.fields|
    && forall i :: 0 <= i < |def.fields| ==>
         && def.fields[i].name in rec
         && FieldCarries(def.fields[i], rec[def.fields[i].name], fields[i], columns[i])
         && (fields[i].nullable || Null !in columns[i].cells)
  }

  /** A batch whose columns carry the record, under an announcing schema, makes a carrying stream. */
  lemma CarryingBatch(def: StructDef, contract: Contract, rec: Record, schema: Schema, columns: seq<Column>)
    requires Compilable(def) && CarriesAll(def, rec, schema.fields, columns) && Announces(contract, schema.metadata)
    ensures TryNew(schema, columns) == Some(Batch(1, columns))
    ensures StreamCarries(def, contract, rec, Stream(schema, [Batch(1, columns)]))
    ensures Complete(def, Stream(schema, [Batch(1, columns)]))
  {
    forall i | 0 <= i < |def.fields|
      ensures |columns[i].cells| == 1 && columns[i].ty == schema.fields[i].ty && schema.fields[i].name == def.fields[i].name
    {
      assert FieldCarries(def.fields[i], rec[def.fields[i].name], schema.fields[i], columns[i]);
    }
    var stream := Stream(schema, [Batch(1, columns)]);
    forall i | 0 <= i < |def.fields|
      ensures IndexOf(schema.fields, def.fields[i].name) == Some(i)
      ensures Provides(stream, def.fields[i], rec[def.fields[i].name])
    {
      IndexOfFirst(schema.fields, i);
    }
  }

  /** The loop with which every deserializer lists the fields of its result. */
  method EmitArguments(fields: seq<FieldDef>) returns (result: seq<string>)
    ensures |result| == |fields| && forall i :: 0 <= i < |fields| ==> result[i] == fields[i].name
  {
    result := [];
    for i := 0 to |fields|
      invariant |result| == i
      invariant forall k :: 0 <= k < i ==> result[k] == fields[k].name
    {
      result := result + [fields[i].name];
    }
  }

  /** The fixed words that name the two directions of a skill. */
  predicate IsDirection(s: string) {
    s == "input" || s == "output"
  }
}
