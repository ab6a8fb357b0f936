/** Record batches as generated code sees them: typed columns of cells, a schema with metadata, and a
    stream of batches. The IPC byte encoding is taken to be faithful. */
module Arrow {
  import opened Wrappers
  import opened Bytes

  datatype DataType =
    | Utf8 | Binary | Boolean
    | Int8 | Int16 | Int32 | Int64 | UInt8 | Float32 | Float64
    | ListOf(item: DataType, itemNullable: bool)
    | MapOf(keyName: string, key: DataType, valueName: string, value: DataType, valueNullable: bool)

  /** Floats are their bit patterns. */
  datatype Scalar = Str(s: string) | Bin(bytes: seq<byte>) | Bool(b: bool) | Int(i: int) | Flt(bits: nat)

  datatype Cell = Null | Leaf(x: Scalar) | Items(items: seq<Cell>) | Entries(entries: seq<(Cell, Cell)>)

  datatype Column = Column(ty: DataType, cells: seq<Cell>)
  datatype Field = Field(name: string, ty: DataType, nullable: bool, metadata: map<string, string>)
  datatype Schema = Schema(fields: seq<Field>, metadata: map<string, string>)
  datatype Batch = Batch(rows: nat, columns: seq<Column>)
  datatype Stream = Stream(schema: Schema, batches: seq<Batch>)

  /** The scalar is a value of a primitive type. */
  predicate Fits(ty: DataType, x: Scalar) {
    match ty
    case Utf8 => x.Str?
    case Binary => x.Bin?
    case Boolean => x.Bool?
    case Int8 => x.Int? && -0x80 <= x.i < 0x80
    case Int16 => x.Int? && -0x8000 <= x.i < 0x8000
    case Int32 => x.Int? && -0x8000_0000 <= x.i < 0x8000_0000
    case Int64 => x.Int? && -0x8000_0000_0000_0000 <= x.i < 0x8000_0000_0000_0000
    case UInt8 => x.Int? && 0 <= x.i < 0x100
    case Float32 => x.Flt? && x.bits < 0x1_0000_0000
    case Float64 => x.Flt? && x.bits < 0x1_0000_0000_0000_0000
    case _ => false
  }

  /** The first field with the given name. */
  function IndexOf(fields: seq<Field>, name: string): (r: Option<nat>)
    ensures r.Some? ==> r.value < |fields| && fields[r.value].name == name
  {
    if fields == [] then None
    else if fields[0].name == name then Some(0)
    else match IndexOf(fields[1..], name) case None => None case Some(i) => Some(i + 1)
  }

  lemma {:induction false} IndexOfFirst(fields: seq<Field>, i: nat)
    requires i < |fields| && forall j :: 0 <= j < i ==> fields[j].name != fields[i].name
    ensures IndexOf(fields, fields[i].name) == Some(i)
  {
    if i > 0 {
      assert fields[0].name != fields[i].name;
      IndexOfFirst(fields[1..], i - 1);
    }
  }

  lemma {:induction false} IndexOfAbsent(fields: seq<Field>, name: string)
    requires forall j :: 0 <= j < |fields| ==> fields[j].name != name
    ensures IndexOf(fields, name).None?
  {
    if fields != [] {
      IndexOfAbsent(fields[1..], name);
    }
  }

  /** `RecordBatch::try_new`: as many columns as fields, at least one, all of one length, each of its
      field's type, and nulls only where the field allows them. */
  function TryNew(schema: Schema, columns: seq<Column>): Option<Batch> {
    if |columns| == |schema.fields| && columns != []
       && forall i :: 0 <= i < |columns| ==>
            && |columns[i].cells| == |columns[0].cells|
            && columns[i].ty == schema.fields[i].ty
            && (schema.fields[i].nullable || Null !in columns[i].cells)
    then Some(Batch(|columns[0].cells|, columns))
    else None
  }

  /** `keys` lists the keys of `m` in some order, each once. */
  ghost predicate Enumerates<K, V>(keys: seq<K>, m: map<K, V>) {
    && (forall i :: 0 <= i < |keys| ==> keys[i] in m)
    && (forall k :: k in m ==> k in keys)
    && forall i, j :: 0 <= i < j < |keys| ==> keys[i] != keys[j]
  }
}
