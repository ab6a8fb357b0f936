/** The compiler preserves meaning: for every struct the validator accepts, what either emitted serializer
    writes, either emitted deserializer reads back as the same record, or the emitted code is unusable for a
    reason that is visible in the struct. */
module RoundTrip {
  import opened Wrappers
  import opened Ast
  import opened Shape
  import opened Validate
  import opened Arrow
  import opened Records
  import opened PythonValues
  import opened Specimens
  import RustTypes
  import RS = RustSerialize
  import RE = RustEncoding
  import RD = RustDeserialize
  import RDec = RustDecoding
  import RB = RustBodies
  import PS = PythonSerialize
  import PE = PythonEncoding
  import PD = PythonDeserialize
  import PDec = PythonDecoding
  import PB = PythonBodies
  import TS = TypeScriptDeserialize
  import TL = TypeScriptLocals
  import TB = TypeScriptBodies

  lemma Accepted(def: StructDef, words: seq<string>)
    requires StructOk(def, words)
    ensures Compilable(def) && RDec.DefaultsInhabit(def)
  {
    AcceptedStructsAreCompilable(def, words);
  }

  // Emission

  /** On accepted structs the Rust serializer is emitted exactly when no field is a list of optionals, and
      the other three programs always are; with the unreached arm reached, so is the Rust serializer. */
  lemma EmissionExactly(def: StructDef, words: seq<string>)
    requires StructOk(def, words)
    ensures (forall i :: 0 <= i < |def.fields| ==> RS.ColumnSteps(def.fields[i].ty, false).Some?)
            <==> forall i :: 0 <= i < |def.fields| ==> !RS.IsListOfOptional(def.fields[i].ty)
    ensures forall i :: 0 <= i < |def.fields| ==> RS.ColumnSteps(def.fields[i].ty, true).Some?
    ensures forall i :: 0 <= i < |def.fields| ==> RD.FieldBlock(def.fields[i]).Some?
  {
    Accepted(def, words);
    forall i | 0 <= i < |def.fields|
      ensures RS.ColumnSteps(def.fields[i].ty, false).None? <==> RS.IsListOfOptional(def.fields[i].ty)
      ensures RS.ColumnSteps(def.fields[i].ty, true).Some? && RD.FieldBlock(def.fields[i]).Some?
    {
      RS.PanicsExactly(def.fields[i].ty);
      RD.DeserializerNeverPanics(def.fields[i]);
    }
  }

  // Round trips

  /** What a struct and the names its file defines must avoid for its Python deserializer to read what the
      serializers write. */
  predicate PythonSafe(def: StructDef, defined: set<string>) {
    && PB.Unshadowed("ipc", def, defined) && PB.Unshadowed("StopIteration", def, defined) && !PB.Names(def.fields, "cls")
    && forall i :: 0 <= i < |def.fields| ==>
         var f := def.fields[i];
         && PDec.DefaultParses(f)
         && (TensorOf(f.ty).Some? ==> PB.Unshadowed("int", def, defined) && PB.Unshadowed("len", def, defined))
         && (f.ty.Map? ==> PB.Unshadowed("dict", def, defined))
         && (IsLeaf(f.ty) && !f.ty.Tensor? ==> PB.Unshadowed("pa", def, defined))
         && (f.name == "batch" ==> i == |def.fields| - 1 && !f.ty.Tensor?)
  }

  lemma SafeOnCompleteStreams(def: StructDef, stream: Stream, defined: set<string>)
    requires Complete(def, stream)
    ensures PB.BodySafe(def, defined, stream) <==> PythonSafe(def, defined)
  {
    var scope := PD.ScopeOf(def, defined);
    PB.FixedNamesAreLocal(def, defined);
    assert forall n :: n in ["int", "len", "dict", "pa"] ==> n !in PB.FIXED_NAMES;
    forall i | 0 <= i < |def.fields|
      ensures PDec.FieldFree(def.fields[i], scope, stream) <==>
              var f := def.fields[i];
              && PDec.DefaultParses(f)
              && (TensorOf(f.ty).Some? ==> PB.Unshadowed("int", def, defined) && PB.Unshadowed("len", def, defined))
              && (f.ty.Tensor? ==> f.name != "batch")
              && (f.ty.Map? ==> PB.Unshadowed("dict", def, defined))
              && (IsLeaf(f.ty) && !f.ty.Tensor? ==> PB.Unshadowed("pa", def, defined))
    {
    }
  }

  /** Both deserializers return the record, unless they are unusable for every stream: the Rust one returns
      it whenever it compiles, the Python one exactly when the names are safe. `defined` are the names that the
      file defines, among them the struct's own, and `constants` those of the constants that Rust imports. */
  predicate Delivered(def: StructDef, rec: Record, stream: Stream, rust: RD.Body, python: PD.Body, defined: set<string>,
                      constants: set<string>)
    requires |rust.lets| == |def.fields|
  {
    && (RD.Compiles(rust, def, defined, constants) ==> RD.RunBody(rust, stream) == Ok(rec))
    && var r := PD.RunBody(python, stream, PD.ScopeOf(def, defined));
    if PythonSafe(def, defined) then r == Ok(ToPyRecord(rec)) else r.Err?
  }

  lemma RustReaderCompilesExactly(def: StructDef, words: seq<string>, contract: Contract, rust: RD.Body, defined: set<string>,
                                  constants: set<string>)
    requires StructOk(def, words) && IsDirection(contract.direction) && RD.IsBody(rust, def, contract)
    ensures RD.Compiles(rust, def, defined, constants) <==> RDec.BodySafe(def, contract, defined, constants)
  {
    Accepted(def, words);
    RDec.CompilesExactly(rust, def, contract, defined, constants);
  }

  /** Whoever wrote the stream, and in whatever order of columns. */
  lemma CarriedRecordsAreDelivered(def: StructDef, words: seq<string>, contract: Contract, rec: Record, stream: Stream,
                                   rust: RD.Body, python: PD.Body, defined: set<string>, constants: set<string>)
    requires StructOk(def, words) && IsDirection(contract.direction) && WellTyped(def, rec)
    requires StreamCarries(def, contract, rec, stream) && Complete(def, stream)
    requires RD.IsBody(rust, def, contract) && PD.IsBody(python, def, contract)
    ensures RD.Compiles(rust, def, defined, constants) <==> RDec.BodySafe(def, contract, defined, constants)
    ensures Delivered(def, rec, stream, rust, python, defined, constants)
  {
    Accepted(def, words);
    RustReaderCompilesExactly(def, words, contract, rust, defined, constants);
    if RDec.BodySafe(def, contract, defined, constants) {
      RB.BodyDecodes(rust, def, contract, rec, stream);
    }
    SafeOnCompleteStreams(def, stream, defined);
    PB.BodyDecodesExactly(python, def, contract, rec, stream, defined);
  }

  /** From Rust to Rust and to Python: decode after encode is the identity on every accepted struct and typed
      record, whatever order the serializer walks its maps in. The serializer compiles exactly when the
      contract's strings have no C1 controls and do not change the direction of text, and no definition of the
      file takes a name it uses. */
  lemma RustExchange(def: StructDef, words: seq<string>, contract: Contract, rec: Record, writer: RS.Program, reached: bool,
                     order: RS.Order, rust: RD.Body, python: PD.Body, defined: set<string>, constants: set<string>)
    requires StructOk(def, words) && IsDirection(contract.direction) && WellTyped(def, rec)
    requires RS.IsOrder(order) && RS.IsProgram(writer, def, contract, reached)
    requires RD.IsBody(rust, def, contract) && PD.IsBody(python, def, contract)
    ensures RS.KeysOnly(order)
    ensures RS.ProgramCompiles(writer, defined) <==> RE.WriterSafe(def, contract, defined)
    ensures RS.ProgramCompiles(writer, defined) ==>
              var stream := RS.RunProgram(writer, rec, order);
              stream.Some? && Delivered(def, rec, stream.value, rust, python, defined, constants)
  {
    Accepted(def, words);
    RE.WriterCompilesExactly(writer, def, contract, reached, defined);
    RE.ProgramEncodes(writer, def, contract, reached, rec, order);
    if RE.PlainContract(contract) {
      CarriedRecordsAreDelivered(def, words, contract, rec, RS.RunProgram(writer, rec, order).value, rust, python, defined, constants);
    }
  }

  /** From Python to Rust and to Python, with no condition on the contract: the serializer writes exactly when
      no definition of the file takes a name it reads. */
  lemma PythonExchange(def: StructDef, words: seq<string>, contract: Contract, rec: Record, writer: PS.Program,
                       order: PS.Order, rust: RD.Body, python: PD.Body, defined: set<string>, constants: set<string>)
    requires StructOk(def, words) && IsDirection(contract.direction) && WellTyped(def, rec)
    requires PS.IsOrder(order) && PS.IsProgram(writer, def, contract)
    requires RD.IsBody(rust, def, contract) && PD.IsBody(python, def, contract)
    ensures var stream := PS.RunProgram(writer, ToPyRecord(rec), order, defined);
            && (stream.Some? <==> PE.WriterSafe(def, defined))
            && (stream.Some? ==> Delivered(def, rec, stream.value, rust, python, defined, constants))
  {
    Accepted(def, words);
    PE.ProgramEncodes(writer, def, contract, rec, order, defined);
    var stream := PS.RunProgram(writer, ToPyRecord(rec), order, defined);
    if stream.Some? {
      CarriedRecordsAreDelivered(def, words, contract, rec, stream.value, rust, python, defined, constants);
    }
  }

  /** What a struct and the names its file defines must avoid for its TypeScript class to get what the
      serializers write. */
  predicate TypeScriptSafe(def: StructDef, defined: set<string>) {
    var scope := TS.ScopeOf(TB.LocalNames(def), defined);
    && TS.Distinct(TB.LocalNames(def)) && "data" !in TB.LocalNames(def)
    && scope.Free("arrow") && scope.Free("laicSchemaMetadata") && scope.Free("laicAssertMetadata")
    && def.name !in scope.declared && def.name in defined
    && forall i :: 0 <= i < |def.fields| ==>
         var f := def.fields[i];
         && TS.DefaultParses(f.default)
         && (TensorOf(f.ty).Some? ==> scope.Free("laicAssertTensorMetadata") && "Number" !in defined)
         && (f.ty.List? ==> scope.Free("Array"))
         && (IsLeaf(f.ty) && !f.ty.Tensor? ==> scope.Free("laicAssertFieldType"))
  }

  lemma TypeScriptSafeOnCompleteStreams(def: StructDef, stream: Stream, defined: set<string>)
    requires Complete(def, stream)
    ensures TB.BodySafe(def, stream, defined) <==> TypeScriptSafe(def, defined)
  {
  }

  /** Every field's value comes to the class, from row zero of the column that carries it. */
  ghost predicate Received(def: StructDef, rec: Record, stream: Stream, typescript: TS.Body, defined: set<string>) {
    && var r := TS.RunBody(typescript, stream, defined);
    && OneRow(stream) && r.Ok?
    && forall i :: 0 <= i < |def.fields| ==>
         && def.fields[i].name in rec && def.fields[i].name in r.value
         && TB.Holds(def.fields[i], rec[def.fields[i].name], stream, r.value[def.fields[i].name])
  }

  /** What either serializer writes also reaches the TypeScript class, exactly if the names are safe. */
  lemma TypeScriptReceives(def: StructDef, words: seq<string>, contract: Contract, rec: Record, stream: Stream,
                           typescript: TS.Body, defined: set<string>)
    requires StructOk(def, words) && IsDirection(contract.direction) && WellTyped(def, rec)
    requires StreamCarries(def, contract, rec, stream) && Complete(def, stream) && TS.IsBody(typescript, def, contract)
    ensures if TypeScriptSafe(def, defined) then Received(def, rec, stream, typescript, defined)
            else TS.RunBody(typescript, stream, defined).Err?
  {
    Accepted(def, words);
    TypeScriptSafeOnCompleteStreams(def, stream, defined);
    TB.BodyDeliversExactly(typescript, def, contract, rec, stream, defined);
  }

  // Schemas

  predicate WithoutMaps(ty: LaicType) {
    match ty
    case List(item) => WithoutMaps(item)
    case Optional(inner) => WithoutMaps(inner)
    case Map(_, _) => false
    case _ => true
  }

  lemma {:induction false} TypesAgree(ty: LaicType)
    requires WithoutMaps(ty)
    ensures RustTypes.ArrowDatatype(ty) == PS.PyArrowType(ty)
  {
    match ty {
      case List(item) => TypesAgree(item);
      case Optional(inner) => TypesAgree(inner);
      case _ =>
    }
  }

  /** Both serializers declare the same schema, except for the names of a map's keys and values. Only tensors have
      metadata: element type, shape and version. */
  lemma SchemasAgree(f: FieldDef)
    requires Supported(f.ty)
    ensures var rust, python := RS.SchemaField(f), PS.SchemaField(f);
      && rust.name == python.name == f.name && rust.nullable == python.nullable
      && rust.metadata == python.metadata == (match TensorOf(f.ty)
           case None => map[]
           case Some((dtype, dims)) => map["laic.tensor.dtype" := DtypeName(dtype), "laic.tensor.shape" := FormatDims(dims),
                                           "laic.tensor.version" := "1"])
      && if f.ty.Map? then rust.ty.MapOf? && python.ty == rust.ty.(keyName := "key", valueName := "value")
         else rust.ty == python.ty
  {
    if f.ty.Map? {
      TypesAgree(f.ty.key);
      TypesAgree(f.ty.value);
    } else {
      TypesAgree(f.ty);
    }
  }

  // Refusals

  /** A stream written for one contract is refused by the deserializers of any other, in all three languages. */
  lemma OtherContractsAreRefused(def: StructDef, words: seq<string>, contract: Contract, other: Contract, rec: Record,
                                 stream: Stream, rust: RD.Body, python: PD.Body, typescript: TS.Body, defined: set<string>)
    requires StructOk(def, words) && IsDirection(other.direction) && other != contract
    requires StreamCarries(def, contract, rec, stream)
    requires RD.IsBody(rust, def, other) && PD.IsBody(python, def, other) && TS.IsBody(typescript, def, other)
    ensures RD.RunBody(rust, stream).Err? && PD.RunBody(python, stream, PD.ScopeOf(def, defined)).Err?
    ensures TS.RunBody(typescript, stream, defined).Err?
  {
    Accepted(def, words);
    assert !Announces(other, stream.schema.metadata);
    RB.BodyRefuses(rust, def, other, stream);
    PB.BodyRefuses(python, def, other, stream, defined);
    TB.BodyBindsExactly(typescript, def, other, stream, defined);
  }

  /** Rust and Python refuse with the same complaint: of no batch, of a batch of other than one row, of a further
      batch, or else of the first key of the metadata that is missing or different. */
  predicate SameComplaint(rust: Result<Record, RD.DecodeError>, python: Result<PyRecord, PD.PyError>, contract: Contract,
                          stream: Stream)
  {
    if stream.batches == [] then rust == Err(RD.EmptyStream) && python == Err(PD.EmptyStream)
    else if stream.batches[0].rows != 1 then
      rust == Err(RD.RowCount(stream.batches[0].rows)) && python == Err(PD.RowCount(stream.batches[0].rows))
    else if |stream.batches| > 1 then rust == Err(RD.TrailingBatch) && python == Err(PD.TrailingBatch)
    else
      match FirstComplaint(contract, stream.schema.metadata)
      case None => true
      case Some(Missing(key)) => rust == Err(RD.MissingMetadata(key)) && python == Err(PD.MissingMetadata(key))
      case Some(Different(key)) => rust == Err(RD.MetadataMismatch(key)) && python == Err(PD.MetadataMismatch(key))
  }

  lemma ComplaintsAgree(def: StructDef, contract: Contract, stream: Stream, rust: RD.Body, python: PD.Body, defined: set<string>)
    requires IsDirection(contract.direction) && RE.PlainContract(contract) && PB.Columned(stream)
    requires PB.Unshadowed("ipc", def, defined) && PB.Unshadowed("StopIteration", def, defined)
    requires RD.IsBody(rust, def, contract) && PD.IsBody(python, def, contract)
    ensures SameComplaint(RD.RunBody(rust, stream), PD.RunBody(python, stream, PD.ScopeOf(def, defined)), contract, stream)
  {
    RB.GuardsPassExactly(rust, def, contract, stream.schema.metadata);
    if PB.HeaderVerdict(contract, stream).Err? {
      PB.BodyComplains(python, def, contract, stream, defined);
    }
  }

  /** A tensor written with another element type, or with a shape the contract does not match, is refused. */
  lemma OtherTensorsAreRefused(def: StructDef, words: seq<string>, contract: Contract, stream: Stream, rust: RD.Body,
                               python: PD.Body, typescript: TS.Body, i: nat, column: nat, dtype: TensorElementType,
                               dims: seq<Dimension>, defined: set<string>)
    requires StructOk(def, words) && IsDirection(contract.direction)
    requires i < |def.fields| && TensorOf(def.fields[i].ty).Some?
    requires IndexOf(stream.schema.fields, def.fields[i].name) == Some(column)
    requires stream.schema.fields[column].metadata == TensorMetadata(dtype, dims)
    requires dtype != TensorOf(def.fields[i].ty).value.0 || !ShapeMatches(TensorOf(def.fields[i].ty).value.1, Announcements(dims))
    requires RD.IsBody(rust, def, contract) && PD.IsBody(python, def, contract) && TS.IsBody(typescript, def, contract)
    ensures RD.RunBody(rust, stream).Err? && PD.RunBody(python, stream, PD.ScopeOf(def, defined)).Err?
    ensures TS.RunBody(typescript, stream, defined).Err?
  {
    Accepted(def, words);
    NothingHonored(def.fields[i], stream, column, dtype, dims);
    RB.BodyRefuses(rust, def, contract, stream);
    PB.BodyRefuses(python, def, contract, stream, defined);
    TB.BodyBindsExactly(typescript, def, contract, stream, defined);
  }

  /** No language's checks pass for another element type or a shape that does not match. */
  lemma NothingHonored(f: FieldDef, stream: Stream, column: nat, dtype: TensorElementType, dims: seq<Dimension>)
    requires Supported(f.ty) && TensorOf(f.ty).Some? && IndexOf(stream.schema.fields, f.name) == Some(column)
    requires stream.schema.fields[column].metadata == TensorMetadata(dtype, dims)
    requires dtype != TensorOf(f.ty).value.0 || !ShapeMatches(TensorOf(f.ty).value.1, Announcements(dims))
    ensures OneRow(stream) ==> !RB.FieldHonored(stream, f)
    ensures !PB.FieldHonored(stream, f) && !TL.FieldHonored(stream, f)
  {
    var (own, ownDims) := TensorOf(f.ty).value;
    MetadataReads(dtype, dims);
    DtypeNamesDiffer(dtype, own);
    ChecksOnPrintedShapes(ownDims, dims);
    assert TypeScriptAccepts(ownDims, FormatDims(dims)) ==> ShapeMatches(ownDims, Announcements(dims)) by {
      forall i | 0 <= i < |ownDims| ensures ownDims[i] != Fixed(0) {
        assert ownDims[i] in ownDims;
      }
    }
  }

  lemma MetadataReads(dtype: TensorElementType, dims: seq<Dimension>)
    ensures DTYPE_KEY in TensorMetadata(dtype, dims) && TensorMetadata(dtype, dims)[DTYPE_KEY] == DtypeName(dtype)
    ensures SHAPE_KEY in TensorMetadata(dtype, dims) && TensorMetadata(dtype, dims)[SHAPE_KEY] == FormatDims(dims)
  {
    assert DTYPE_KEY[12] == 'd' && SHAPE_KEY[12] == 's' && TENSOR_VERSION_KEY[12] == 'v';
  }

  lemma DtypeNamesDiffer(a: TensorElementType, b: TensorElementType)
    ensures DtypeName(a) == DtypeName(b) <==> a == b
  {
  }

  /** Streams of no, several or trailing batches and batches of no or several rows are refused. */
  lemma OtherCountsAreRefused(def: StructDef, words: seq<string>, contract: Contract, stream: Stream, rust: RD.Body,
                              python: PD.Body, typescript: TS.Body, defined: set<string>)
    requires StructOk(def, words) && IsDirection(contract.direction)
    requires |stream.batches| != 1 || stream.batches[0].rows != 1
    requires RD.IsBody(rust, def, contract) && PD.IsBody(python, def, contract) && TS.IsBody(typescript, def, contract)
    ensures RD.RunBody(rust, stream).Err? && PD.RunBody(python, stream, PD.ScopeOf(def, defined)).Err?
    ensures TS.RunBody(typescript, stream, defined).Err?
  {
    Accepted(def, words);
    RB.BodyRefuses(rust, def, contract, stream);
    PB.BodyRefuses(python, def, contract, stream, defined);
    TB.BodyBindsExactly(typescript, def, contract, stream, defined);
    if |stream.batches| == 1 {
      assert TS.TotalRows(stream.batches) == stream.batches[0].rows + TS.TotalRows(stream.batches[1..]) && stream.batches[1..] == [];
    }
  }

  // Captured names

  function BatchFirst(): StructDef {
    Two("R", FieldDef("batch", StringT, None), TEXT)
  }

  lemma BatchFirstIsAccepted()
    ensures StructOk(BatchFirst(), RESERVED)
  {
    TwoAreAccepted("R", FieldDef("batch", StringT, None), TEXT);
  }

  lemma BatchFirstIsUnsafe(contract: Contract, defined: set<string>, constants: set<string>)
    ensures !RDec.BodySafe(BatchFirst(), contract, defined, constants) && !PythonSafe(BatchFirst(), defined)
  {
    assert BatchFirst().fields[0].name == "batch";
  }

  /** The validator accepts a field called `batch`, and then neither deserializer is of use. */
  lemma FieldCalledBatch(contract: Contract, rec: Record, stream: Stream, rust: RD.Body, python: PD.Body,
                         defined: set<string>, constants: set<string>)
    requires IsDirection(contract.direction) && WellTyped(BatchFirst(), rec)
    requires StreamCarries(BatchFirst(), contract, rec, stream) && Complete(BatchFirst(), stream)
    requires RD.IsBody(rust, BatchFirst(), contract) && PD.IsBody(python, BatchFirst(), contract)
    ensures StructOk(BatchFirst(), RESERVED)
    ensures !RD.Compiles(rust, BatchFirst(), defined, constants)
    ensures PD.RunBody(python, stream, PD.ScopeOf(BatchFirst(), defined)).Err?
  {
    BatchFirstIsAccepted();
    BatchFirstIsUnsafe(contract, defined, constants);
    CarriedRecordsAreDelivered(BatchFirst(), RESERVED, contract, rec, stream, rust, python, defined, constants);
  }
}
