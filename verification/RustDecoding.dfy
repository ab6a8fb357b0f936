/** When the emitted Rust deserializer compiles, what it reads, and what it refuses. */
module RustDecoding {
  import opened Wrappers
  import opened Ast
  import opened Shape
  import opened Literals
  import opened Validate
  import opened Arrow
  import opened Records
  import opened RustTypes
  import opened RustSerialize
  import opened RustDeserialize
  import RustEncoding

  // Compiling

  /** Tensors two containers deep are read without the copy that would make them owned bytes. */
  predicate ReadableInRust(ty: LaicType) {
    && !(ty.List? && ty.item.Optional? && ty.item.inner.Tensor?)
    && !(ty.Optional? && ty.inner.List? && ty.inner.item.Tensor?)
  }

  predicate DefaultCompiles(f: FieldDef) {
    match f.default
    case Some(IntegerLit(_)) => !IsFloat(f.ty)
    case Some(FloatLit(bits)) => (f.ty.F32? ==> FitsSingle(bits)) && (f.ty.F64? ==> IsFinite(bits))
    case Some(StringLit(s)) => RustEncoding.CleanText(s)
    case _ => true
  }

  predicate FieldCompiles(f: FieldDef) {
    ReadableInRust(f.ty) && DefaultCompiles(f)
  }

  lemma {:induction false} TypeOpsConcat(a: seq<Op>, b: seq<Op>, at: Static)
    ensures TypeOps(a + b, at) == match TypeOps(a, at) case None => None case Some(next) => TypeOps(b, next)
  {
    if a == [] {
      assert a + b == b;
    } else {
      assert (a + b)[1..] == a[1..] + b;
      match TypeOp(a[0], at) {
        case None =>
        case Some(next) => TypeOpsConcat(a[1..], b, next);
      }
    }
  }

  predicate IsCheck(op: Op) {
    op.CheckDtype? || op.CheckRank? || op.CheckDim?
  }

  lemma {:induction false} ChecksKeepType(ops: seq<Op>, at: Static)
    requires forall i :: 0 <= i < |ops| ==> IsCheck(ops[i])
    ensures TypeOps(ops, at) == Some(at)
  {
    if ops != [] {
      assert IsCheck(ops[0]);
      ChecksKeepType(ops[1..], at);
    }
  }

  lemma {:induction false} DimChecksAreChecks(field: string, dims: seq<Dimension>, from: nat)
    requires from <= |dims|
    ensures forall i :: 0 <= i < |DimChecks(field, dims, from)| ==> DimChecks(field, dims, from)[i].CheckDim?
    decreases |dims| - from
  {
    if from < |dims| {
      DimChecksAreChecks(field, dims, from + 1);
    }
  }

  lemma TensorChecksAreChecks(field: string, dtype: TensorElementType, dims: seq<Dimension>)
    ensures forall i :: 0 <= i < |TensorChecks(field, dtype, dims)| ==> IsCheck(TensorChecks(field, dtype, dims)[i])
    ensures forall at :: TypeOps(TensorChecks(field, dtype, dims), at) == Some(at)
  {
    DimChecksAreChecks(field, dims, 0);
    var checks := TensorChecks(field, dtype, dims);
    forall i | 0 <= i < |checks| ensures IsCheck(checks[i]) {
      if i >= 2 {
        assert checks[i] == DimChecks(field, dims, 0)[i - 2];
      }
    }
    forall at ensures TypeOps(checks, at) == Some(at) {
      ChecksKeepType(checks, at);
    }
  }

  /** The type of a block as the compiler infers it. */
  function BlockType(ops: seq<Op>): Option<Static> {
    TypeOps(ops, SNothing)
  }

  lemma TypeTwo(a: Op, b: Op, at: Static)
    ensures TypeOps([a, b], at) == match TypeOp(a, at) case None => None case Some(next) => TypeOp(b, next)
  {
    assert [a, b][1..] == [b] && [b][1..] == [];
    match TypeOp(a, at) {
      case None =>
      case Some(next) =>
        assert TypeOps([b], next) == TypeOp(b, next);
    }
  }

  lemma TypeThree(a: Op, b: Op, c: Op, at: Static)
    ensures TypeOps([a, b, c], at) == match TypeOp(a, at) case None => None case Some(next) => TypeOps([b, c], next)
  {
    assert [a, b, c][1..] == [b, c];
  }

  lemma LeafConversions(ty: LaicType)
    requires IsLeaf(ty)
    ensures ArrowArrayType(ty).Some?
    ensures !ty.Tensor? ==> ValueType(ArrowArrayType(ty).value, InnerConvert(ty)) == Some(RustType(ty))
    ensures !ty.Tensor? && !ty.BytesT? ==> ValueType(ArrowArrayType(ty).value, PrimitiveConvert(ty)) == Some(RustType(ty))
    ensures ty.Tensor? ==> ValueType(ArrowArrayType(ty).value, InnerConvert(ty)) == Some(RBytesRef) && RustType(ty) == RBytes
  {
  }

  lemma ScalarBlockType(f: FieldDef)
    requires IsLeaf(f.ty) && !f.ty.Tensor?
    ensures ScalarBlock(f).Some? && BlockType(ScalarBlock(f).value) == Some(SValue(RustType(f.ty)))
  {
    LeafConversions(f.ty);
    var ops := ScalarBlock(f).value;
    assert ops == [ops[0], ops[1]] + [ops[2], ops[3]];
    TypeOpsConcat([ops[0], ops[1]], [ops[2], ops[3]], SNothing);
    TypeTwo(ops[0], ops[1], SNothing);
    TypeTwo(ops[2], ops[3], SUntyped);
  }

  lemma TensorBlockType(f: FieldDef)
    requires f.ty.Tensor?
    ensures FieldBlock(f).Some? && BlockType(FieldBlock(f).value) == Some(SValue(RustType(f.ty)))
  {
    TensorChecksAreChecks(f.name, f.ty.dtype, f.ty.dims);
    var tail := [LoadColumn(f.name), AsArray(BinaryArray), ValueZero(ToVec)];
    TypeOpsConcat(TensorChecks(f.name, f.ty.dtype, f.ty.dims), tail, SNothing);
    TypeThree(LoadColumn(f.name), AsArray(BinaryArray), ValueZero(ToVec), SNothing);
    TypeTwo(AsArray(BinaryArray), ValueZero(ToVec), SUntyped);
  }

  // The shapes of emitted code, with any array type and conversion

  lemma CollectType(arr: ArrayType, convert: Convert)
    ensures TypeOps([AsArray(arr), Collect(convert)], SUntyped)
            == match ValueType(arr, convert) case None => None case Some(t) => Some(SValue(RVec(t)))
    ensures TypeOps([AsArray(arr), CollectOptions(convert)], SUntyped)
            == match ValueType(arr, convert) case None => None case Some(t) => Some(SValue(RVec(ROption(t))))
  {
    TypeTwo(AsArray(arr), Collect(convert), SUntyped);
    TypeTwo(AsArray(arr), CollectOptions(convert), SUntyped);
  }

  lemma SomeValueType(arr: ArrayType, convert: Convert)
    ensures TypeOps([AsArray(arr), ValueZero(convert), WrapSome], SUntyped)
            == match ValueType(arr, convert) case None => None case Some(t) => Some(SValue(ROption(t)))
  {
    TypeThree(AsArray(arr), ValueZero(convert), WrapSome, SUntyped);
    TypeTwo(ValueZero(convert), WrapSome, STyped(arr));
  }

  lemma SomeListType(arr: ArrayType, convert: Convert)
    ensures TypeOps([AsList, RowZero, AsArray(arr), Collect(convert), WrapSome], SUntyped)
            == match ValueType(arr, convert) case None => None case Some(t) => Some(SValue(ROption(RVec(t))))
  {
    assert [AsList, RowZero, AsArray(arr), Collect(convert), WrapSome] == [AsList, RowZero] + [AsArray(arr), Collect(convert), WrapSome];
    TypeOpsConcat([AsList, RowZero], [AsArray(arr), Collect(convert), WrapSome], SUntyped);
    TypeTwo(AsList, RowZero, SUntyped);
    TypeThree(AsArray(arr), Collect(convert), WrapSome, SUntyped);
    TypeTwo(Collect(convert), WrapSome, STyped(arr));
  }

  lemma CollectMapType(field: string, k: ArrayType, v: ArrayType, kc: Convert, vc: Convert)
    ensures TypeOps([LoadColumn(field), AsMap, RowZero] + [KeysAs(k), ValuesAs(v), CollectMap(kc, vc)], SNothing)
            == if ValueType(k, kc).None? || ValueType(v, vc).None? then None
               else Some(SValue(RHashMap(ValueType(k, kc).value, ValueType(v, vc).value)))
  {
    TypeOpsConcat([LoadColumn(field), AsMap, RowZero], [KeysAs(k), ValuesAs(v), CollectMap(kc, vc)], SNothing);
    TypeThree(LoadColumn(field), AsMap, RowZero, SNothing);
    TypeTwo(AsMap, RowZero, SUntyped);
    TypeThree(KeysAs(k), ValuesAs(v), CollectMap(kc, vc), SPairs(None, None));
    TypeTwo(ValuesAs(v), CollectMap(kc, vc), SPairs(Some(k), None));
  }

  lemma ListTailTypeOptions(field: string, inner: LaicType)
    requires IsLeaf(inner)
    ensures ListTail(field, Optional(inner)).Some?
    ensures TypeOps(ListTail(field, Optional(inner)).value, SUntyped) == Some(SValue(RVec(ROption(RustType(inner)))))
            <==> !inner.Tensor?
  {
    LeafConversions(inner);
    CollectType(ArrowArrayType(inner).value, InnerConvert(inner));
  }

  lemma ListTailTypeTensor(field: string, item: LaicType)
    requires item.Tensor?
    ensures ListTail(field, item).Some?
    ensures TypeOps(ListTail(field, item).value, SUntyped) == Some(SValue(RVec(RustType(item))))
  {
    TensorChecksAreChecks(field, item.dtype, item.dims);
    TypeOpsConcat(TensorChecks(field, item.dtype, item.dims), [AsArray(BinaryArray), Collect(ToVec)], SUntyped);
    CollectType(BinaryArray, ToVec);
  }

  lemma ListTailTypeLeaf(field: string, item: LaicType)
    requires IsLeaf(item) && !item.Tensor?
    ensures ListTail(field, item).Some?
    ensures TypeOps(ListTail(field, item).value, SUntyped) == Some(SValue(RVec(RustType(item))))
  {
    LeafConversions(item);
    CollectType(ArrowArrayType(item).value, InnerConvert(item));
  }

  lemma ListTailType(field: string, item: LaicType)
    requires IsLeaf(item) || (item.Optional? && IsLeaf(item.inner))
    ensures ListTail(field, item).Some?
    ensures TypeOps(ListTail(field, item).value, SUntyped) == Some(SValue(RustType(List(item)))) <==> ReadableInRust(List(item))
  {
    if item.Optional? {
      ListTailTypeOptions(field, item.inner);
    } else if item.Tensor? {
      ListTailTypeTensor(field, item);
    } else {
      ListTailTypeLeaf(field, item);
    }
  }

  lemma ListBlockType(f: FieldDef)
    requires f.ty.List? && (IsLeaf(f.ty.item) || (f.ty.item.Optional? && IsLeaf(f.ty.item.inner)))
    ensures FieldBlock(f).Some?
    ensures BlockType(FieldBlock(f).value) == Some(SValue(RustType(f.ty))) <==> ReadableInRust(f.ty)
  {
    ListTailType(f.name, f.ty.item);
    var head := [LoadColumn(f.name), AsList, RowZero];
    TypeOpsConcat(head, ListTail(f.name, f.ty.item).value, SNothing);
    TypeThree(LoadColumn(f.name), AsList, RowZero, SNothing);
    TypeTwo(AsList, RowZero, SUntyped);
  }

  lemma OptionalListTailType(item: LaicType)
    requires IsLeaf(item)
    ensures OptionalTail(List(item)).Some?
    ensures TypeOps(OptionalTail(List(item)).value, SUntyped) == Some(SValue(RustType(Optional(List(item))))) <==> !item.Tensor?
  {
    LeafConversions(item);
    SomeListType(ArrowArrayType(item).value, InnerConvert(item));
  }

  lemma OptionalLeafTailIs(inner: LaicType) returns (arr: ArrayType, convert: Convert)
    requires IsLeaf(inner)
    ensures OptionalTail(inner) == Some([AsArray(arr), ValueZero(convert), WrapSome])
    ensures ArrowArrayType(inner) == Some(arr) && ValueType(arr, convert) == Some(RustType(inner))
  {
    LeafConversions(inner);
    var ops := OptionalTail(inner).value;
    arr, convert := ops[0].arr, ops[1].convert;
  }

  lemma OptionalLeafTailType(inner: LaicType)
    requires IsLeaf(inner)
    ensures OptionalTail(inner).Some?
    ensures TypeOps(OptionalTail(inner).value, SUntyped) == Some(SValue(RustType(Optional(inner))))
  {
    var arr, convert := OptionalLeafTailIs(inner);
    SomeValueType(arr, convert);
  }

  lemma OptionalTailType(inner: LaicType)
    requires IsLeaf(inner) || (inner.List? && IsLeaf(inner.item))
    ensures OptionalTail(inner).Some?
    ensures TypeOps(OptionalTail(inner).value, SUntyped) == Some(SValue(RustType(Optional(inner)))) <==> ReadableInRust(Optional(inner))
  {
    if inner.List? {
      OptionalListTailType(inner.item);
    } else {
      OptionalLeafTailType(inner);
    }
  }

  /** Loading, checking and the null test leave an untyped column. */
  lemma OptionalHeadType(field: string, checks: seq<Op>)
    requires TypeOps(checks, SUntyped) == Some(SUntyped)
    ensures TypeOps([LoadColumn(field)] + checks + [NullMeansNone], SNothing) == Some(SUntyped)
  {
    var load, test := [LoadColumn(field)], [NullMeansNone];
    TypeOpsConcat(load + checks, test, SNothing);
    TypeOpsConcat(load, checks, SNothing);
    assert load[1..] == [] && test[1..] == [];
    assert TypeOps(load, SNothing) == Some(SUntyped) && TypeOps(test, SUntyped) == Some(SUntyped);
  }

  lemma OptionalBlockType(f: FieldDef)
    requires f.ty.Optional? && (IsLeaf(f.ty.inner) || (f.ty.inner.List? && IsLeaf(f.ty.inner.item)))
    ensures FieldBlock(f).Some?
    ensures BlockType(FieldBlock(f).value) == Some(SValue(RustType(f.ty))) <==> ReadableInRust(f.ty)
  {
    var inner := f.ty.inner;
    OptionalTailType(inner);
    var checks := if inner.Tensor? then TensorChecks(f.name, inner.dtype, inner.dims) else [];
    if inner.Tensor? {
      TensorChecksAreChecks(f.name, inner.dtype, inner.dims);
    }
    OptionalHeadType(f.name, checks);
    TypeOpsConcat([LoadColumn(f.name)] + checks + [NullMeansNone], OptionalTail(inner).value, SNothing);
  }

  lemma MapBlockType(f: FieldDef)
    requires f.ty.Map? && IsMapKey(f.ty.key) && IsMapValue(f.ty.value)
    ensures FieldBlock(f).Some? && BlockType(FieldBlock(f).value) == Some(SValue(RustType(f.ty)))
  {
    LeafConversions(f.ty.key);
    LeafConversions(f.ty.value);
    CollectMapType(f.name, ArrowArrayType(f.ty.key).value, ArrowArrayType(f.ty.value).value,
                   InnerConvert(f.ty.key), InnerConvert(f.ty.value));
  }

  /** A block has the type of its struct field exactly on readable types. */
  lemma BlockTypeExactly(f: FieldDef)
    requires Supported(f.ty)
    ensures FieldBlock(f).Some?
    ensures BlockType(FieldBlock(f).value) == Some(SValue(RustType(f.ty))) <==> ReadableInRust(f.ty)
  {
    match f.ty {
      case Tensor(_, _) => TensorBlockType(f);
      case List(_) => ListBlockType(f);
      case Optional(_) => OptionalBlockType(f);
      case Map(_, _) => MapBlockType(f);
      case _ => ScalarBlockType(f);
    }
  }

  lemma ListTailsMatchNoColumn(field: string, item: LaicType)
    requires ListTail(field, item).Some?
    ensures forall i :: 0 <= i < |ListTail(field, item).value| ==> !ListTail(field, item).value[i].MatchColumn?
  {
    if item.Tensor? {
      TensorChecksAreChecks(field, item.dtype, item.dims);
    }
  }

  lemma OnlyScalarsMatchColumns(f: FieldDef)
    requires Supported(f.ty) && FieldBlock(f).Some?
    ensures var ops := FieldBlock(f).value;
      && (IsLeaf(f.ty) && !f.ty.Tensor? ==>
            ops != [] && ops[0].MatchColumn? && ops[0].default == DefaultCode(f.default)
            && forall i :: 0 < i < |ops| ==> !ops[i].MatchColumn?)
      && (!IsLeaf(f.ty) || f.ty.Tensor? ==> forall i :: 0 <= i < |ops| ==> !ops[i].MatchColumn?)
  {
    match f.ty {
      case Tensor(dtype, dims) =>
        TensorChecksAreChecks(f.name, dtype, dims);
      case List(item) =>
        ListTailsMatchNoColumn(f.name, item);
      case Optional(inner) =>
        if inner.Tensor? {
          TensorChecksAreChecks(f.name, inner.dtype, inner.dims);
        }
      case _ =>
    }
  }

  lemma DefaultHasType(f: FieldDef)
    requires f.default.Some? && InhabitsType(f.ty, f.default.value)
    ensures LiteralHasType(LiteralToRust(f.default.value), RustType(f.ty)) <==> DefaultCompiles(f)
  {
    if f.default.value.StringLit? {
      RustEncoding.QuotedCompiles(f.default.value.s);
    }
  }

  /** A field's block compiles exactly when its type is readable and its default is a literal of the
      field's Rust type. */
  lemma BlocksCompileExactly(f: FieldDef)
    requires Supported(f.ty) && (f.default.Some? ==> InhabitsType(f.ty, f.default.value))
    ensures FieldBlock(f).Some?
    ensures BlockTypechecks(FieldBlock(f).value, RustType(f.ty)) <==> FieldCompiles(f)
  {
    BlockTypeExactly(f);
    OnlyScalarsMatchColumns(f);
    if f.default.Some? {
      DefaultHasType(f);
    }
  }

  predicate DefaultsInhabit(def: StructDef) {
    forall i :: 0 <= i < |def.fields| ==>
      def.fields[i].default.Some? ==> InhabitsType(def.fields[i].ty, def.fields[i].default.value)
  }

  /** No field but the last may be called `batch`, none may be called like a prelude pattern or an imported
      constant, and every block must compile. */
  predicate LetsSafe(fields: seq<FieldDef>, constants: set<string>) {
    forall i :: 0 <= i < |fields| ==>
      && CanBeBound(fields[i].name, constants)
      && (fields[i].name == "batch" ==> i == |fields| - 1)
      && FieldCompiles(fields[i])
  }

  predicate AllCompile(fields: seq<FieldDef>) {
    forall i :: 0 <= i < |fields| ==> FieldCompiles(fields[i])
  }

  lemma {:induction false} LetsCompileExactly(fields: seq<FieldDef>, lets: seq<(string, seq<Op>)>, types: seq<RustTy>,
                                              constants: set<string>)
    requires |lets| == |types| == |fields|
    requires forall i :: 0 <= i < |fields| ==>
               && Supported(fields[i].ty)
               && (fields[i].default.Some? ==> InhabitsType(fields[i].ty, fields[i].default.value))
               && types[i] == RustType(fields[i].ty)
               && FieldBlock(fields[i]).Some?
               && lets[i] == (fields[i].name, FieldBlock(fields[i]).value)
    ensures LetsCompile(lets, types, true, constants) <==> LetsSafe(fields, constants)
  {
    if fields != [] {
      BlocksCompileExactly(fields[0]);
      LetsCompileExactly(fields[1..], lets[1..], types[1..], constants);
      LetsSafeSplits(fields, constants);
    }
  }

  lemma LetsSafeSplits(fields: seq<FieldDef>, constants: set<string>)
    requires fields != []
    ensures LetsSafe(fields, constants) <==>
            && CanBeBound(fields[0].name, constants) && FieldCompiles(fields[0])
            && (fields[0].name == "batch" ==> |fields| == 1)
            && LetsSafe(fields[1..], constants)
  {
    if LetsSafe(fields, constants) {
      forall i | 0 <= i < |fields[1..]|
        ensures CanBeBound(fields[1..][i].name, constants) && FieldCompiles(fields[1..][i])
        ensures fields[1..][i].name == "batch" ==> i == |fields[1..]| - 1
      {
        assert fields[1..][i] == fields[i + 1];
      }
    }
    if LetsSafe(fields[1..], constants) {
      forall i | 1 <= i < |fields|
        ensures CanBeBound(fields[i].name, constants) && FieldCompiles(fields[i])
        ensures fields[i].name == "batch" ==> i == |fields| - 1
      {
        assert fields[1..][i - 1] == fields[i];
      }
    }
  }

  // Names

  const TENSOR_NAMES: set<string> := {"Vec", "usize", "Result", "BinaryArray"}

  /** The type names that reading a field of a type takes. */
  function FieldReads(ty: LaicType): set<string> {
    match ty
    case Tensor(_, _) => TENSOR_NAMES
    case List(item) =>
      {"ListArray", "Vec"}
      + (if item.Tensor? then TENSOR_NAMES else if item.Optional? then LeafArray(item.inner) else LeafArray(item))
    case Optional(inner) =>
      if inner.Tensor? then TENSOR_NAMES
      else if inner.List? then {"ListArray", "Vec"} + LeafArray(inner.item)
      else LeafArray(inner)
    case Map(key, value) => {"MapArray", "StructArray", "HashMap"} + LeafArray(key) + LeafArray(value)
    case _ => {"DataType"} + LeafArray(ty)
  }

  lemma {:induction false} BlockNamesConcat(a: seq<Op>, b: seq<Op>)
    ensures BlockNames(a + b) == BlockNames(a) + BlockNames(b)
  {
    if a == [] {
      assert a + b == b;
    } else {
      assert (a + b)[1..] == a[1..] + b;
      BlockNamesConcat(a[1..], b);
    }
  }

  lemma NamesOfOne(a: Op)
    ensures BlockNames([a]) == OpNames(a)
  {
  }

  lemma NamesOfTwo(a: Op, b: Op)
    ensures BlockNames([a, b]) == OpNames(a) + OpNames(b)
  {
    assert [a, b][1..] == [b];
    NamesOfOne(b);
  }

  lemma NamesOfThree(a: Op, b: Op, c: Op)
    ensures BlockNames([a, b, c]) == OpNames(a) + OpNames(b) + OpNames(c)
  {
    assert [a, b, c][1..] == [b, c];
    NamesOfTwo(b, c);
  }

  lemma {:induction false} DimCheckNames(field: string, dims: seq<Dimension>, from: nat)
    requires from <= |dims|
    ensures BlockNames(DimChecks(field, dims, from)) == {}
    decreases |dims| - from
  {
    if from < |dims| {
      var rest := DimChecks(field, dims, from + 1);
      DimCheckNames(field, dims, from + 1);
      if dims[from].Fixed? {
        assert ([CheckDim(field, from, dims[from].size)] + rest)[1..] == rest;
      } else {
        assert [] + rest == rest;
      }
    }
  }

  lemma TensorCheckNames(field: string, dtype: TensorElementType, dims: seq<Dimension>)
    ensures BlockNames(TensorChecks(field, dtype, dims)) == {"Vec", "usize", "Result"}
  {
    var d, k := CheckDtype(field, DtypeName(dtype)), CheckRank(field, |dims|);
    BlockNamesConcat([d, k], DimChecks(field, dims, 0));
    NamesOfTwo(d, k);
    DimCheckNames(field, dims, 0);
  }

  lemma ListTailNames(field: string, item: LaicType)
    requires ListTail(field, item).Some?
    ensures BlockNames(ListTail(field, item).value)
            == {"Vec"} + (if item.Tensor? then TENSOR_NAMES else if item.Optional? then LeafArray(item.inner) else LeafArray(item))
  {
    if item.Tensor? {
      TensorCheckNames(field, item.dtype, item.dims);
      BlockNamesConcat(TensorChecks(field, item.dtype, item.dims), [AsArray(BinaryArray), Collect(ToVec)]);
      NamesOfTwo(AsArray(BinaryArray), Collect(ToVec));
    } else {
      var tail := ListTail(field, item).value;
      assert tail == [tail[0], tail[1]];
      NamesOfTwo(tail[0], tail[1]);
    }
  }

  lemma OptionalLeafTailNames(inner: LaicType)
    requires IsLeaf(inner)
    ensures OptionalTail(inner).Some? && BlockNames(OptionalTail(inner).value) == LeafArray(inner)
  {
    var arr, convert := OptionalLeafTailIs(inner);
    NamesOfThree(AsArray(arr), ValueZero(convert), WrapSome);
  }

  lemma SomeListNames(arr: ArrayType, convert: Convert)
    ensures BlockNames([AsList, RowZero, AsArray(arr), Collect(convert), WrapSome]) == {"ListArray", "Vec", ArrayName(arr)}
  {
    var tail := [AsArray(arr), Collect(convert), WrapSome];
    assert [AsList, RowZero, AsArray(arr), Collect(convert), WrapSome] == [AsList, RowZero] + tail;
    BlockNamesConcat([AsList, RowZero], tail);
    NamesOfTwo(AsList, RowZero);
    NamesOfThree(AsArray(arr), Collect(convert), WrapSome);
  }

  lemma OptionalListTailNames(item: LaicType)
    requires OptionalTail(List(item)).Some?
    ensures BlockNames(OptionalTail(List(item)).value) == {"ListArray", "Vec"} + LeafArray(item)
  {
    SomeListNames(ArrowArrayType(item).value, InnerConvert(item));
  }

  lemma NullCheckNames(field: string, checks: seq<Op>)
    ensures BlockNames([LoadColumn(field)] + checks + [NullMeansNone]) == BlockNames(checks)
  {
    BlockNamesConcat([LoadColumn(field)] + checks, [NullMeansNone]);
    BlockNamesConcat([LoadColumn(field)], checks);
    NamesOfOne(LoadColumn(field));
    NamesOfOne(NullMeansNone);
  }

  lemma OptionalBlockNames(f: FieldDef)
    requires f.ty.Optional? && Supported(f.ty) && FieldBlock(f).Some?
    ensures BlockNames(FieldBlock(f).value) == FieldReads(f.ty)
  {
    var inner := f.ty.inner;
    var checks := if inner.Tensor? then TensorChecks(f.name, inner.dtype, inner.dims) else [];
    if inner.Tensor? {
      TensorCheckNames(f.name, inner.dtype, inner.dims);
    }
    NullCheckNames(f.name, checks);
    BlockNamesConcat([LoadColumn(f.name)] + checks + [NullMeansNone], OptionalTail(inner).value);
    if inner.List? {
      OptionalListTailNames(inner.item);
    } else {
      OptionalLeafTailNames(inner);
    }
  }

  lemma ScalarBlockNames(f: FieldDef)
    requires IsLeaf(f.ty) && !f.ty.Tensor? && ScalarBlock(f).Some?
    ensures BlockNames(ScalarBlock(f).value) == FieldReads(f.ty)
  {
    var ops := ScalarBlock(f).value;
    assert ops == [ops[0], ops[1]] + [ops[2], ops[3]];
    BlockNamesConcat([ops[0], ops[1]], [ops[2], ops[3]]);
    NamesOfTwo(ops[0], ops[1]);
    NamesOfTwo(ops[2], ops[3]);
  }

  lemma MapOpNames(field: string, keys: ArrayType, values: ArrayType, c: Op)
    requires c.CollectMap?
    ensures BlockNames([LoadColumn(field), AsMap, RowZero] + [KeysAs(keys), ValuesAs(values), c])
            == {"MapArray", "StructArray", "HashMap", ArrayName(keys), ArrayName(values)}
  {
    BlockNamesConcat([LoadColumn(field), AsMap, RowZero], [KeysAs(keys), ValuesAs(values), c]);
    NamesOfThree(LoadColumn(field), AsMap, RowZero);
    NamesOfThree(KeysAs(keys), ValuesAs(values), c);
  }

  lemma MapBlockNames(f: FieldDef)
    requires f.ty.Map? && FieldBlock(f).Some?
    ensures BlockNames(FieldBlock(f).value) == FieldReads(f.ty)
  {
    var keys, values := ArrowArrayType(f.ty.key).value, ArrowArrayType(f.ty.value).value;
    MapOpNames(f.name, keys, values, CollectMap(InnerConvert(f.ty.key), InnerConvert(f.ty.value)));
    assert LeafArray(f.ty.key) == {ArrayName(keys)} && LeafArray(f.ty.value) == {ArrayName(values)};
  }

  lemma TensorBlockNames(f: FieldDef)
    requires f.ty.Tensor?
    ensures BlockNames(TensorBlock(f.name, f.ty.dtype, f.ty.dims)) == TENSOR_NAMES
  {
    var load := [LoadColumn(f.name), AsArray(BinaryArray), ValueZero(ToVec)];
    TensorCheckNames(f.name, f.ty.dtype, f.ty.dims);
    BlockNamesConcat(TensorChecks(f.name, f.ty.dtype, f.ty.dims), load);
    NamesOfThree(LoadColumn(f.name), AsArray(BinaryArray), ValueZero(ToVec));
  }

  lemma ListBlockNames(f: FieldDef)
    requires f.ty.List? && FieldBlock(f).Some?
    ensures BlockNames(FieldBlock(f).value) == FieldReads(f.ty)
  {
    BlockNamesConcat([LoadColumn(f.name), AsList, RowZero], ListTail(f.name, f.ty.item).value);
    NamesOfThree(LoadColumn(f.name), AsList, RowZero);
    ListTailNames(f.name, f.ty.item);
  }

  /** The names a block mentions are decided by the field's type. */
  lemma BlockReadsExactly(f: FieldDef)
    requires Supported(f.ty) && FieldBlock(f).Some?
    ensures BlockNames(FieldBlock(f).value) == FieldReads(f.ty)
  {
    match f.ty {
      case Tensor(_, _) => TensorBlockNames(f);
      case List(_) => ListBlockNames(f);
      case Optional(_) => OptionalBlockNames(f);
      case Map(_, _) => MapBlockNames(f);
      case _ => ScalarBlockNames(f);
    }
  }

  /** No type of the file is called like a type that the struct's declaration or deserializer uses. */
  predicate NamesFree(def: StructDef, defined: set<string>) {
    && READER_NAMES !! defined
    && forall i :: 0 <= i < |def.fields| ==> (FieldReads(def.fields[i].ty) + TypeNames(def.fields[i].ty)) !! defined
  }

  lemma NamesResolveExactly(body: Body, def: StructDef, contract: Contract, defined: set<string>)
    requires Compilable(def) && IsBody(body, def, contract)
    ensures NamesResolve(body, def, defined) <==> NamesFree(def, defined)
  {
    forall i | 0 <= i < |def.fields| ensures BlockNames(body.lets[i].1) == FieldReads(def.fields[i].ty) {
      BlockReadsExactly(def.fields[i]);
    }
  }

  /** What a struct, its contract and the file's type names must avoid for the struct's Rust deserializer to
      be valid Rust. */
  predicate BodySafe(def: StructDef, contract: Contract, defined: set<string>, constants: set<string>) {
    RustEncoding.CleanContract(contract) && LetsSafe(def.fields, constants) && NamesFree(def, defined)
  }

  lemma GuardsCompileExactly(body: Body, def: StructDef, contract: Contract)
    requires IsDirection(contract.direction) && IsBody(body, def, contract)
    ensures (forall i :: 0 <= i < |body.guards| ==> LiteralCompiles(body.guards[i].1)) <==> RustEncoding.CleanContract(contract)
  {
    RustEncoding.QuotedCompiles(contract.skillId);
    RustEncoding.QuotedCompiles(contract.version);
    RustEncoding.DirectionCompiles(contract.direction);
    assert body.guards[0].1 == Quoted(contract.skillId, Rust);
    assert body.guards[1].1 == Quoted(contract.version, Rust);
    assert body.guards[2].1 == Quoted(contract.direction, Rust);
  }

  lemma CompilesExactly(body: Body, def: StructDef, contract: Contract, defined: set<string>, constants: set<string>)
    requires Compilable(def) && DefaultsInhabit(def) && IsDirection(contract.direction) && IsBody(body, def, contract)
    ensures Compiles(body, def, defined, constants) <==> BodySafe(def, contract, defined, constants)
  {
    GuardsCompileExactly(body, def, contract);
    LetsCompileExactly(def.fields, body.lets, FieldTypes(def), constants);
    NamesResolveExactly(body, def, contract, defined);
  }

  lemma DirectionIsPlain(direction: string)
    requires IsDirection(direction)
    ensures !HasC1(direction)
  {
  }

  // Reading a stream that carries a record

  lemma {:induction false} RunOpsConcat(a: seq<Op>, b: seq<Op>, stream: Stream, at: Focus)
    requires OneRow(stream)
    ensures RunOps(a + b, stream, at) ==
            match RunOps(a, stream, at) case Err(e) => Err(e) case Ok(next) => RunOps(b, stream, next)
  {
    if a == [] {
      assert a + b == b;
    } else {
      assert (a + b)[1..] == a[1..] + b;
      match RunOp(a[0], stream, at) {
        case Err(_) =>
        case Ok(next) => RunOpsConcat(a[1..], b, stream, next);
      }
    }
  }

  lemma RunTwo(a: Op, b: Op, stream: Stream, at: Focus, mid: Focus)
    requires OneRow(stream) && RunOp(a, stream, at) == Ok(mid)
    ensures RunOps([a, b], stream, at) == RunOp(b, stream, mid)
  {
    assert [a, b][1..] == [b] && [b][1..] == [];
    assert RunOps([b], stream, mid) == RunOp(b, stream, mid);
  }

  lemma RunThree(a: Op, b: Op, c: Op, stream: Stream, at: Focus, mid: Focus)
    requires OneRow(stream) && RunOp(a, stream, at) == Ok(mid)
    ensures RunOps([a, b, c], stream, at) == RunOps([b, c], stream, mid)
  {
    assert [a, b, c][1..] == [b, c];
  }

  /** The field's metadata is what the contract says, or at least compatible with it. */
  predicate TensorHonored(stream: Stream, field: string, dtype: TensorElementType, dims: seq<Dimension>) {
    && FieldMetadata(stream, field, DTYPE_KEY) == Ok(DtypeName(dtype))
    && FieldMetadata(stream, field, SHAPE_KEY).Ok?
    && RustAccepts(dims, FieldMetadata(stream, field, SHAPE_KEY).value)
  }

  lemma RunCons(op: Op, rest: seq<Op>, stream: Stream, at: Focus)
    requires OneRow(stream)
    ensures var r := RunOp(op, stream, at);
            RunOps([op] + rest, stream, at) == if r.Err? then Err(r.error) else RunOps(rest, stream, r.value)
  {
    assert ([op] + rest)[1..] == rest;
  }

  lemma CheckDimRuns(field: string, index: nat, size: nat, sizes: seq<nat>, rest: seq<Op>, stream: Stream, at: Focus)
    requires OneRow(stream) && !at.Returned? && FieldShape(stream, field) == Ok(sizes) && index < |sizes|
    ensures var r := RunOps([CheckDim(field, index, size)] + rest, stream, at);
            if sizes[index] == size then r == RunOps(rest, stream, at) else r.Err?
  {
    RunCons(CheckDim(field, index, size), rest, stream, at);
  }

  lemma CheckRankRuns(field: string, rank: nat, stream: Stream, at: Focus)
    requires OneRow(stream) && !at.Returned?
    ensures var shape := FieldShape(stream, field);
            var r := RunOp(CheckRank(field, rank), stream, at);
            (r.Ok? ==> r == Ok(at)) && (r.Ok? <==> shape.Ok? && |shape.value| == rank)
  {
  }

  lemma CheckDtypeRuns(field: string, dtype: string, stream: Stream, at: Focus)
    requires OneRow(stream) && !at.Returned?
    ensures var r := RunOp(CheckDtype(field, dtype), stream, at);
            (r.Ok? ==> r == Ok(at)) && (r.Ok? <==> FieldMetadata(stream, field, DTYPE_KEY) == Ok(dtype))
  {
  }

  /** A dimension that is not fixed adds no check. */
  lemma DimStepRuns(field: string, dims: seq<Dimension>, from: nat, sizes: seq<nat>, stream: Stream, at: Focus)
    requires OneRow(stream) && !at.Returned? && from < |dims| && |sizes| == |dims| && FieldShape(stream, field) == Ok(sizes)
    ensures var r, rest := RunOps(DimChecks(field, dims, from), stream, at), RunOps(DimChecks(field, dims, from + 1), stream, at);
            if dims[from].Fixed? && sizes[from] != dims[from].size then r.Err? else r == rest
  {
    var rest := DimChecks(field, dims, from + 1);
    if dims[from].Fixed? {
      CheckDimRuns(field, from, dims[from].size, sizes, rest, stream, at);
    } else {
      assert [] + rest == rest;
    }
  }

  lemma {:induction false} DimChecksRun(field: string, dims: seq<Dimension>, from: nat, sizes: seq<nat>, stream: Stream, at: Focus)
    requires OneRow(stream) && !at.Returned? && from <= |dims| && |sizes| == |dims|
    requires FieldShape(stream, field) == Ok(sizes)
    ensures var r := RunOps(DimChecks(field, dims, from), stream, at);
            (r.Ok? ==> r == Ok(at)) && (r.Ok? <==> FixedDimsMatch(dims, sizes, from))
    decreases |dims| - from
  {
    if from < |dims| {
      DimChecksRun(field, dims, from + 1, sizes, stream, at);
      FixedDimsStep(dims, sizes, from);
      DimStepRuns(field, dims, from, sizes, stream, at);
    }
  }

  /** The tensor checks pass exactly on honored metadata, and change nothing. */
  lemma TensorChecksRun(field: string, dtype: TensorElementType, dims: seq<Dimension>, stream: Stream, at: Focus)
    requires OneRow(stream) && !at.Returned?
    ensures var r := RunOps(TensorChecks(field, dtype, dims), stream, at);
      && (r.Ok? ==> r == Ok(at))
      && (r.Ok? <==> TensorHonored(stream, field, dtype, dims))
  {
    var d, k := CheckDtype(field, DtypeName(dtype)), CheckRank(field, |dims|);
    var rest := DimChecks(field, dims, 0);
    assert TensorChecks(field, dtype, dims) == [d] + ([k] + rest);
    RunCons(d, [k] + rest, stream, at);
    CheckDtypeRuns(field, DtypeName(dtype), stream, at);
    RunCons(k, rest, stream, at);
    CheckRankRuns(field, |dims|, stream, at);
    var shape := FieldShape(stream, field);
    if shape.Ok? && |shape.value| == |dims| {
      DimChecksRun(field, dims, 0, shape.value, stream, at);
    }
  }

  lemma CarriedMetadataIsHonored(f: FieldDef, stream: Stream, i: nat)
    requires OneRow(stream) && IndexOf(stream.schema.fields, f.name) == Some(i)
    requires TensorOf(f.ty).Some? && MetadataMatches(f.ty, stream.schema.fields[i].metadata)
    ensures TensorHonored(stream, f.name, TensorOf(f.ty).value.0, TensorOf(f.ty).value.1)
  {
    var dims := TensorOf(f.ty).value.1;
    ParsersInvertFormat(dims);
    AnnouncementsAt(dims);
  }

  lemma LeafIsRead(ty: LaicType, v: Value, cell: Cell, arr: ArrayType, convert: Convert)
    requires IsLeaf(ty) && HasType(v, ty) && CellCarries(ty, v, cell)
    requires ArrayElement(arr) == LeafType(ty) && ConvertTypechecks(arr, convert)
    ensures OwnedValue(arr, cell, convert) == Ok(v)
  {
  }

  lemma {:induction false} LeavesAreRead(ty: LaicType, items: seq<Value>, cells: seq<Cell>, arr: ArrayType, convert: Convert)
    requires IsLeaf(ty) && |cells| == |items|
    requires forall i :: 0 <= i < |items| ==> HasType(items[i], ty) && CellCarries(ty, items[i], cells[i])
    requires ArrayElement(arr) == LeafType(ty) && ConvertTypechecks(arr, convert)
    ensures OwnedValues(arr, cells, convert) == Ok(items)
  {
    if cells != [] {
      var n := |cells| - 1;
      LeavesAreRead(ty, items[..n], cells[..n], arr, convert);
      LeafIsRead(ty, items[n], cells[n], arr, convert);
      assert items[..n] + [items[n]] == items;
    }
  }

  lemma OptionIsRead(ty: LaicType, v: Value, cell: Cell, arr: ArrayType, convert: Convert)
    requires IsLeaf(ty) && HasType(v, Optional(ty)) && CellCarries(Optional(ty), v, cell)
    requires ArrayElement(arr) == LeafType(ty) && ConvertTypechecks(arr, convert)
    ensures OwnedValue(arr, cell, convert).Ok?
    ensures v == VOption(if cell.Null? then None else Some(OwnedValue(arr, cell, convert).value))
  {
  }

  lemma {:induction false} OptionsAreRead(ty: LaicType, items: seq<Value>, cells: seq<Cell>, arr: ArrayType, convert: Convert)
    requires IsLeaf(ty) && |cells| == |items|
    requires forall i :: 0 <= i < |items| ==> HasType(items[i], Optional(ty)) && CellCarries(Optional(ty), items[i], cells[i])
    requires ArrayElement(arr) == LeafType(ty) && ConvertTypechecks(arr, convert)
    ensures OwnedOptions(arr, cells, convert) == Ok(items)
  {
    if cells != [] {
      var n := |cells| - 1;
      OptionsAreRead(ty, items[..n], cells[..n], arr, convert);
      OptionIsRead(ty, items[n], cells[n], arr, convert);
      assert items[..n] + [items[n]] == items;
    }
  }

  lemma {:induction false} PairsAreInserted(key: LaicType, value: LaicType, keys: seq<Scalar>, m: map<Scalar, Scalar>,
                                            entries: seq<(Cell, Cell)>, k: ArrayType, kc: Convert, v: ArrayType, vc: Convert)
    requires IsLeaf(key) && IsLeaf(value) && HasType(VMap(m), Map(key, value))
    requires |keys| == |entries| && forall i :: 0 <= i < |keys| ==> keys[i] in m && entries[i] == (Leaf(keys[i]), Leaf(m[keys[i]]))
    requires ArrayElement(k) == LeafType(key) && ConvertTypechecks(k, kc)
    requires ArrayElement(v) == LeafType(value) && ConvertTypechecks(v, vc)
    ensures var r := InsertAll(k, kc, v, vc, entries);
            r.Ok? && r.value == map x | x in keys :: m[x]
  {
    if entries != [] {
      var n := |entries| - 1;
      PairsAreInserted(key, value, keys[..n], m, entries[..n], k, kc, v, vc);
      LeafIsRead(key, VLeaf(keys[n]), entries[n].0, k, kc);
      LeafIsRead(value, VLeaf(m[keys[n]]), entries[n].1, v, vc);
      var before := map x | x in keys[..n] :: m[x];
      assert before[keys[n] := m[keys[n]]] == map x | x in keys :: m[x];
    }
  }

  lemma EnumerationIsMap(keys: seq<Scalar>, m: map<Scalar, Scalar>)
    requires Enumerates(keys, m)
    ensures (map x | x in keys :: m[x]) == m
  {
  }

  lemma MapIsRead(key: LaicType, value: LaicType, m: map<Scalar, Scalar>, entries: seq<(Cell, Cell)>,
                  k: ArrayType, kc: Convert, v: ArrayType, vc: Convert)
    requires IsLeaf(key) && IsLeaf(value) && HasType(VMap(m), Map(key, value)) && EntriesCarry(entries, m)
    requires ArrayElement(k) == LeafType(key) && ConvertTypechecks(k, kc)
    requires ArrayElement(v) == LeafType(value) && ConvertTypechecks(v, vc)
    ensures InsertAll(k, kc, v, vc, entries) == Ok(m)
  {
    var keys: seq<Scalar> :| Enumerates(keys, m) && |keys| == |entries|
      && forall i :: 0 <= i < |keys| ==> entries[i] == (Leaf(keys[i]), Leaf(m[keys[i]]));
    PairsAreInserted(key, value, keys, m, entries, k, kc, v, vc);
    EnumerationIsMap(keys, m);
  }
}
