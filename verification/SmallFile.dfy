/** There is something to exchange: a file that meets every condition, its programs, and a record. */
module SmallFile {
  import opened Wrappers
  import opened Ast
  import opened Validate
  import opened Specimens
  import opened Arrow
  import opened Records
  import opened PythonValues
  import opened Definitions
  import opened FileExchange
  import RustTypes
  import RS = RustSerialize
  import RE = RustEncoding
  import RD = RustDeserialize
  import RDec = RustDecoding
  import RC = RustContract
  import PS = PythonSerialize
  import PE = PythonEncoding
  import PC = PythonContract
  import TS = TypeScriptDeserialize
  import TL = TypeScriptLocals
  import TB = TypeScriptBodies
  import TC = TypeScriptContract
  import RT = RoundTrip
  import Failures

  function Sample(ty: LaicType): (v: Value)
    requires Supported(ty)
    ensures HasType(v, ty)
  {
    match ty
    case List(_) => VList([])
    case Optional(_) => VOption(None)
    case Map(_, _) => VMap(map[])
    case _ =>
      VLeaf(RD.Blank(LeafType(ty)))
  }

  function SampleRecord(def: StructDef): (rec: Record)
    requires Compilable(def)
    ensures WellTyped(def, rec)
  {
    map i | 0 <= i < |def.fields| :: def.fields[i].name := Sample(def.fields[i].ty)
  }

  ghost function Listing<K(!new), V>(m: map<K, V>): (keys: seq<K>)
    ensures Enumerates(keys, m)
    decreases |m|
  {
    if |m| == 0 then []
    else
      var k :| k in m;
      Listing(m - {k}) + [k]
  }

  lemma OrdersExist() returns (order: RS.Order, pyOrder: PS.Order)
    ensures RS.IsOrder(order) && PS.IsOrder(pyOrder)
  {
    order := (m: map<Scalar, Scalar>) => Listing(m);
    pyOrder := (m: map<PyValue, PyValue>) => Listing(m);
  }

  /** Names of one letter take no name of two letters or more. */
  predicate Longer(names: set<string>) {
    forall n :: n in names ==> |n| > 1
  }

  predicate OneLetter(defined: set<string>) {
    forall n :: n in defined ==> |n| == 1
  }

  lemma PlainWrites(name: string, contract: Contract, defined: set<string>)
    requires RE.CleanContract(contract) && OneLetter(defined)
    ensures RE.WriterSafe(Plain(name), contract, defined)
  {
    assert Longer(RS.WRITER_NAMES) && Longer(RE.FieldDeclares(StringT)) && Longer(RE.FieldWrites(StringT));
  }

  lemma PlainReads(name: string, contract: Contract, defined: set<string>, constants: set<string>)
    requires RE.CleanContract(contract) && OneLetter(defined) && Longer(constants)
    ensures RDec.BodySafe(Plain(name), contract, defined, constants)
  {
    assert Longer(RD.READER_NAMES) && Longer(RDec.FieldReads(StringT)) && Longer(RustTypes.TypeNames(StringT));
    assert RDec.LetsSafe(Plain(name).fields, constants);
  }

  lemma PlainIsPythonSafe(name: string, defined: set<string>)
    requires OneLetter(defined)
    ensures PE.WriterSafe(Plain(name), defined) && RT.PythonSafe(Plain(name), defined)
  {
    assert forall i :: 0 <= i < |Plain(name).fields| ==> Plain(name).fields[i] == TEXT;
  }

  /** The block declares three variables, the field's, and its two companions. */
  lemma PlainDeclares(name: string, n: string)
    ensures n in TB.LocalNames(Plain(name)) <==> n in ["table", "batch", "schemaMetadata"] || n in TL.OwnNames(TEXT)
  {
    assert Plain(name).fields == [TEXT] && TB.AllOwn([TEXT][..0]) == [];
    assert TB.AllOwn([TEXT]) == TL.OwnList(TEXT);
  }

  lemma PlainLocals(name: string, n: string)
    requires n in TB.LocalNames(Plain(name))
    ensures n == "x" || |n| > 1
    ensures n !in TL.OUTER_NAMES
  {
    PlainDeclares(name, n);
    TL.CompanionNames("x");
  }

  lemma PlainParses(name: string)
    ensures TC.ClassSafe(Plain(name))
    ensures TS.Distinct(TB.LocalNames(Plain(name))) && "data" !in TB.LocalNames(Plain(name))
  {
    assert Plain(name).fields == [TEXT];
    TL.CompanionNames("x");
    TB.ClashesExactly(Plain(name));
  }

  lemma OuterNamesAreLong()
    ensures Longer(TL.OUTER_NAMES) && "data" !in TL.OUTER_NAMES
  {
  }

  lemma NamesAreFree(locals: seq<string>, name: string, defined: set<string>, outer: set<string>)
    requires |name| == 1 && OneLetter(defined) && Longer(outer) && "data" !in outer
    requires forall n <- locals :: n != name && n !in outer
    ensures var scope := TS.ScopeOf(locals, defined);
            name !in scope.declared && forall n <- outer :: scope.Free(n)
  {
  }

  lemma PlainIsTypeScriptSafe(name: string, defined: set<string>)
    requires OneLetter(defined) && name in defined && name != "x"
    ensures RT.TypeScriptSafe(Plain(name), defined)
  {
    PlainParses(name);
    forall n <- TB.LocalNames(Plain(name)) ensures n != name && n !in TL.OUTER_NAMES {
      PlainLocals(name, n);
    }
    OuterNamesAreLong();
    NamesAreFree(TB.LocalNames(Plain(name)), name, defined, TL.OUTER_NAMES);
    assert TensorOf(StringT).None? && Plain(name).fields == [TEXT];
  }

  lemma PlainTakesNoName(name: string, defined: set<string>)
    requires OneLetter(defined) && name in defined && name != "x"
    ensures PE.WriterSafe(Plain(name), defined) && RT.PythonSafe(Plain(name), defined) && RT.TypeScriptSafe(Plain(name), defined)
  {
    PlainIsPythonSafe(name, defined);
    PlainIsTypeScriptSafe(name, defined);
  }

  predicate IsSmall(ds: seq<Definition>) {
    && |ds| == 2 && ds[0].Struct? && ds[1].Struct? && ds[0].def == Plain("H") && ds[1].def == Plain("O")
    && RE.CleanContract(ds[0].contract) && RE.CleanContract(ds[1].contract)
  }

  lemma SmallNames(ds: seq<Definition>)
    requires IsSmall(ds)
    ensures OneLetter(DefinedNames(ds)) && DistinctNames(ds)
  {
    assert DefinedName(ds[0]) == "H" && DefinedName(ds[1]) == "O";
  }

  lemma SmallIsRustSafe(ds: seq<Definition>, constants: set<string>)
    requires IsSmall(ds) && Longer(constants)
    ensures RC.FileSafe(ds, constants)
  {
    var defined := DefinedNames(ds);
    SmallNames(ds);
    assert Longer(RC.IMPORTS) && |"str"| == 3;
    forall i | 0 <= i < 2 ensures RC.DefinitionSafe(ds[i], defined, constants) {
      PlainWrites(ds[i].def.name, ds[i].contract, defined);
      PlainReads(ds[i].def.name, ds[i].contract, defined, constants);
    }
  }

  lemma SmallIsPythonSafe(ds: seq<Definition>)
    requires IsSmall(ds)
    ensures PC.ModuleSafe(ds)
  {
    SmallNames(ds);
    assert |"dataclasses"| > 1 && |"classmethod"| > 1 && |"ClassVar"| > 1;
    forall j: nat, n | j <= 2 && |n| > 1 ensures !PC.DefinesBefore(ds, j, n) {
    }
    forall i | 0 <= i < 2 ensures ds[i].def.fields == [TEXT] {
    }
  }

  lemma SmallIsTypeScriptSafe(ds: seq<Definition>)
    requires IsSmall(ds)
    ensures TC.ModuleSafe(ds)
  {
    SmallNames(ds);
    assert Longer(TC.MODULE_NAMES);
    PlainParses("H");
    PlainParses("O");
  }

  lemma SmallTakesNoName(ds: seq<Definition>)
    requires IsSmall(ds)
    ensures NamesSafe(ds)
  {
    SmallNames(ds);
    forall i | 0 <= i < 2 ensures DefinedName(ds[i]) in DefinedNames(ds) {
    }
    PlainTakesNoName("H", DefinedNames(ds));
    PlainTakesNoName("O", DefinedNames(ds));
  }

  /** The conditions of the exchange can be met, also with imported constants of more than one letter. */
  lemma SmallFileIsSafe(version: string, id: string, constants: set<string>)
    requires version != "" && id != "" && RE.CleanText(version) && RE.CleanText(id) && Longer(constants)
    ensures var file := FileOf(version, id, Plain("H"), Plain("O"));
            && Accepted(file) && IsSmall(DefinitionsOf(file)) && NamesSafe(DefinitionsOf(file))
            && RC.FileSafe(DefinitionsOf(file), constants) && PC.ModuleSafe(DefinitionsOf(file)) && TC.ModuleSafe(DefinitionsOf(file))
  {
    var file := FileOf(version, id, Plain("H"), Plain("O"));
    PlainIsAccepted("H");
    PlainIsAccepted("O");
    FileIsAccepted(version, id, Plain("H"), Plain("O"));
    Failures.FirstDefinition(file);
    SmallIsRustSafe(DefinitionsOf(file), constants);
    SmallIsPythonSafe(DefinitionsOf(file));
    SmallIsTypeScriptSafe(DefinitionsOf(file));
    SmallTakesNoName(DefinitionsOf(file));
  }

  lemma SmallIsCompilable()
    ensures Compilable(Plain("H"))
  {
    PlainIsAccepted("H");
    AcceptedStructsAreCompilable(Plain("H"), RESERVED);
  }

  /** A record of the first struct is written and read, with some order of its maps. */
  lemma FirstExchanges(file: LaicFile, words: seq<string>, rust: seq<RC.Item>, python: seq<PC.Item>, def: StructDef,
                       contract: Contract, rec: Record)
    requires DefinitionsOf(file) != [] && DefinitionsOf(file)[0] == Struct(def, contract) && WellTyped(def, rec)
    requires AcceptedWith(file, words) && RC.IsFile(rust, DefinitionsOf(file), false) && PC.IsModule(python, DefinitionsOf(file))
    requires RC.FileSafe(DefinitionsOf(file), {}) && PC.ModuleSafe(DefinitionsOf(file)) && NamesSafe(DefinitionsOf(file))
    ensures exists stream :: Exchanged(rust[0], python[0], rec, stream, DefinedNames(DefinitionsOf(file)))
  {
    var order, pyOrder := OrdersExist();
    SafeFilesExchange(file, words, rust, false, {}, python, 0, def, contract, rec, order, pyOrder);
  }

  lemma SmallFileEmits(ds: seq<Definition>)
    requires IsSmall(ds)
    ensures RC.EmitsAll(ds, false)
  {
  }

  lemma SmallIsExchanged(file: LaicFile, words: seq<string>, rust: seq<RC.Item>, python: seq<PC.Item>, rec: Record)
    requires IsSmall(DefinitionsOf(file)) && WellTyped(Plain("H"), rec)
    requires AcceptedWith(file, words) && RC.IsFile(rust, DefinitionsOf(file), false) && PC.IsModule(python, DefinitionsOf(file))
    ensures exists stream :: Exchanged(rust[0], python[0], rec, stream, DefinedNames(DefinitionsOf(file)))
  {
    var ds := DefinitionsOf(file);
    SmallIsRustSafe(ds, {});
    SmallIsPythonSafe(ds);
    SmallTakesNoName(ds);
    FirstExchanges(file, words, rust, python, Plain("H"), ds[0].contract, rec);
  }

  /** The smallest contract is compiled, and what is written of a record is read. */
  method SmallFileExchanges(version: string, id: string) returns (rust: RC.Item, python: PC.Item)
    requires version != "" && id != "" && RE.CleanText(version) && RE.CleanText(id)
    ensures Compilable(Plain("H"))
    ensures var defined := DefinedNames(DefinitionsOf(FileOf(version, id, Plain("H"), Plain("O"))));
            exists stream :: Exchanged(rust, python, SampleRecord(Plain("H")), stream, defined)
  {
    var file := FileOf(version, id, Plain("H"), Plain("O"));
    SmallFileIsSafe(version, id, {});
    SmallFileEmits(DefinitionsOf(file));
    var r := Compile(file, false);
    SmallIsCompilable();
    SmallIsExchanged(file, RESERVED, r.value.0.value, r.value.1, SampleRecord(Plain("H")));
    rust, python := r.value.0.value[0], r.value.1[0];
  }
}
