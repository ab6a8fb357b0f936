/** Contracts that the validator accepts and whose generated code is of no use, one for each reason. The
    conditions elsewhere say exactly which contracts these are. */
module Failures {
  import opened Wrappers
  import opened Bytes
  import opened Ast
  import opened Validate
  import opened Specimens
  import opened Arrow
  import opened Records
  import opened Definitions
  import RustTypes
  import RS = RustSerialize
  import RE = RustEncoding
  import RD = RustDeserialize
  import RDec = RustDecoding
  import RC = RustContract
  import PD = PythonDeserialize
  import PDec = PythonDecoding
  import PB = PythonBodies
  import PC = PythonContract
  import PL = PythonLoading
  import TS = TypeScriptDeserialize
  import TC = TypeScriptContract

  // Types

  /** The Rust generator panics. */
  lemma ListOfOptionals()
    ensures var def := One("R", FieldDef("x", List(Optional(StringT)), None));
            StructOk(def, RESERVED) && !RC.Emits(def, false)
  {
    OneIsAccepted("R", FieldDef("x", List(Optional(StringT)), None));
    RS.PanicsExactly(List(Optional(StringT)));
    assert RS.IsListOfOptional(One("R", FieldDef("x", List(Optional(StringT)), None)).fields[0].ty);
  }

  const TENSOR := Tensor(EF32, [Fixed(1)])

  /** The Rust deserializer does not compile. */
  lemma NestedTensors(ty: LaicType, contract: Contract, body: RD.Body, defined: set<string>, constants: set<string>)
    requires ty == Optional(List(TENSOR)) || ty == List(Optional(TENSOR))
    requires IsDirection(contract.direction) && RD.IsBody(body, One("R", FieldDef("x", ty, None)), contract)
    ensures StructOk(One("R", FieldDef("x", ty, None)), RESERVED)
    ensures !RD.Compiles(body, One("R", FieldDef("x", ty, None)), defined, constants)
  {
    var def := One("R", FieldDef("x", ty, None));
    OneIsAccepted("R", FieldDef("x", ty, None));
    AcceptedStructsAreCompilable(def, RESERVED);
    RDec.CompilesExactly(body, def, contract, defined, constants);
    assert !RDec.FieldCompiles(def.fields[0]);
  }

  // Defaults

  /** The Rust deserializer does not compile, whatever the integer. */
  lemma IntegerDefaultOfFloat(ty: LaicType, i: i64, contract: Contract, body: RD.Body, defined: set<string>,
                              constants: set<string>)
    requires ty.F32? || ty.F64?
    requires IsDirection(contract.direction) && RD.IsBody(body, One("R", FieldDef("x", ty, Some(IntegerLit(i)))), contract)
    ensures StructOk(One("R", FieldDef("x", ty, Some(IntegerLit(i)))), RESERVED)
    ensures !RD.Compiles(body, One("R", FieldDef("x", ty, Some(IntegerLit(i)))), defined, constants)
  {
    var def := One("R", FieldDef("x", ty, Some(IntegerLit(i))));
    OneIsAccepted("R", FieldDef("x", ty, Some(IntegerLit(i))));
    AcceptedStructsAreCompilable(def, RESERVED);
    RDec.CompilesExactly(body, def, contract, defined, constants);
    assert !RDec.FieldCompiles(def.fields[0]);
  }

  function Infinite(bits: u64): StructDef {
    One("R", FieldDef("x", F64, Some(FloatLit(bits))))
  }

  lemma InfiniteIsUnsafe(bits: u64, ds: seq<Definition>, constants: set<string>)
    requires !IsFinite(bits) && ds != [] && ds[0].Struct? && ds[0].def == Infinite(bits)
    ensures !RC.FileSafe(ds, constants) && !PC.ModuleSafe(ds) && !TC.ModuleSafe(ds)
  {
    var f := ds[0].def.fields[0];
    assert !RDec.FieldCompiles(f) && !PDec.DefaultParses(f) && !TS.DefaultParses(f.default);
    assert !RC.DefinitionSafe(ds[0], DefinedNames(ds), constants) && !PC.ParsesAt(ds[0]) && !TC.ClassSafe(ds[0].def);
  }

  /** A default too large for a float is kept as infinity, which no target can read back. */
  lemma InfiniteDefault(bits: u64, version: string, id: string, rust: seq<RC.Item>, reached: bool, python: seq<PC.Item>,
                        typescript: seq<TC.Item>, constants: set<string>)
    requires !IsFinite(bits) && version != "" && id != ""
    requires var ds := DefinitionsOf(FileOf(version, id, Infinite(bits), Plain("O")));
             RC.IsFile(rust, ds, reached) && PC.IsModule(python, ds) && TC.IsModule(typescript, ds)
    ensures Accepted(FileOf(version, id, Infinite(bits), Plain("O")))
    ensures !RC.FileCompiles(rust, constants) && !PC.Works(python) && !TC.ModuleParses(typescript)
  {
    var file := FileOf(version, id, Infinite(bits), Plain("O"));
    OneIsAccepted("R", FieldDef("x", F64, Some(FloatLit(bits))));
    PlainIsAccepted("O");
    FileIsAccepted(version, id, Infinite(bits), Plain("O"));
    RC.FileCompilesExactly(file, RESERVED, rust, reached, constants);
    PL.ModuleWorksExactly(file, RESERVED, python);
    TC.ModuleParsesExactly(file, RESERVED, typescript);
    FirstDefinition(file);
    InfiniteIsUnsafe(bits, DefinitionsOf(file), constants);
  }

  /** What a file with one skill and no errors defines. */
  lemma FirstDefinition(file: LaicFile)
    requires |file.skills| == 1 && file.skills[0].errors == []
    ensures var s := file.skills[0];
            DefinitionsOf(file) == [Struct(s.input, Contract(s.id, file.version, "input")),
                                    Struct(s.output, Contract(s.id, file.version, "output"))]
  {
    assert file.skills[..0] == [];
    assert AllDefinitions(file.skills[..0], file.version) == [];
  }

  // Texts

  /** Skill ids and versions for which Rust takes no literal. */
  lemma ControlsInContract(version: string, id: string, rust: seq<RC.Item>, reached: bool, constants: set<string>)
    requires version != "" && id != "" && (!RE.CleanText(id) || !RE.CleanText(version))
    requires RC.IsFile(rust, DefinitionsOf(FileOf(version, id, Plain("H"), Plain("O"))), reached)
    ensures Accepted(FileOf(version, id, Plain("H"), Plain("O"))) && !RC.FileCompiles(rust, constants)
  {
    var file := FileOf(version, id, Plain("H"), Plain("O"));
    PlainIsAccepted("H");
    PlainIsAccepted("O");
    FileIsAccepted(version, id, Plain("H"), Plain("O"));
    RC.FileCompilesExactly(file, RESERVED, rust, reached, constants);
    FirstDefinition(file);
    assert !RC.DefinitionSafe(DefinitionsOf(file)[0], DefinedNames(DefinitionsOf(file)), constants);
  }

  function Greeting(text: string): StructDef {
    One("R", FieldDef("x", StringT, Some(StringLit(text))))
  }

  /** The Rust deserializer does not compile. */
  lemma ControlsInDefault(text: string, contract: Contract, body: RD.Body, defined: set<string>, constants: set<string>)
    requires !RE.CleanText(text)
    requires IsDirection(contract.direction) && RD.IsBody(body, Greeting(text), contract)
    ensures StructOk(Greeting(text), RESERVED)
    ensures !RD.Compiles(body, Greeting(text), defined, constants)
  {
    OneIsAccepted("R", FieldDef("x", StringT, Some(StringLit(text))));
    AcceptedStructsAreCompilable(Greeting(text), RESERVED);
    RDec.CompilesExactly(body, Greeting(text), contract, defined, constants);
    assert !RDec.FieldCompiles(Greeting(text).fields[0]);
  }

  // Names

  /** A field called like a constant that Rust imports: its binding is a comparison with the constant. */
  lemma FieldCalledLikeConstant(contract: Contract, body: RD.Body, defined: set<string>, constants: set<string>)
    requires "DECIMAL128_MAX_PRECISION" in constants && IsDirection(contract.direction)
    requires RD.IsBody(body, One("R", FieldDef("DECIMAL128_MAX_PRECISION", StringT, None)), contract)
    ensures StructOk(One("R", FieldDef("DECIMAL128_MAX_PRECISION", StringT, None)), RESERVED)
    ensures !RD.Compiles(body, One("R", FieldDef("DECIMAL128_MAX_PRECISION", StringT, None)), defined, constants)
  {
    var def := One("R", FieldDef("DECIMAL128_MAX_PRECISION", StringT, None));
    OneIsAccepted("R", FieldDef("DECIMAL128_MAX_PRECISION", StringT, None));
    AcceptedStructsAreCompilable(def, RESERVED);
    RDec.CompilesExactly(body, def, contract, defined, constants);
    assert !RD.CanBeBound(def.fields[0].name, constants);
  }

  /** Two definitions of one name: Rust and TypeScript refuse the file, and Python keeps the second. */
  lemma SharedName(version: string, id: string, rust: seq<RC.Item>, reached: bool, python: seq<PC.Item>,
                   typescript: seq<TC.Item>, constants: set<string>)
    requires version != "" && id != ""
    requires var ds := DefinitionsOf(FileOf(version, id, Plain("H"), Plain("H")));
             RC.IsFile(rust, ds, reached) && PC.IsModule(python, ds) && TC.IsModule(typescript, ds)
    ensures Accepted(FileOf(version, id, Plain("H"), Plain("H")))
    ensures !RC.FileCompiles(rust, constants) && !PC.Works(python) && !TC.ModuleParses(typescript)
  {
    var file := FileOf(version, id, Plain("H"), Plain("H"));
    PlainIsAccepted("H");
    FileIsAccepted(version, id, Plain("H"), Plain("H"));
    RC.FileCompilesExactly(file, RESERVED, rust, reached, constants);
    PL.ModuleWorksExactly(file, RESERVED, python);
    TC.ModuleParsesExactly(file, RESERVED, typescript);
    FirstDefinition(file);
    var ds := DefinitionsOf(file);
    assert DefinedName(ds[0]) == DefinedName(ds[1]) && !TC.Coexist(ds[0], ds[1]);
  }

  lemma TypeNameIsTaken(ds: seq<Definition>, name: string, constants: set<string>)
    requires (name == "HashMap" || name == "String") && ds != [] && ds[0].Struct? && ds[0].def == Plain(name)
    ensures !RC.FileSafe(ds, constants)
  {
    assert DefinedName(ds[0]) == name && name in DefinedNames(ds);
    if name == "String" {
      assert "String" in RustTypes.TypeNames(ds[0].def.fields[0].ty);
      assert !RDec.NamesFree(ds[0].def, DefinedNames(ds));
      assert !RC.DefinitionSafe(ds[0], DefinedNames(ds), constants);
    } else {
      assert "HashMap" in RC.IMPORTS;
    }
  }

  /** A struct called like a type that generated Rust uses. */
  lemma StructCalledLikeType(name: string, version: string, id: string, rust: seq<RC.Item>, reached: bool,
                             constants: set<string>)
    requires (name == "HashMap" || name == "String") && version != "" && id != ""
    requires RC.IsFile(rust, DefinitionsOf(FileOf(version, id, Plain(name), Plain("O"))), reached)
    ensures Accepted(FileOf(version, id, Plain(name), Plain("O"))) && !RC.FileCompiles(rust, constants)
  {
    var file := FileOf(version, id, Plain(name), Plain("O"));
    PlainIsAccepted(name);
    PlainIsAccepted("O");
    FileIsAccepted(version, id, Plain(name), Plain("O"));
    RC.FileCompilesExactly(file, RESERVED, rust, reached, constants);
    FirstDefinition(file);
    TypeNameIsTaken(DefinitionsOf(file), name, constants);
  }

  /** A class called `ipc` takes the module's place; one called `StopIteration` cannot be caught. */
  lemma ClassCalledLikeGlobal(name: string, contract: Contract, body: PD.Body, stream: Stream, defined: set<string>)
    requires (name == "StopIteration" || name == "ipc") && name in defined && PD.IsBody(body, Plain(name), contract)
    ensures StructOk(Plain(name), RESERVED)
    ensures PD.RunBody(body, stream, PD.ScopeOf(Plain(name), defined)).Err?
  {
    PlainIsAccepted(name);
    PB.BodySplits(body, Plain(name), contract, stream, defined);
  }

  lemma SecondNeedsImport(ds: seq<Definition>, name: string)
    requires (name == "dataclasses" || name == "ClassVar")
    requires |ds| == 2 && DefinedName(ds[0]) == name && ds[1].Struct? && ds[1].def == Plain("O")
    ensures !PC.ModuleSafe(ds)
  {
    assert PC.DefinesBefore(ds, 1, name);
    assert ds[1].def.fields[0].default.None?;
    assert name == "ClassVar" ==> !PC.OrderSafe(ds[1].def.fields, true);
    assert !PC.Survives(ds, 1);
  }

  /** The statement of the second class needs the imported name that the first has taken. */
  lemma ClassCalledLikeImport(version: string, id: string, python: seq<PC.Item>, name: string)
    requires (name == "dataclasses" || name == "ClassVar") && version != "" && id != ""
    requires PC.IsModule(python, DefinitionsOf(FileOf(version, id, Plain(name), Plain("O"))))
    ensures Accepted(FileOf(version, id, Plain(name), Plain("O"))) && !PC.Works(python)
  {
    var file := FileOf(version, id, Plain(name), Plain("O"));
    PlainIsAccepted(name);
    PlainIsAccepted("O");
    FileIsAccepted(version, id, Plain(name), Plain("O"));
    PL.ModuleWorksExactly(file, RESERVED, python);
    FirstDefinition(file);
    SecondNeedsImport(DefinitionsOf(file), name);
  }

  /** The default takes the place of the decorator in the class body. */
  lemma FieldCalledClassmethod(text: string, version: string, id: string, python: seq<PC.Item>)
    requires version != "" && id != ""
    requires var def := One("H", FieldDef("classmethod", StringT, Some(StringLit(text))));
             PC.IsModule(python, DefinitionsOf(FileOf(version, id, def, Plain("O"))))
    ensures var def := One("H", FieldDef("classmethod", StringT, Some(StringLit(text))));
            Accepted(FileOf(version, id, def, Plain("O"))) && !PC.Works(python)
  {
    var f := FieldDef("classmethod", StringT, Some(StringLit(text)));
    var file := FileOf(version, id, One("H", f), Plain("O"));
    OneIsAccepted("H", f);
    PlainIsAccepted("O");
    FileIsAccepted(version, id, One("H", f), Plain("O"));
    PL.ModuleWorksExactly(file, RESERVED, python);
    FirstDefinition(file);
    assert DefinitionsOf(file)[0].def.fields[0] == f;
    assert !PC.Survives(DefinitionsOf(file), 0);
  }

  lemma ToIpcFirstIsUnsafe(ds: seq<Definition>)
    requires ds != [] && ds[0].Struct? && ds[0].def.fields == [FieldDef("to_ipc", StringT, None), TEXT]
    ensures !PC.ModuleSafe(ds)
  {
    var fields := ds[0].def.fields;
    assert fields[0].default.None? && fields[1].default.None? && PC.IsInherited(fields[0].name) && !PC.IsInherited(fields[1].name);
    assert !PC.OrderSafe(fields, false);
    assert !PC.Survives(ds, 0);
  }

  /** The method is the default of the first field, and the second has none. */
  lemma FieldCalledToIpc(version: string, id: string, python: seq<PC.Item>)
    requires version != "" && id != ""
    requires var def := Two("H", FieldDef("to_ipc", StringT, None), TEXT);
             PC.IsModule(python, DefinitionsOf(FileOf(version, id, def, Plain("O"))))
    ensures var def := Two("H", FieldDef("to_ipc", StringT, None), TEXT);
            Accepted(FileOf(version, id, def, Plain("O"))) && !PC.Works(python)
  {
    var f := FieldDef("to_ipc", StringT, None);
    var file := FileOf(version, id, Two("H", f, TEXT), Plain("O"));
    TwoAreAccepted("H", f, TEXT);
    PlainIsAccepted("O");
    FileIsAccepted(version, id, Two("H", f, TEXT), Plain("O"));
    PL.ModuleWorksExactly(file, RESERVED, python);
    FirstDefinition(file);
    ToIpcFirstIsUnsafe(DefinitionsOf(file));
  }

  /** `IntEnum` has a method of that name. */
  lemma ErrorCalledMro(version: string, id: string, code: u16, python: seq<PC.Item>)
    requires version != "" && id != "" && code > 0
    requires PC.IsModule(python, DefinitionsOf(FileWithError(version, id, ErrorVariant("mro", code))))
    ensures Accepted(FileWithError(version, id, ErrorVariant("mro", code))) && !PC.Works(python)
  {
    var file := FileWithError(version, id, ErrorVariant("mro", code));
    WithErrorIsAccepted(version, id, ErrorVariant("mro", code));
    PL.ModuleWorksExactly(file, RESERVED, python);
    assert file.skills[..0] == [] && AllDefinitions(file.skills[..0], version) == [];
    var ds := DefinitionsOf(file);
    assert ds == SkillDefinitions(file.skills[0], version);
    assert ds[2].errors[0].name == "mro";
    assert !PC.Survives(ds, 2);
  }

  /** A TypeScript class called `arrow` clashes with the import. */
  lemma ClassCalledArrow(version: string, id: string, typescript: seq<TC.Item>)
    requires version != "" && id != ""
    requires TC.IsModule(typescript, DefinitionsOf(FileOf(version, id, Plain("arrow"), Plain("O"))))
    ensures Accepted(FileOf(version, id, Plain("arrow"), Plain("O"))) && !TC.ModuleParses(typescript)
  {
    var file := FileOf(version, id, Plain("arrow"), Plain("O"));
    PlainIsAccepted("arrow");
    PlainIsAccepted("O");
    FileIsAccepted(version, id, Plain("arrow"), Plain("O"));
    TC.ModuleParsesExactly(file, RESERVED, typescript);
    FirstDefinition(file);
    assert DefinedName(DefinitionsOf(file)[0]) in TC.MODULE_NAMES;
  }
}
