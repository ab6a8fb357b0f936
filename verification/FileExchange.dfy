/** Whole contract files, from the validator to the exchange of records between all generated programs. */
module FileExchange {
  import opened Wrappers
  import opened Ast
  import opened Validate
  import opened Arrow
  import opened Records
  import opened PythonValues
  import opened Definitions
  import ErrorEnum
  import RS = RustSerialize
  import RE = RustEncoding
  import RD = RustDeserialize
  import RDec = RustDecoding
  import RC = RustContract
  import PS = PythonSerialize
  import PE = PythonEncoding
  import PD = PythonDeserialize
  import PC = PythonContract
  import PL = PythonLoading
  import TC = TypeScriptContract
  import RT = RoundTrip

  /** No struct of the file needs a name that the file takes. */
  predicate NamesSafe(ds: seq<Definition>) {
    forall i :: 0 <= i < |ds| ==> ds[i].Struct? ==>
      && PE.WriterSafe(ds[i].def, DefinedNames(ds)) && RT.PythonSafe(ds[i].def, DefinedNames(ds))
      && RT.TypeScriptSafe(ds[i].def, DefinedNames(ds))
  }

  // Between Rust and Python

  /** Both generated deserializers return the record. */
  predicate Exchanged(rust: RC.Item, python: PC.Item, rec: Record, stream: Stream, defined: set<string>) {
    && rust.StructItem? && python.DataClass?
    && RD.RunBody(rust.reader, stream) == Ok(rec)
    && PD.RunBody(python.reader, stream, PD.ScopeOf(rust.def, defined)) == Ok(ToPyRecord(rec))
  }

  /** The generated Rust serializer writes, and the stream is exchanged. */
  ghost predicate FromRust(rust: RC.Item, python: PC.Item, rec: Record, order: RS.Order, defined: set<string>) {
    && rust.StructItem? && RS.KeysOnly(order)
    && var stream := RS.RunProgram(rust.writer, rec, order);
    stream.Some? && Exchanged(rust, python, rec, stream.value, defined)
  }

  ghost predicate FromPython(rust: RC.Item, python: PC.Item, rec: Record, order: PS.Order, defined: set<string>) {
    && python.DataClass?
    && var stream := PS.RunProgram(python.writer, ToPyRecord(rec), order, defined);
    stream.Some? && Exchanged(rust, python, rec, stream.value, defined)
  }

  lemma RustIsExchanged(rust: RC.Item, python: PC.Item, def: StructDef, words: seq<string>, contract: Contract, reached: bool,
                        defined: set<string>, constants: set<string>, rec: Record, order: RS.Order)
    requires StructOk(def, words) && IsDirection(contract.direction) && WellTyped(def, rec) && RS.IsOrder(order)
    requires RC.IsItem(rust, Struct(def, contract), reached) && PC.IsItem(python, Struct(def, contract))
    requires RE.WriterSafe(def, contract, defined) && RDec.BodySafe(def, contract, defined, constants) && RT.PythonSafe(def, defined)
    ensures FromRust(rust, python, rec, order, defined)
  {
    RT.RustExchange(def, words, contract, rec, rust.writer, reached, order, rust.reader, python.reader, defined, constants);
    RT.RustReaderCompilesExactly(def, words, contract, rust.reader, defined, constants);
  }

  lemma PythonIsExchanged(rust: RC.Item, python: PC.Item, def: StructDef, words: seq<string>, contract: Contract, reached: bool,
                          defined: set<string>, constants: set<string>, rec: Record, order: PS.Order)
    requires StructOk(def, words) && IsDirection(contract.direction) && WellTyped(def, rec) && PS.IsOrder(order)
    requires RC.IsItem(rust, Struct(def, contract), reached) && PC.IsItem(python, Struct(def, contract))
    requires PE.WriterSafe(def, defined) && RDec.BodySafe(def, contract, defined, constants) && RT.PythonSafe(def, defined)
    ensures FromPython(rust, python, rec, order, defined)
  {
    RT.PythonExchange(def, words, contract, rec, python.writer, order, rust.reader, python.reader, defined, constants);
    RT.RustReaderCompilesExactly(def, words, contract, rust.reader, defined, constants);
  }

  /** In a file whose definitions are safe Rust and Python take the generated code, and every record of every
      struct survives all four ways from serializer to deserializer. */
  lemma SafeFilesExchange(file: LaicFile, words: seq<string>, rust: seq<RC.Item>, reached: bool, constants: set<string>,
                          python: seq<PC.Item>, i: nat, def: StructDef, contract: Contract, rec: Record, order: RS.Order,
                          pyOrder: PS.Order)
    requires i < |DefinitionsOf(file)| && DefinitionsOf(file)[i] == Struct(def, contract) && WellTyped(def, rec)
    requires AcceptedWith(file, words) && RS.IsOrder(order) && PS.IsOrder(pyOrder)
    requires RC.IsFile(rust, DefinitionsOf(file), reached) && PC.IsModule(python, DefinitionsOf(file))
    requires RC.FileSafe(DefinitionsOf(file), constants) && PC.ModuleSafe(DefinitionsOf(file)) && NamesSafe(DefinitionsOf(file))
    ensures RC.FileCompiles(rust, constants) && PC.Works(python)
    ensures FromRust(rust[i], python[i], rec, order, DefinedNames(DefinitionsOf(file)))
    ensures FromPython(rust[i], python[i], rec, pyOrder, DefinedNames(DefinitionsOf(file)))
  {
    var ds := DefinitionsOf(file);
    RC.FileCompilesExactly(file, words, rust, reached, constants);
    PL.ModuleWorksExactly(file, words, python);
    AcceptedDefinitions(file, words);
    assert DefinitionOk(ds[i], words) && RC.DefinitionSafe(ds[i], DefinedNames(ds), constants);
    RustIsExchanged(rust[i], python[i], def, words, contract, reached, DefinedNames(ds), constants, rec, order);
    PythonIsExchanged(rust[i], python[i], def, words, contract, reached, DefinedNames(ds), constants, rec, pyOrder);
  }

  // To TypeScript

  /** Both generated serializers write, and what they write the class receives. */
  ghost predicate Reaches(rust: RC.Item, python: PC.Item, typescript: TC.Item, rec: Record, order: RS.Order, pyOrder: PS.Order,
                          defined: set<string>)
  {
    && rust.StructItem? && python.DataClass? && typescript.ClassItem? && RS.KeysOnly(order)
    && var fromRust := RS.RunProgram(rust.writer, rec, order);
    var fromPython := PS.RunProgram(python.writer, ToPyRecord(rec), pyOrder, defined);
    && fromRust.Some? && RT.Received(rust.def, rec, fromRust.value, typescript.body, defined)
    && fromPython.Some? && RT.Received(rust.def, rec, fromPython.value, typescript.body, defined)
  }

  lemma StructReaches(rust: RC.Item, python: PC.Item, typescript: TC.Item, def: StructDef, words: seq<string>, contract: Contract,
                      reached: bool, defined: set<string>, rec: Record, order: RS.Order, pyOrder: PS.Order)
    requires StructOk(def, words) && IsDirection(contract.direction) && WellTyped(def, rec)
    requires RS.IsOrder(order) && PS.IsOrder(pyOrder)
    requires RC.IsItem(rust, Struct(def, contract), reached) && PC.IsItem(python, Struct(def, contract))
    requires TC.IsItem(typescript, Struct(def, contract))
    requires RE.PlainContract(contract) && PE.WriterSafe(def, defined) && RT.TypeScriptSafe(def, defined)
    ensures Reaches(rust, python, typescript, rec, order, pyOrder, defined)
  {
    AcceptedStructsAreCompilable(def, words);
    RE.ProgramEncodes(rust.writer, def, contract, reached, rec, order);
    RT.TypeScriptReceives(def, words, contract, rec, RS.RunProgram(rust.writer, rec, order).value, typescript.body, defined);
    PE.ProgramEncodes(python.writer, def, contract, rec, pyOrder, defined);
    var fromPython := PS.RunProgram(python.writer, ToPyRecord(rec), pyOrder, defined);
    RT.TypeScriptReceives(def, words, contract, rec, fromPython.value, typescript.body, defined);
  }

  /** In such a file the TypeScript module parses as well, and its classes receive what is written. */
  lemma SafeFilesReachTypeScript(file: LaicFile, words: seq<string>, rust: seq<RC.Item>, reached: bool, constants: set<string>,
                                 python: seq<PC.Item>, typescript: seq<TC.Item>, i: nat, def: StructDef, contract: Contract,
                                 rec: Record, order: RS.Order, pyOrder: PS.Order)
    requires i < |DefinitionsOf(file)| && DefinitionsOf(file)[i] == Struct(def, contract) && WellTyped(def, rec)
    requires AcceptedWith(file, words) && RS.IsOrder(order) && PS.IsOrder(pyOrder)
    requires RC.IsFile(rust, DefinitionsOf(file), reached) && PC.IsModule(python, DefinitionsOf(file))
    requires TC.IsModule(typescript, DefinitionsOf(file))
    requires RC.FileSafe(DefinitionsOf(file), constants) && TC.ModuleSafe(DefinitionsOf(file)) && NamesSafe(DefinitionsOf(file))
    ensures TC.ModuleParses(typescript)
    ensures Reaches(rust[i], python[i], typescript[i], rec, order, pyOrder, DefinedNames(DefinitionsOf(file)))
  {
    var ds := DefinitionsOf(file);
    TC.ModuleParsesExactly(file, words, typescript);
    AcceptedDefinitions(file, words);
    assert DefinitionOk(ds[i], words) && RC.DefinitionSafe(ds[i], DefinedNames(ds), constants);
    StructReaches(rust[i], python[i], typescript[i], def, words, contract, reached, DefinedNames(ds), rec, order, pyOrder);
  }

  // What the generated code says of itself

  /** All three languages' constants of a struct give its contract. */
  predicate Told(rust: RC.Item, c: PC.Class, typescript: TC.Item, contract: Contract) {
    && rust.StructItem? && typescript.ClassItem?
    && RC.Returned(rust, "skill_id") == Some(contract.skillId)
    && RC.Returned(rust, "version") == Some(contract.version)
    && RC.Returned(rust, "direction") == Some(contract.direction)
    && PL.ValueOf(c, "SKILL_ID") == Some(PyLeaf(Str(contract.skillId)))
    && PL.ValueOf(c, "VERSION") == Some(PyLeaf(Str(contract.version)))
    && PL.ValueOf(c, "DIRECTION") == Some(PyLeaf(Str(contract.direction)))
    && TC.StaticValue(typescript, "SKILL_ID") == Some(contract.skillId)
    && TC.StaticValue(typescript, "VERSION") == Some(contract.version)
    && TC.StaticValue(typescript, "DIRECTION") == Some(contract.direction)
  }

  /** The struct at a place of the file, where its Python class is what its name refers to. */
  predicate ToldAt(rust: seq<RC.Item>, classes: map<string, PC.Class>, typescript: seq<TC.Item>, i: nat, name: string,
                   contract: Contract)
  {
    && i < |rust| && i < |typescript| && RC.ItemName(rust[i]) == typescript[i].name == name && name in classes
    && Told(rust[i], classes[name], typescript[i], contract)
  }

  lemma CompiledIsPlain(file: LaicFile, words: seq<string>, rust: seq<RC.Item>, reached: bool, constants: set<string>, i: nat)
    requires i < |DefinitionsOf(file)| && DefinitionsOf(file)[i].Struct?
    requires AcceptedWith(file, words) && RC.IsFile(rust, DefinitionsOf(file), reached) && RC.FileCompiles(rust, constants)
    ensures RE.PlainContract(DefinitionsOf(file)[i].contract)
  {
    RC.FileCompilesExactly(file, words, rust, reached, constants);
    assert RC.DefinitionSafe(DefinitionsOf(file)[i], DefinedNames(DefinitionsOf(file)), constants);
  }

  lemma StructIsTold(file: LaicFile, words: seq<string>, rust: seq<RC.Item>, reached: bool, constants: set<string>,
                     python: seq<PC.Item>, typescript: seq<TC.Item>, i: nat, def: StructDef, contract: Contract)
    requires i < |DefinitionsOf(file)| && DefinitionsOf(file)[i] == Struct(def, contract)
    requires AcceptedWith(file, words) && RC.FileCompiles(rust, constants) && PC.Works(python)
    requires RC.IsFile(rust, DefinitionsOf(file), reached) && PC.IsModule(python, DefinitionsOf(file))
    requires TC.IsModule(typescript, DefinitionsOf(file))
    ensures ToldAt(rust, PC.Load(python, |python|).value, typescript, i, def.name, contract)
  {
    var d := DefinitionsOf(file)[i];
    AcceptedDefinitions(file, words);
    CompiledIsPlain(file, words, rust, reached, constants, i);
    assert DefinitionOk(d, words) && RC.IsItem(rust[i], d, reached) && TC.IsItem(typescript[i], d);
    RC.AccessorsTell(rust[i], def, contract, reached);
    PL.ClassesTell(file, words, python, i, def, contract);
    TC.StaticsTell(typescript[i], def, contract);
  }

  /** Input or output of the skill. */
  function SideOf(file: LaicFile, n: nat, output: bool): (nat, StructDef, Contract)
    requires n < |file.skills|
  {
    var at, skill := Offset(file.skills, n), file.skills[n];
    if output then (at + 1, skill.output, Contract(skill.id, file.version, "output"))
    else (at, skill.input, Contract(skill.id, file.version, "input"))
  }

  lemma SideIsDefined(file: LaicFile, n: nat, output: bool)
    requires n < |file.skills|
    ensures var (i, def, contract) := SideOf(file, n, output);
            i < |DefinitionsOf(file)| && DefinitionsOf(file)[i] == Struct(def, contract)
  {
    SkillsAreDefined(file, n);
  }

  /** In a file that compiles and loads, the input and the output of every skill give the skill's id, the file's
      version and their own direction, in all three languages. */
  lemma SkillsAreTold(file: LaicFile, words: seq<string>, rust: seq<RC.Item>, reached: bool, constants: set<string>,
                      python: seq<PC.Item>, typescript: seq<TC.Item>, n: nat, output: bool)
    requires n < |file.skills| && AcceptedWith(file, words)
    requires RC.IsFile(rust, DefinitionsOf(file), reached) && PC.IsModule(python, DefinitionsOf(file))
    requires TC.IsModule(typescript, DefinitionsOf(file)) && RC.FileCompiles(rust, constants) && PC.Works(python)
    ensures var (i, def, contract) := SideOf(file, n, output);
            ToldAt(rust, PC.Load(python, |python|).value, typescript, i, def.name, contract)
  {
    SideIsDefined(file, n, output);
    var (i, def, contract) := SideOf(file, n, output);
    StructIsTold(file, words, rust, reached, constants, python, typescript, i, def, contract);
  }

  /** Name and code of an error belong together in all three languages. */
  ghost predicate ErrorTold(rust: RC.Item, python: PC.Item, typescript: TC.Item, e: ErrorVariant) {
    && rust.EnumItem? && python.EnumClass? && typescript.EnumItem?
    && (exists v :: ErrorEnum.Lookup(rust.code.fromCode, e.code) == Some(v) && ErrorEnum.Lookup(rust.code.variants, v) == Some(e.code)
                    && ErrorEnum.Lookup(rust.code.names, v) == Some(e.name))
    && ErrorEnum.Lookup(python.members, e.name) == Some(e.code)
    && ErrorEnum.Lookup(typescript.members, e.name) == Some(e.code)
  }

  lemma ErrorsAreTold(rust: RC.Item, reached: bool, python: PC.Item, typescript: TC.Item, name: string, errors: seq<ErrorVariant>,
                      words: seq<string>, i: nat)
    requires i < |errors| && ErrorsOk(errors, words)
    requires RC.IsItem(rust, Errors(name, errors), reached) && ErrorEnum.Compiles(rust.code)
    requires PC.IsItem(python, Errors(name, errors)) && TC.IsItem(typescript, Errors(name, errors))
    ensures RC.ItemName(rust) == python.name == typescript.name == name
    ensures ErrorTold(rust, python, typescript, errors[i])
  {
    ErrorEnum.EnumAccessors(errors, words, rust.code);
    ErrorEnum.LookupAt(python.members, i);
    ErrorEnum.LookupAt(typescript.members, i);
    var v := rust.code.variants[i].0;
    assert ErrorEnum.Lookup(rust.code.fromCode, errors[i].code) == Some(v);
  }

  // From file to code

  /** The validator and the three generators on one file; the Rust generator may panic. */
  method Compile(file: LaicFile, reached: bool)
    returns (r: Result<(Option<seq<RC.Item>>, seq<PC.Item>, seq<TC.Item>), ValidationError>)
    ensures r.Ok? <==> Accepted(file)
    ensures r.Err? ==> Blamed(file, r.error, RESERVED)
    ensures r.Ok? ==>
              && (r.value.0.Some? <==> RC.EmitsAll(DefinitionsOf(file), reached))
              && (r.value.0.Some? ==> RC.IsFile(r.value.0.value, DefinitionsOf(file), reached))
              && PC.IsModule(r.value.1, DefinitionsOf(file)) && TC.IsModule(r.value.2, DefinitionsOf(file))
  {
    var verdict := Validate.Validate(file);
    if verdict.Err? {
      return Err(verdict.error);
    }
    var rust := RC.GenerateRust(file, reached);
    var python := PC.GeneratePython(file);
    var typescript := TC.GenerateTypeScript(file);
    return Ok((rust, python, typescript));
  }
}
