/** Generated Rust files: structs, accessors and error enums, and when a whole file is valid Rust. */
module RustContract {
  import opened Wrappers
  import opened Bytes
  import opened Ast
  import opened Literals
  import opened Validate
  import opened Records
  import opened Definitions
  import ErrorEnum
  import RustTypes
  import RS = RustSerialize
  import RE = RustEncoding
  import RD = RustDeserialize
  import RDec = RustDecoding

  /** A struct with its three accessors and the literals that they return, or an error enum. */
  datatype Item =
    | StructItem(def: StructDef, accessors: seq<(string, string)>, writer: RS.Program, reader: RD.Body)
    | EnumItem(name: string, code: ErrorEnum.EnumCode)

  // The generator

  function Accessors(contract: Contract): seq<(string, string)> {
    [("skill_id", Quoted(contract.skillId, Rust)), ("version", Quoted(contract.version, Rust)),
     ("direction", "\"" + contract.direction + "\"")]
  }

  predicate IsItem(item: Item, d: Definition, reached: bool) {
    match d
    case Struct(def, contract) =>
      && item.StructItem? && item.def == def && item.accessors == Accessors(contract)
      && RS.IsProgram(item.writer, def, contract, reached) && RD.IsBody(item.reader, def, contract)
    case Errors(name, errors) => item.EnumItem? && item.name == name && ErrorEnum.EnumOf(item.code, errors)
  }

  predicate IsFile(items: seq<Item>, ds: seq<Definition>, reached: bool) {
    |items| == |ds| && forall i :: 0 <= i < |ds| ==> IsItem(items[i], ds[i], reached)
  }

  /** No emitter panics on the struct. */
  predicate Emits(def: StructDef, reached: bool) {
    forall i :: 0 <= i < |def.fields| ==>
      RS.ColumnSteps(def.fields[i].ty, reached).Some? && RD.FieldBlock(def.fields[i]).Some?
  }

  predicate EmitsAll(ds: seq<Definition>, reached: bool) {
    forall i :: 0 <= i < |ds| ==> ds[i].Struct? ==> Emits(ds[i].def, reached)
  }

  method GenerateStruct(def: StructDef, contract: Contract, reached: bool) returns (item: Option<Item>)
    ensures item.Some? <==> Emits(def, reached)
    ensures item.Some? ==> IsItem(item.value, Struct(def, contract), reached)
  {
    var skillId := EscapeStringLiteralBody(contract.skillId, Rust);
    var version := EscapeStringLiteralBody(contract.version, Rust);
    var accessors := [("skill_id", "\"" + skillId + "\""), ("version", "\"" + version + "\""),
                      ("direction", "\"" + contract.direction + "\"")];
    var writer := RS.GenerateToArrowIpc(def, contract, reached);
    if writer.None? {
      return None;
    }
    var reader := RD.GenerateFromArrowIpc(def, contract);
    if reader.None? {
      return None;
    }
    return Some(StructItem(def, accessors, writer.value, reader.value));
  }

  lemma SkillEmits(skill: SkillDef, version: string, reached: bool)
    ensures EmitsAll(SkillDefinitions(skill, version), reached) <==> Emits(skill.input, reached) && Emits(skill.output, reached)
  {
    var ds := SkillDefinitions(skill, version);
    assert ds[0].Struct? && ds[0].def == skill.input && ds[1].Struct? && ds[1].def == skill.output;
    assert forall i :: 2 <= i < |ds| ==> ds[i].Errors?;
  }

  lemma SkillIsFile(skill: SkillDef, version: string, reached: bool, input: Item, output: Item, rest: seq<Item>)
    requires IsItem(input, Struct(skill.input, Contract(skill.id, version, "input")), reached)
    requires IsItem(output, Struct(skill.output, Contract(skill.id, version, "output")), reached)
    requires |rest| == if skill.errors == [] then 0 else 1
    requires skill.errors != [] ==> IsItem(rest[0], Errors(EnumName(skill), skill.errors), reached)
    ensures IsFile([input, output] + rest, SkillDefinitions(skill, version), reached)
  {
    var items, ds := [input, output] + rest, SkillDefinitions(skill, version);
    forall i | 0 <= i < |ds| ensures IsItem(items[i], ds[i], reached) {
      assert i == 0 || i == 1 || i == 2;
    }
  }

  method GenerateSkill(skill: SkillDef, version: string, reached: bool) returns (items: Option<seq<Item>>)
    ensures items.Some? <==> EmitsAll(SkillDefinitions(skill, version), reached)
    ensures items.Some? ==> IsFile(items.value, SkillDefinitions(skill, version), reached)
  {
    SkillEmits(skill, version, reached);
    var input := GenerateStruct(skill.input, Contract(skill.id, version, "input"), reached);
    if input.None? {
      return None;
    }
    var output := GenerateStruct(skill.output, Contract(skill.id, version, "output"), reached);
    if output.None? {
      return None;
    }
    var rest: seq<Item> := [];
    if skill.errors != [] {
      var code := ErrorEnum.GenerateErrorEnum(skill.errors);
      rest := [EnumItem(EnumName(skill), code)];
    }
    SkillIsFile(skill, version, reached, input.value, output.value, rest);
    return Some([input.value, output.value] + rest);
  }

  /** The whole file, unless the generator panics. */
  method GenerateRust(file: LaicFile, reached: bool) returns (items: Option<seq<Item>>)
    ensures items.Some? <==> EmitsAll(DefinitionsOf(file), reached)
    ensures items.Some? ==> IsFile(items.value, DefinitionsOf(file), reached)
  {
    var emitted: seq<Item> := [];
    for i := 0 to |file.skills|
      invariant EmitsAll(AllDefinitions(file.skills[..i], file.version), reached)
      invariant IsFile(emitted, AllDefinitions(file.skills[..i], file.version), reached)
    {
      var one := GenerateSkill(file.skills[i], file.version, reached);
      DefinitionsSnoc(file.skills, file.version, i);
      if one.None? {
        PanicSpreads(file.skills, file.version, i, reached);
        return None;
      }
      emitted := emitted + one.value;
    }
    assert file.skills[..|file.skills|] == file.skills;
    return Some(emitted);
  }

  lemma {:induction false} PanicSpreads(skills: seq<SkillDef>, version: string, n: nat, reached: bool)
    requires n < |skills| && !EmitsAll(SkillDefinitions(skills[n], version), reached)
    ensures !EmitsAll(AllDefinitions(skills, version), reached)
  {
    var before := AllDefinitions(skills[..|skills| - 1], version);
    var last := SkillDefinitions(skills[|skills| - 1], version);
    var all := AllDefinitions(skills, version);
    if n < |skills| - 1 {
      PanicSpreads(skills[..|skills| - 1], version, n, reached);
      var i :| 0 <= i < |before| && before[i].Struct? && !Emits(before[i].def, reached);
      assert all[i] == before[i];
    } else {
      var i :| 0 <= i < |last| && last[i].Struct? && !Emits(last[i].def, reached);
      assert all[|before| + i] == last[i];
    }
  }

  // Compiling

  /** What the file imports by name or takes from a crate by glob. */
  const IMPORTS: set<string> := {"arrow_array", "arrow_schema", "std", "HashMap", "Arc"}

  /** The names in the enum's accessors. */
  const ENUM_NAMES: set<string> := {"u16", "Option", "str"}

  function ItemName(item: Item): string {
    match item
    case StructItem(def, _, _, _) => def.name
    case EnumItem(name, _) => name
  }

  function ItemNames(items: seq<Item>): set<string> {
    set i | 0 <= i < |items| :: ItemName(items[i])
  }

  predicate ItemCompiles(item: Item, defined: set<string>, constants: set<string>) {
    match item
    case StructItem(def, accessors, writer, reader) =>
      && "str" !in defined && (forall i :: 0 <= i < |accessors| ==> RS.LiteralCompiles(accessors[i].1))
      && RS.ProgramCompiles(writer, defined)
      && |reader.lets| == |def.fields| && RD.Compiles(reader, def, defined, constants)
    case EnumItem(_, code) => ENUM_NAMES !! defined && ErrorEnum.Compiles(code)
  }

  /** A file compiles if its items have names of their own, no import among them, and each compiles with the
      names in place. `constants` are the constants that the glob imports bring. */
  predicate FileCompiles(items: seq<Item>, constants: set<string>) {
    && (forall i, j :: 0 <= i < j < |items| ==> ItemName(items[i]) != ItemName(items[j]))
    && IMPORTS !! ItemNames(items)
    && forall i :: 0 <= i < |items| ==> ItemCompiles(items[i], ItemNames(items), constants)
  }

  predicate DefinitionSafe(d: Definition, defined: set<string>, constants: set<string>) {
    match d
    case Struct(def, contract) =>
      "str" !in defined && RE.WriterSafe(def, contract, defined) && RDec.BodySafe(def, contract, defined, constants)
    case Errors(_, errors) =>
      ENUM_NAMES !! defined && ErrorEnum.CanonicalDistinct(errors) && ErrorEnum.NoneIsSelf(errors)
  }

  /** The same of the definitions: everything here can be read off the contract file. */
  predicate FileSafe(ds: seq<Definition>, constants: set<string>) {
    && DistinctNames(ds) && IMPORTS !! DefinedNames(ds)
    && forall i :: 0 <= i < |ds| ==> DefinitionSafe(ds[i], DefinedNames(ds), constants)
  }

  lemma AccessorsCompile(contract: Contract)
    requires IsDirection(contract.direction)
    ensures (forall i :: 0 <= i < 3 ==> RS.LiteralCompiles(Accessors(contract)[i].1)) <==> RE.CleanContract(contract)
  {
    RE.QuotedCompiles(contract.skillId);
    RE.QuotedCompiles(contract.version);
    RE.DirectionCompiles(contract.direction);
    assert Accessors(contract)[0].1 == Quoted(contract.skillId, Rust) && Accessors(contract)[1].1 == Quoted(contract.version, Rust);
  }

  lemma ItemCompilesExactly(item: Item, d: Definition, reached: bool, words: seq<string>, defined: set<string>,
                            constants: set<string>)
    requires DefinitionOk(d, words) && IsItem(item, d, reached)
    ensures ItemCompiles(item, defined, constants) <==> DefinitionSafe(d, defined, constants)
  {
    match d {
      case Struct(def, contract) =>
        AcceptedStructsAreCompilable(def, words);
        AccessorsCompile(contract);
        RE.WriterCompilesExactly(item.writer, def, contract, reached, defined);
        RDec.CompilesExactly(item.reader, def, contract, defined, constants);
      case Errors(_, errors) =>
        ErrorEnum.EnumAccessors(errors, words, item.code);
    }
  }

  lemma NamesAgree(items: seq<Item>, ds: seq<Definition>, reached: bool)
    requires IsFile(items, ds, reached)
    ensures forall i :: 0 <= i < |ds| ==> ItemName(items[i]) == DefinedName(ds[i])
    ensures ItemNames(items) == DefinedNames(ds)
  {
    forall i | 0 <= i < |ds| ensures ItemName(items[i]) == DefinedName(ds[i]) {
      assert IsItem(items[i], ds[i], reached);
    }
    forall n ensures n in ItemNames(items) <==> n in DefinedNames(ds) {
      if n in ItemNames(items) {
        var i :| 0 <= i < |items| && ItemName(items[i]) == n;
        assert DefinedName(ds[i]) == n;
      }
      if n in DefinedNames(ds) {
        var i :| 0 <= i < |ds| && DefinedName(ds[i]) == n;
        assert ItemName(items[i]) == n;
      }
    }
  }

  /** The file generated from an accepted contract is valid Rust exactly when its definitions are safe. */
  lemma FileCompilesExactly(file: LaicFile, words: seq<string>, items: seq<Item>, reached: bool, constants: set<string>)
    requires AcceptedWith(file, words) && IsFile(items, DefinitionsOf(file), reached)
    ensures FileCompiles(items, constants) <==> FileSafe(DefinitionsOf(file), constants)
  {
    var ds := DefinitionsOf(file);
    AcceptedDefinitions(file, words);
    NamesAgree(items, ds, reached);
    forall i | 0 <= i < |ds| ensures ItemCompiles(items[i], ItemNames(items), constants) <==> DefinitionSafe(ds[i], DefinedNames(ds), constants) {
      ItemCompilesExactly(items[i], ds[i], reached, words, DefinedNames(ds), constants);
    }
  }

  // What the accessors return

  /** The value of the accessor of that name. */
  function Returned(item: Item, name: string): Option<string>
    requires item.StructItem?
  {
    var text :- ErrorEnum.Lookup(item.accessors, name);
    RS.RustLiteral(text)
  }

  /** The accessors return what the struct's serializer announces: the contract it was generated for. */
  lemma AccessorsTell(item: Item, def: StructDef, contract: Contract, reached: bool)
    requires IsItem(item, Struct(def, contract), reached) && IsDirection(contract.direction) && RE.PlainContract(contract)
    ensures Returned(item, "skill_id") == Some(contract.skillId)
    ensures Returned(item, "version") == Some(contract.version)
    ensures Returned(item, "direction") == Some(contract.direction)
    ensures RS.MetadataMap(item.writer.metadata)
            == Some(map["laic.skill_id" := contract.skillId, "laic.version" := contract.version,
                        "laic.direction" := contract.direction])
  {
    RE.QuotedLiteral(contract.skillId);
    RE.QuotedLiteral(contract.version);
    RE.DirectionLiteral(contract.direction);
    ErrorEnum.LookupAt(item.accessors, 0);
    ErrorEnum.LookupAt(item.accessors, 1);
    ErrorEnum.LookupAt(item.accessors, 2);
    RE.MetadataIs(item.writer.metadata[0], item.writer.metadata[1], item.writer.metadata[2]);
    assert item.writer.metadata == [item.writer.metadata[0], item.writer.metadata[1], item.writer.metadata[2]];
  }
}
