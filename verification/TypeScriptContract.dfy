/** Generated TypeScript modules: helpers, classes and error enums, and when a whole module parses. */
module TypeScriptContract {
  import opened Wrappers
  import opened Bytes
  import opened Ast
  import opened Literals
  import opened Validate
  import opened Records
  import opened Definitions
  import TS = TypeScriptDeserialize
  import TL = TypeScriptLocals
  import TB = TypeScriptBodies
  import ErrorEnum

  /** A class with its static constants and the body of `fromIpc`, or an enum. */
  datatype Item =
    | ClassItem(name: string, statics: seq<(string, string)>, body: TS.Body)
    | EnumItem(name: string, members: seq<(string, u16)>)

  // The generator

  function Statics(contract: Contract): seq<(string, string)> {
    [("SKILL_ID", Quoted(contract.skillId, PythonLike)), ("VERSION", Quoted(contract.version, PythonLike)),
     ("DIRECTION", "\"" + contract.direction + "\"")]
  }

  predicate IsItem(item: Item, d: Definition) {
    match d
    case Struct(def, contract) =>
      item.ClassItem? && item.name == def.name && item.statics == Statics(contract) && TS.IsBody(item.body, def, contract)
    case Errors(name, errors) =>
      && item.EnumItem? && item.name == name && |item.members| == |errors|
      && forall i :: 0 <= i < |errors| ==> item.members[i] == (errors[i].name, errors[i].code)
  }

  predicate IsModule(items: seq<Item>, ds: seq<Definition>) {
    |items| == |ds| && forall i :: 0 <= i < |ds| ==> IsItem(items[i], ds[i])
  }

  method GenerateClass(def: StructDef, contract: Contract) returns (item: Item)
    ensures IsItem(item, Struct(def, contract))
  {
    var skillId := EscapeStringLiteralBody(contract.skillId, PythonLike);
    var version := EscapeStringLiteralBody(contract.version, PythonLike);
    var statics := [("SKILL_ID", "\"" + skillId + "\""), ("VERSION", "\"" + version + "\""),
                    ("DIRECTION", "\"" + contract.direction + "\"")];
    var body := TS.GenerateFromIpc(def, contract);
    return ClassItem(def.name, statics, body);
  }

  method GenerateErrorEnum(name: string, errors: seq<ErrorVariant>) returns (item: Item)
    ensures IsItem(item, Errors(name, errors))
  {
    var members: seq<(string, u16)> := [];
    for i := 0 to |errors|
      invariant |members| == i
      invariant forall k :: 0 <= k < i ==> members[k] == (errors[k].name, errors[k].code)
    {
      members := members + [(errors[i].name, errors[i].code)];
    }
    return EnumItem(name, members);
  }

  method GenerateSkill(skill: SkillDef, version: string) returns (items: seq<Item>)
    ensures IsModule(items, SkillDefinitions(skill, version))
  {
    var input := GenerateClass(skill.input, Contract(skill.id, version, "input"));
    var output := GenerateClass(skill.output, Contract(skill.id, version, "output"));
    items := [input, output];
    if skill.errors != [] {
      var enumItem := GenerateErrorEnum(EnumName(skill), skill.errors);
      items := items + [enumItem];
    }
  }

  method GenerateTypeScript(file: LaicFile) returns (items: seq<Item>)
    ensures IsModule(items, DefinitionsOf(file))
  {
    items := [];
    for i := 0 to |file.skills|
      invariant IsModule(items, AllDefinitions(file.skills[..i], file.version))
    {
      var one := GenerateSkill(file.skills[i], file.version);
      DefinitionsSnoc(file.skills, file.version, i);
      items := items + one;
    }
    assert file.skills[..|file.skills|] == file.skills;
  }

  // Parsing the module

  /** The import and the helper functions at the top of the module. */
  const MODULE_NAMES: set<string> :=
    {"arrow", "laicSchemaMetadata", "laicFieldMetadata", "laicAssertMetadata", "laicAssertFieldType",
     "laicParseTensorShape", "laicAssertTensorMetadata"}

  predicate Disjoint(a: seq<(string, u16)>, b: seq<(string, u16)>) {
    forall i, j :: 0 <= i < |a| && 0 <= j < |b| ==> a[i].0 != b[j].0
  }

  /** A module declares a name once, except that enums of one name merge if they share no member. */
  predicate Together(a: Item, b: Item) {
    a.name == b.name ==> a.EnumItem? && b.EnumItem? && Disjoint(a.members, b.members)
  }

  predicate ModuleParses(items: seq<Item>) {
    && (forall i, j :: 0 <= i < j < |items| ==> Together(items[i], items[j]))
    && forall i :: 0 <= i < |items| ==>
         items[i].name !in MODULE_NAMES && (items[i].ClassItem? ==> TS.Parses(items[i].body))
  }

  predicate Coexist(a: Definition, b: Definition) {
    DefinedName(a) == DefinedName(b) ==>
      && a.Errors? && b.Errors?
      && forall i, j :: 0 <= i < |a.errors| && 0 <= j < |b.errors| ==> a.errors[i].name != b.errors[j].name
  }

  predicate ClassSafe(def: StructDef) {
    !TB.Clash(def.fields) && forall i :: 0 <= i < |def.fields| ==> TS.DefaultParses(def.fields[i].default)
  }

  predicate ModuleSafe(ds: seq<Definition>) {
    && (forall i, j :: 0 <= i < j < |ds| ==> Coexist(ds[i], ds[j]))
    && forall i :: 0 <= i < |ds| ==>
         DefinedName(ds[i]) !in MODULE_NAMES && (ds[i].Struct? ==> ClassSafe(ds[i].def))
  }

  lemma BodyParsesExactly(body: TS.Body, def: StructDef, contract: Contract)
    requires TS.IsBody(body, def, contract) && DistinctFields(def.fields)
    ensures TS.Parses(body) <==> ClassSafe(def)
  {
    TB.BodyParses(body, def, contract);
    TB.ClashesExactly(def);
  }

  lemma TogetherExactly(a: Item, b: Item, d: Definition, e: Definition)
    requires IsItem(a, d) && IsItem(b, e)
    ensures Together(a, b) <==> Coexist(d, e)
  {
    if d.Errors? && e.Errors? {
      assert forall i :: 0 <= i < |a.members| ==> a.members[i].0 == d.errors[i].name;
      assert forall j :: 0 <= j < |b.members| ==> b.members[j].0 == e.errors[j].name;
    }
  }

  /** The module generated from an accepted contract parses exactly when its definitions are safe. */
  lemma ModuleParsesExactly(file: LaicFile, words: seq<string>, items: seq<Item>)
    requires AcceptedWith(file, words) && IsModule(items, DefinitionsOf(file))
    ensures ModuleParses(items) <==> ModuleSafe(DefinitionsOf(file))
  {
    var ds := DefinitionsOf(file);
    AcceptedDefinitions(file, words);
    forall i | 0 <= i < |ds|
      ensures items[i].name == DefinedName(ds[i]) && (items[i].ClassItem? <==> ds[i].Struct?)
      ensures ds[i].Struct? ==> (TS.Parses(items[i].body) <==> ClassSafe(ds[i].def))
    {
      assert IsItem(items[i], ds[i]) && DefinitionOk(ds[i], words);
      if ds[i].Struct? {
        AcceptedStructsAreCompilable(ds[i].def, words);
        BodyParsesExactly(items[i].body, ds[i].def, ds[i].contract);
      }
    }
    forall i, j | 0 <= i < j < |ds| ensures Together(items[i], items[j]) <==> Coexist(ds[i], ds[j]) {
      TogetherExactly(items[i], items[j], ds[i], ds[j]);
    }
  }

  // What classes say

  function StaticValue(item: Item, name: string): Option<string>
    requires item.ClassItem?
  {
    var text :- ErrorEnum.Lookup(item.statics, name);
    TS.JsLiteral(text)
  }

  /** The static constants say what the class was generated for. */
  lemma StaticsTell(item: Item, def: StructDef, contract: Contract)
    requires IsItem(item, Struct(def, contract)) && IsDirection(contract.direction)
    ensures StaticValue(item, "SKILL_ID") == Some(contract.skillId)
    ensures StaticValue(item, "VERSION") == Some(contract.version)
    ensures StaticValue(item, "DIRECTION") == Some(contract.direction)
  {
    TB.LiteralReads(contract.skillId);
    TB.LiteralReads(contract.version);
    TB.LiteralReads(contract.direction);
    TB.DirectionReads(contract.direction);
    ErrorEnum.LookupAt(item.statics, 0);
    ErrorEnum.LookupAt(item.statics, 1);
    ErrorEnum.LookupAt(item.statics, 2);
  }

  /** The constructor has one parameter for each field, in order, whose default stands for the field's. */
  lemma ParametersTell(item: Item, def: StructDef, contract: Contract, i: nat)
    requires IsItem(item, Struct(def, contract)) && i < |def.fields|
    ensures |item.body.params| == |def.fields| && item.body.params[i].0 == def.fields[i].name
    ensures item.body.params[i].1.Some? <==> def.fields[i].default.Some?
    ensures def.fields[i].default.Some? && DefaultValue(def.fields[i].ty, def.fields[i].default.value).Some? ==>
              var c := TS.ConstOf(item.body.params[i].1.value);
              c.Some? && TB.Stands(c.value, def.fields[i].ty, DefaultValue(def.fields[i].ty, def.fields[i].default.value).value)
  {
    if def.fields[i].default.Some? {
      TL.DefaultIsRead(def.fields[i].default.value, def.fields[i].ty);
    }
  }
}
