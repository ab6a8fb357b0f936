/** Generated Python modules: dataclasses and error enums, and when executing a whole module leaves every
    class in working order under its own name. */
module PythonContract {
  import opened Wrappers
  import opened Bytes
  import opened Ast
  import opened Literals
  import opened Records
  import opened Definitions
  import PS = PythonSerialize
  import PD = PythonDeserialize
  import PDec = PythonDecoding

  /** A parameter of a dataclass's constructor, with its default. */
  type Parameter = (string, Option<PD.PyLiteral>)

  /** `constants` are the values of `SKILL_ID`, `VERSION` and `DIRECTION`. */
  datatype Item =
    | DataClass(name: string, constants: seq<PD.PyLiteral>, params: seq<Parameter>, writer: PS.Program, reader: PD.Body)
    | EnumClass(name: string, members: seq<(string, u16)>)

  // The generator

  function Required(fields: seq<FieldDef>): seq<Parameter> {
    if fields == [] then []
    else
      var last := fields[|fields| - 1];
      Required(fields[..|fields| - 1]) + if last.default.None? then [(last.name, None)] else []
  }

  function Defaulted(fields: seq<FieldDef>): seq<Parameter> {
    if fields == [] then []
    else
      var last := fields[|fields| - 1];
      Defaulted(fields[..|fields| - 1])
      + match last.default case Some(lit) => [(last.name, Some(PD.LiteralToPython(lit)))] case None => []
  }

  function Constants(contract: Contract): seq<PD.PyLiteral> {
    [PD.StringCode(Quoted(contract.skillId, PythonLike)), PD.StringCode(Quoted(contract.version, PythonLike)),
     PD.StringCode("\"" + contract.direction + "\"")]
  }

  predicate IsItem(item: Item, d: Definition) {
    match d
    case Struct(def, contract) =>
      && item.DataClass? && item.name == def.name && item.constants == Constants(contract)
      && item.params == Required(def.fields) + Defaulted(def.fields)
      && PS.IsProgram(item.writer, def, contract) && PD.IsBody(item.reader, def, contract)
    case Errors(name, errors) =>
      && item.EnumClass? && item.name == name && |item.members| == |errors|
      && forall i :: 0 <= i < |errors| ==> item.members[i] == (errors[i].name, errors[i].code)
  }

  predicate IsModule(items: seq<Item>, ds: seq<Definition>) {
    |items| == |ds| && forall i :: 0 <= i < |ds| ==> IsItem(items[i], ds[i])
  }

  /** Fields with defaults are moved behind the others. */
  method EmitParameters(fields: seq<FieldDef>) returns (params: seq<Parameter>)
    ensures params == Required(fields) + Defaulted(fields)
  {
    var required: seq<Parameter>, defaulted: seq<Parameter> := [], [];
    for i := 0 to |fields|
      invariant required == Required(fields[..i]) && defaulted == Defaulted(fields[..i])
    {
      assert fields[..i + 1][..i] == fields[..i];
      match fields[i].default {
        case None => required := required + [(fields[i].name, None)];
        case Some(lit) => defaulted := defaulted + [(fields[i].name, Some(PD.LiteralToPython(lit)))];
      }
    }
    assert fields[..|fields|] == fields;
    params := required + defaulted;
  }

  method GenerateDataclass(def: StructDef, contract: Contract) returns (item: Item)
    ensures IsItem(item, Struct(def, contract))
  {
    var skillId := EscapeStringLiteralBody(contract.skillId, PythonLike);
    var version := EscapeStringLiteralBody(contract.version, PythonLike);
    var constants := [PD.StringCode("\"" + skillId + "\""), PD.StringCode("\"" + version + "\""),
                      PD.StringCode("\"" + contract.direction + "\"")];
    var params := EmitParameters(def.fields);
    var writer := PS.GenerateToIpc(def, contract);
    var reader := PD.GenerateFromIpc(def, contract);
    return DataClass(def.name, constants, params, writer, reader);
  }

  method GenerateErrorEnum(name: string, errors: seq<ErrorVariant>) returns (item: Item)
    ensures IsItem(item, Errors(name, errors))
  {
    var members: seq<(string, u16)> := [];
    for i := 0 to |errors|
      invariant |members| == i
      invariant forall k :: 0 <= k < i ==> members[k] == (errors[k].name, errors[k].code)
    {
      members := members + [(errors[i].name, errors[i].code)];
    }
    return EnumClass(name, members);
  }

  lemma OneIsModule(item: Item, d: Definition)
    requires IsItem(item, d)
    ensures IsModule([item], [d])
  {
  }

  lemma SkillIsModule(skill: SkillDef, version: string, input: Item, output: Item, rest: seq<Item>)
    requires IsItem(input, Struct(skill.input, Contract(skill.id, version, "input")))
    requires IsItem(output, Struct(skill.output, Contract(skill.id, version, "output")))
    requires |rest| == if skill.errors == [] then 0 else 1
    requires skill.errors != [] ==> IsItem(rest[0], Errors(EnumName(skill), skill.errors))
    ensures IsModule([input, output] + rest, SkillDefinitions(skill, version))
  {
    var a := Struct(skill.input, Contract(skill.id, version, "input"));
    var b := Struct(skill.output, Contract(skill.id, version, "output"));
    OneIsModule(input, a);
    OneIsModule(output, b);
    ModuleAppends([input], [a], [output], [b]);
    assert [input] + [output] == [input, output] && [a] + [b] == [a, b];
    if skill.errors != [] {
      var c := Errors(EnumName(skill), skill.errors);
      OneIsModule(rest[0], c);
      assert rest == [rest[0]];
      ModuleAppends([input, output], [a, b], [rest[0]], [c]);
    } else {
      assert [input, output] + rest == [input, output] && [a, b] + [] == [a, b];
    }
  }

  method GenerateSkill(skill: SkillDef, version: string) returns (items: seq<Item>)
    ensures IsModule(items, SkillDefinitions(skill, version))
  {
    var input := GenerateDataclass(skill.input, Contract(skill.id, version, "input"));
    var output := GenerateDataclass(skill.output, Contract(skill.id, version, "output"));
    var rest: seq<Item> := [];
    if skill.errors != [] {
      var enumClass := GenerateErrorEnum(EnumName(skill), skill.errors);
      rest := [enumClass];
    }
    SkillIsModule(skill, version, input, output, rest);
    items := [input, output] + rest;
  }

  lemma ModuleAppends(items: seq<Item>, ds: seq<Definition>, more: seq<Item>, others: seq<Definition>)
    requires IsModule(items, ds) && IsModule(more, others)
    ensures IsModule(items + more, ds + others)
  {
  }

  method GeneratePython(file: LaicFile) returns (items: seq<Item>)
    ensures IsModule(items, DefinitionsOf(file))
  {
    items := [];
    for i := 0 to |file.skills|
      invariant IsModule(items, AllDefinitions(file.skills[..i], file.version))
    {
      var one := GenerateSkill(file.skills[i], file.version);
      DefinitionsSnoc(file.skills, file.version, i);
      ModuleAppends(items, AllDefinitions(file.skills[..i], file.version), one, SkillDefinitions(file.skills[i], file.version));
      items := items + one;
    }
    assert file.skills[..|file.skills|] == file.skills;
  }

  // Executing the module

  predicate ParameterParses(p: Parameter) {
    p.1.Some? ==> PD.LiteralValue(p.1.value).Ok?
  }

  predicate Parses(items: seq<Item>) {
    forall i, k :: 0 <= i < |items| && items[i].DataClass? && 0 <= k < |items[i].params| ==> ParameterParses(items[i].params[k])
  }

  const CONSTANTS: seq<string> := ["SKILL_ID", "VERSION", "DIRECTION"]

  /** What a name is bound to in a class. `from_ipc` is a class method unless something else than the builtin
      decorates it; then it is an instance of that something. */
  datatype Attribute = Value(code: PD.PyLiteral) | Function | ClassMethod | Instance

  /** The class body as far as its methods: the constants, then the fields that have defaults. */
  function Bound(constants: seq<PD.PyLiteral>, params: seq<Parameter>): map<string, Attribute>
    requires |constants| == 3
  {
    if params == [] then
      map[CONSTANTS[0] := Value(constants[0]), CONSTANTS[1] := Value(constants[1]), CONSTANTS[2] := Value(constants[2])]
    else
      var (name, default) := params[|params| - 1];
      var before := Bound(constants, params[..|params| - 1]);
      if default.Some? then before[name := Value(default.value)] else before
  }

  /** The fields that `dataclass` finds, with whether they have a default, and the attributes. */
  datatype Class =
    | Enumeration(index: nat)
    | Structure(index: nat, attributes: map<string, Attribute>, fields: seq<(string, bool)>)

  /** A call with a single positional argument succeeds. */
  predicate TakesOne(c: Class) {
    c.Structure? && c.fields != [] && forall i :: 1 <= i < |c.fields| ==> c.fields[i].1
  }

  /** The whole class body. A decorator is looked up in the body first, then among the classes of the module;
      a literal cannot be called. */
  function Body(constants: seq<PD.PyLiteral>, params: seq<Parameter>, classes: map<string, Class>): Option<map<string, Attribute>>
    requires |constants| == 3
  {
    var attributes := Bound(constants, params)["to_ipc" := Function];
    if "classmethod" in attributes then None
    else if "classmethod" !in classes then Some(attributes["from_ipc" := ClassMethod])
    else if TakesOne(classes["classmethod"]) then Some(attributes["from_ipc" := Instance])
    else None
  }

  /** `dataclass` takes what the class has under a field's name for its default; every class has `mro`. */
  predicate HasDefault(name: string, attributes: map<string, Attribute>) {
    name in attributes || name == "mro"
  }

  /** The constants stand first; they are fields where a field re-annotates them, or without the real `ClassVar`. */
  function ConstantFields(params: seq<Parameter>, taken: bool, from: nat): seq<(string, bool)>
    requires from <= 3
    decreases 3 - from
  {
    if from == 3 then []
    else
      (if taken || exists i :: 0 <= i < |params| && params[i].0 == CONSTANTS[from] then [(CONSTANTS[from], true)] else [])
      + ConstantFields(params, taken, from + 1)
  }

  function OwnFields(params: seq<Parameter>, attributes: map<string, Attribute>): seq<(string, bool)> {
    if params == [] then []
    else
      var name := params[|params| - 1].0;
      OwnFields(params[..|params| - 1], attributes)
      + if name in CONSTANTS then [] else [(name, HasDefault(name, attributes))]
  }

  function ClassFields(params: seq<Parameter>, attributes: map<string, Attribute>, taken: bool): seq<(string, bool)> {
    ConstantFields(params, taken, 0) + OwnFields(params, attributes)
  }

  /** `dataclass` refuses a field without default behind one with a default. */
  predicate OrderOk(fields: seq<(string, bool)>) {
    forall i, j :: 0 <= i < j < |fields| ==> fields[i].1 ==> fields[j].1
  }

  /** One class statement; `None` if it raises. A class that an earlier statement defined is found in place
      of an import or a builtin of its name. `IntEnum` refuses a member called `mro`. */
  function Define(items: seq<Item>, k: nat, classes: map<string, Class>): Option<map<string, Class>>
    requires k < |items| && (items[k].DataClass? ==> |items[k].constants| == 3)
  {
    match items[k]
    case EnumClass(name, members) =>
      if "enum" in classes || exists i :: 0 <= i < |members| && members[i].0 == "mro" then None
      else Some(classes[name := Enumeration(k)])
    case DataClass(name, constants, params, _, _) =>
      if "dataclasses" in classes then None
      else
        var attributes :- Body(constants, params, classes);
        var fields := ClassFields(params, attributes, "ClassVar" in classes);
        if OrderOk(fields) then Some(classes[name := Structure(k, attributes, fields)]) else None
  }

  predicate HaveConstants(items: seq<Item>) {
    forall i :: 0 <= i < |items| && items[i].DataClass? ==> |items[i].constants| == 3
  }

  /** Executes the first class statements in order; the result is what the names of classes refer to. */
  function Load(items: seq<Item>, count: nat): Option<map<string, Class>>
    requires count <= |items| && HaveConstants(items)
  {
    if count == 0 then Some(map[])
    else
      var before :- Load(items, count - 1);
      Define(items, count - 1, before)
  }

  /** The constants keep their values, `from_ipc` can be called on the class, and `to_ipc` on its instances,
      where a field of that name would hide it. */
  predicate Usable(c: Class, item: Item)
    requires item.DataClass? ==> |item.constants| == 3
  {
    item.DataClass? ==>
      && c.Structure?
      && (forall i :: 0 <= i < 3 ==>
            CONSTANTS[i] in c.attributes && c.attributes[CONSTANTS[i]].Value?
            && PD.LiteralValue(c.attributes[CONSTANTS[i]].code) == PD.LiteralValue(item.constants[i]))
      && "from_ipc" in c.attributes && c.attributes["from_ipc"] == ClassMethod
      && "to_ipc" in c.attributes && c.attributes["to_ipc"] == Function
      && forall e <- c.fields :: e.0 != "to_ipc"
  }

  /** Every class is what its name refers to, and usable. */
  predicate InPlace(items: seq<Item>, classes: map<string, Class>)
    requires HaveConstants(items)
  {
    forall i :: 0 <= i < |items| ==>
      items[i].name in classes && classes[items[i].name].index == i && Usable(classes[items[i].name], items[i])
  }

  /** The module can be imported, and everything in it works. */
  predicate Works(items: seq<Item>) {
    && HaveConstants(items) && Parses(items)
    && Load(items, |items|).Some? && InPlace(items, Load(items, |items|).value)
  }

  // What the definitions must be like

  predicate DefinesBefore(ds: seq<Definition>, j: nat, name: string)
    requires j <= |ds|
  {
    exists i :: 0 <= i < j && DefinedName(ds[i]) == name
  }

  predicate ParsesAt(d: Definition) {
    d.Struct? ==> forall i :: 0 <= i < |d.def.fields| ==> PDec.DefaultParses(d.def.fields[i])
  }

  /** Attributes that a class has apart from its constants and the fields with defaults. */
  predicate IsInherited(name: string) {
    name == "to_ipc" || name == "from_ipc" || name == "mro"
  }

  /** A field called like an attribute has a default, and so has a constant that becomes a field. Such a field
      must not stand before one without; `taken` says that a class took the name `ClassVar`. */
  predicate OrderSafe(fields: seq<FieldDef>, taken: bool) {
    if taken || exists i :: 0 <= i < |fields| && fields[i].name in CONSTANTS
    then forall i :: 0 <= i < |fields| ==>
           fields[i].default.Some? || fields[i].name in CONSTANTS || IsInherited(fields[i].name)
    else forall i, j :: 0 <= i < j < |fields| && fields[i].default.None? && fields[j].default.None? ==>
           IsInherited(fields[i].name) ==> IsInherited(fields[j].name)
  }

  predicate NoneDefaulted(fields: seq<FieldDef>, name: string) {
    forall i :: 0 <= i < |fields| && fields[i].default.Some? ==> fields[i].name != name
  }

  /** A default may only give a constant the value it has. */
  predicate Keeps(fields: seq<FieldDef>, name: string, text: string) {
    forall i :: 0 <= i < |fields| && fields[i].name == name && fields[i].default.Some? ==>
      fields[i].default.value == StringLit(text)
  }

  predicate KeepsConstants(fields: seq<FieldDef>, contract: Contract) {
    && Keeps(fields, "SKILL_ID", contract.skillId) && Keeps(fields, "VERSION", contract.version)
    && Keeps(fields, "DIRECTION", contract.direction)
  }

  /** The statement of a definition does not raise, given the definitions before it, unless for a class
      called `classmethod`. */
  predicate Survives(ds: seq<Definition>, j: nat)
    requires j < |ds|
  {
    match ds[j]
    case Struct(def, _) =>
      && !DefinesBefore(ds, j, "dataclasses") && NoneDefaulted(def.fields, "classmethod")
      && OrderSafe(def.fields, DefinesBefore(ds, j, "ClassVar"))
    case Errors(_, errors) =>
      !DefinesBefore(ds, j, "enum") && forall i :: 0 <= i < |errors| ==> errors[i].name != "mro"
  }

  /** And what it defines can be used. */
  predicate Serves(ds: seq<Definition>, j: nat)
    requires j < |ds|
  {
    match ds[j]
    case Struct(def, contract) =>
      && !DefinesBefore(ds, j, "classmethod") && KeepsConstants(def.fields, contract)
      && forall i :: 0 <= i < |def.fields| ==> def.fields[i].name != "to_ipc"
    case Errors(_, _) => true
  }

  /** What the definitions of a file must avoid for its Python module to work. */
  predicate ModuleSafe(ds: seq<Definition>) {
    && DistinctNames(ds)
    && (forall i :: 0 <= i < |ds| ==> ParsesAt(ds[i]))
    && forall i :: 0 <= i < |ds| ==> Survives(ds, i) && Serves(ds, i)
  }
}
