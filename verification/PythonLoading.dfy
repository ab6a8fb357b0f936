/** When the generated Python module works: read off the definitions of the contract file. */
module PythonLoading {
  import opened Wrappers
  import opened Ast
  import opened Validate
  import opened Arrow
  import opened Records
  import opened PythonValues
  import opened Definitions
  import opened PythonContract
  import PD = PythonDeserialize
  import PDec = PythonDecoding
  import PE = PythonEncoding

  // Parameters and fields

  function AsParameter(f: FieldDef): Parameter {
    (f.name, match f.default case Some(lit) => Some(PD.LiteralToPython(lit)) case None => None)
  }

  lemma {:induction false} PartsOfParameters(fields: seq<FieldDef>)
    ensures forall p :: p in Required(fields) <==> exists i :: 0 <= i < |fields| && fields[i].default.None? && p == AsParameter(fields[i])
    ensures forall p :: p in Defaulted(fields) <==> exists i :: 0 <= i < |fields| && fields[i].default.Some? && p == AsParameter(fields[i])
  {
    if fields != [] {
      var before, last := fields[..|fields| - 1], fields[|fields| - 1];
      PartsOfParameters(before);
      forall p
        ensures p in Required(fields) <==> exists i :: 0 <= i < |fields| && fields[i].default.None? && p == AsParameter(fields[i])
        ensures p in Defaulted(fields) <==> exists i :: 0 <= i < |fields| && fields[i].default.Some? && p == AsParameter(fields[i])
      {
        PartSplits(fields, p);
      }
    }
  }

  lemma PartSplits(fields: seq<FieldDef>, p: Parameter)
    requires fields != []
    ensures var before, last := fields[..|fields| - 1], fields[|fields| - 1];
      && ((exists i :: 0 <= i < |fields| && fields[i].default.None? && p == AsParameter(fields[i]))
          <==> (exists i :: 0 <= i < |before| && before[i].default.None? && p == AsParameter(before[i]))
               || (last.default.None? && p == AsParameter(last)))
      && ((exists i :: 0 <= i < |fields| && fields[i].default.Some? && p == AsParameter(fields[i]))
          <==> (exists i :: 0 <= i < |before| && before[i].default.Some? && p == AsParameter(before[i]))
               || (last.default.Some? && p == AsParameter(last)))
  {
    var before := fields[..|fields| - 1];
    if i :| 0 <= i < |before| && p == AsParameter(before[i]) {
      assert fields[i] == before[i];
    }
    if i :| 0 <= i < |fields| && p == AsParameter(fields[i]) {
      assert i == |fields| - 1 || before[i] == fields[i];
    }
  }

  function Parameters(fields: seq<FieldDef>): seq<Parameter> {
    Required(fields) + Defaulted(fields)
  }

  lemma ParameterOf(fields: seq<FieldDef>, p: Parameter)
    ensures p in Parameters(fields) <==> exists i :: 0 <= i < |fields| && p == AsParameter(fields[i])
  {
    PartsOfParameters(fields);
  }

  lemma ParametersParseExactly(fields: seq<FieldDef>, words: seq<string>)
    requires forall i :: 0 <= i < |fields| ==> FieldOk(fields[i], words)
    ensures (forall p <- Parameters(fields) :: ParameterParses(p)) <==> forall i :: 0 <= i < |fields| ==> PDec.DefaultParses(fields[i])
  {
    forall i | 0 <= i < |fields|
      ensures ParameterParses(AsParameter(fields[i])) <==> PDec.DefaultParses(fields[i])
      ensures AsParameter(fields[i]) in Parameters(fields)
    {
      assert FieldOk(fields[i], words);
      ParameterOf(fields, AsParameter(fields[i]));
      if fields[i].default.Some? {
        PDec.DefaultEvaluates(fields[i].default.value);
      }
    }
    forall p <- Parameters(fields) ensures exists i :: 0 <= i < |fields| && p == AsParameter(fields[i]) {
      ParameterOf(fields, p);
    }
  }

  // The attributes

  predicate GivesDefault(params: seq<Parameter>, name: string) {
    exists p <- params :: p.0 == name && p.1.Some?
  }

  lemma {:induction false} BoundKeys(constants: seq<PD.PyLiteral>, params: seq<Parameter>, name: string)
    requires |constants| == 3
    ensures name in Bound(constants, params) <==> name in CONSTANTS || GivesDefault(params, name)
  {
    if params != [] {
      var before, last := params[..|params| - 1], params[|params| - 1];
      BoundKeys(constants, before, name);
      assert params == before + [last];
      assert GivesDefault(params, name) <==> GivesDefault(before, name) || (last.0 == name && last.1.Some?);
    }
  }

  lemma {:induction false} BoundDefault(constants: seq<PD.PyLiteral>, params: seq<Parameter>, p: Parameter)
    requires |constants| == 3 && p in params && p.1.Some?
    requires forall q <- params :: q.0 == p.0 && q.1.Some? ==> q == p
    ensures p.0 in Bound(constants, params) && Bound(constants, params)[p.0] == Value(p.1.value)
  {
    var before, last := params[..|params| - 1], params[|params| - 1];
    assert params == before + [last];
    if last != p {
      BoundDefault(constants, before, p);
    }
  }

  lemma {:induction false} BoundConstant(constants: seq<PD.PyLiteral>, params: seq<Parameter>, k: nat)
    requires |constants| == 3 && k < 3 && !GivesDefault(params, CONSTANTS[k])
    ensures CONSTANTS[k] in Bound(constants, params) && Bound(constants, params)[CONSTANTS[k]] == Value(constants[k])
  {
    if params != [] {
      var before, last := params[..|params| - 1], params[|params| - 1];
      assert last in params && forall q <- before :: q in params;
      BoundConstant(constants, before, k);
    } else {
      ConstantsDiffer();
    }
  }

  lemma ConstantsDiffer()
    ensures CONSTANTS[0] != CONSTANTS[1] && CONSTANTS[0] != CONSTANTS[2] && CONSTANTS[1] != CONSTANTS[2]
    ensures forall n <- CONSTANTS :: !IsInherited(n) && n != "classmethod"
  {
    assert CONSTANTS[0][0] == 'S' && CONSTANTS[1][0] == 'V' && CONSTANTS[2][0] == 'D';
  }

  // The order of the fields

  predicate AllTrue(fields: seq<(string, bool)>) {
    forall i :: 0 <= i < |fields| ==> fields[i].1
  }

  predicate NoneTrue(fields: seq<(string, bool)>) {
    forall i :: 0 <= i < |fields| ==> !fields[i].1
  }

  lemma OrderSnoc(fields: seq<(string, bool)>, e: (string, bool))
    ensures OrderOk(fields + [e]) <==> OrderOk(fields) && (e.1 || NoneTrue(fields))
    ensures AllTrue(fields + [e]) <==> AllTrue(fields) && e.1
    ensures NoneTrue(fields + [e]) <==> NoneTrue(fields) && !e.1
  {
    var all := fields + [e];
    assert all[|fields|] == e && forall i :: 0 <= i < |fields| ==> all[i] == fields[i];
  }

  lemma OrderAround(front: seq<(string, bool)>, fields: seq<(string, bool)>, back: seq<(string, bool)>)
    requires AllTrue(front) && AllTrue(back)
    ensures OrderOk(front + (fields + back)) <==> if front == [] then OrderOk(fields) else AllTrue(fields)
  {
    var all := front + (fields + back);
    assert forall i :: 0 <= i < |fields| ==> all[|front| + i] == fields[i];
    assert forall i :: 0 <= i < |back| ==> all[|front| + |fields| + i] == back[i];
    if front != [] {
      assert all[0] == front[0];
      if OrderOk(all) {
        forall i | 0 <= i < |fields| ensures fields[i].1 {
          assert all[|front| + i].1;
        }
      }
    } else if OrderOk(all) {
      forall i, j | 0 <= i < j < |fields| && fields[i].1 ensures fields[j].1 {
        assert all[|front| + i].1 ==> all[|front| + j].1;
      }
    }
  }

  lemma {:induction false} OwnFieldsConcat(a: seq<Parameter>, b: seq<Parameter>, attributes: map<string, Attribute>)
    ensures OwnFields(a + b, attributes) == OwnFields(a, attributes) + OwnFields(b, attributes)
  {
    if b == [] {
      assert a + b == a;
    } else {
      var before := b[..|b| - 1];
      assert (a + b)[..|a + b| - 1] == a + before;
      OwnFieldsConcat(a, before, attributes);
    }
  }

  lemma {:induction false} OwnFieldsHave(params: seq<Parameter>, attributes: map<string, Attribute>, e: (string, bool))
    ensures e in OwnFields(params, attributes) <==>
            e.0 !in CONSTANTS && e.1 == HasDefault(e.0, attributes) && exists p <- params :: p.0 == e.0
  {
    if params != [] {
      var before, last := params[..|params| - 1], params[|params| - 1];
      assert params == before + [last];
      OwnFieldsHave(before, attributes, e);
      assert (exists p <- params :: p.0 == e.0) <==> (exists p <- before :: p.0 == e.0) || last.0 == e.0;
    }
  }

  /** A required field that is no constant. */
  predicate IsPlain(f: FieldDef) {
    f.default.None? && f.name !in CONSTANTS
  }

  predicate PlainOrdered(fields: seq<FieldDef>) {
    forall i, j :: 0 <= i < j < |fields| && IsPlain(fields[i]) && IsPlain(fields[j]) ==>
      IsInherited(fields[i].name) ==> IsInherited(fields[j].name)
  }

  predicate NoPlainInherits(fields: seq<FieldDef>) {
    forall i :: 0 <= i < |fields| && IsPlain(fields[i]) ==> !IsInherited(fields[i].name)
  }

  predicate PlainsInherit(fields: seq<FieldDef>) {
    forall i :: 0 <= i < |fields| && IsPlain(fields[i]) ==> IsInherited(fields[i].name)
  }

  lemma PlainOrderedSnoc(before: seq<FieldDef>, last: FieldDef)
    ensures PlainOrdered(before + [last]) <==>
            PlainOrdered(before) && (!IsPlain(last) || IsInherited(last.name) || NoPlainInherits(before))
    ensures NoPlainInherits(before + [last]) <==> NoPlainInherits(before) && (IsPlain(last) ==> !IsInherited(last.name))
    ensures PlainsInherit(before + [last]) <==> PlainsInherit(before) && (IsPlain(last) ==> IsInherited(last.name))
  {
    var fields := before + [last];
    assert fields[|before|] == last && forall i :: 0 <= i < |before| ==> fields[i] == before[i];
  }

  /** The attributes say of each required field whether it is called like one. */
  ghost predicate Explain(attributes: map<string, Attribute>, fields: seq<FieldDef>) {
    forall i :: 0 <= i < |fields| && IsPlain(fields[i]) ==>
      (HasDefault(fields[i].name, attributes) <==> IsInherited(fields[i].name))
  }

  lemma RequiredSnoc(before: seq<FieldDef>, last: FieldDef, attributes: map<string, Attribute>)
    ensures var own, all := OwnFields(Required(before), attributes), OwnFields(Required(before + [last]), attributes);
            all == if IsPlain(last) then own + [(last.name, HasDefault(last.name, attributes))] else own
  {
    assert (before + [last])[..|before|] == before;
    if last.default.None? {
      var p: Parameter := (last.name, None);
      assert Required(before + [last]) == Required(before) + [p];
      assert (Required(before) + [p])[..|Required(before)|] == Required(before);
      assert OwnFields(Required(before), attributes) + [] == OwnFields(Required(before), attributes);
    } else {
      assert Required(before) + [] == Required(before);
    }
  }

  lemma {:induction false} RequiredOrder(fields: seq<FieldDef>, attributes: map<string, Attribute>)
    requires Explain(attributes, fields)
    ensures var own := OwnFields(Required(fields), attributes);
      && (OrderOk(own) <==> PlainOrdered(fields))
      && (AllTrue(own) <==> PlainsInherit(fields))
      && (NoneTrue(own) <==> NoPlainInherits(fields))
  {
    if fields != [] {
      var before, last := fields[..|fields| - 1], fields[|fields| - 1];
      assert fields == before + [last];
      assert forall i :: 0 <= i < |before| ==> before[i] == fields[i];
      RequiredOrder(before, attributes);
      PlainOrderedSnoc(before, last);
      RequiredSnoc(before, last, attributes);
      if IsPlain(last) {
        assert HasDefault(last.name, attributes) <==> IsInherited(last.name);
        OrderSnoc(OwnFields(Required(before), attributes), (last.name, HasDefault(last.name, attributes)));
      }
    }
  }

  lemma {:induction false} ConstantFieldsAreConstants(params: seq<Parameter>, taken: bool, from: nat)
    requires from <= 3
    ensures AllTrue(ConstantFields(params, taken, from))
    ensures forall e <- ConstantFields(params, taken, from) :: e.0 in CONSTANTS
    decreases 3 - from
  {
    if from < 3 {
      ConstantFieldsAreConstants(params, taken, from + 1);
    }
  }

  lemma {:induction false} NoConstantFieldsExactly(params: seq<Parameter>, taken: bool, from: nat)
    requires from <= 3
    ensures ConstantFields(params, taken, from) == []
            <==> from == 3 || (!taken && forall p <- params :: p.0 !in CONSTANTS[from..])
    decreases 3 - from
  {
    if from < 3 {
      NoConstantFieldsExactly(params, taken, from + 1);
      var c := CONSTANTS[from];
      assert CONSTANTS[from..] == [c] + CONSTANTS[from + 1..] && c in CONSTANTS;
      assert (exists i :: 0 <= i < |params| && params[i].0 == c) <==> !(forall p <- params :: p.0 != c) by {
        if i :| 0 <= i < |params| && params[i].0 == c {
          assert params[i] in params;
        }
      }
    }
  }

  /** What the class body leaves behind. */
  ghost predicate Complete(attributes: map<string, Attribute>, fields: seq<FieldDef>) {
    forall n :: n in attributes <==> n in CONSTANTS || n == "to_ipc" || n == "from_ipc" || GivesDefault(Parameters(fields), n)
  }

  lemma GivesDefaultExactly(fields: seq<FieldDef>, name: string)
    ensures GivesDefault(Parameters(fields), name) <==> !NoneDefaulted(fields, name)
  {
    if p :| p in Parameters(fields) && p.0 == name && p.1.Some? {
      ParameterOf(fields, p);
    }
    if i :| 0 <= i < |fields| && fields[i].default.Some? && fields[i].name == name {
      ParameterOf(fields, AsParameter(fields[i]));
    }
  }

  lemma AttributesExplain(attributes: map<string, Attribute>, fields: seq<FieldDef>)
    requires DistinctFields(fields) && Complete(attributes, fields)
    ensures Explain(attributes, fields) && AllTrue(OwnFields(Defaulted(fields), attributes))
  {
    forall i | 0 <= i < |fields| && IsPlain(fields[i])
      ensures HasDefault(fields[i].name, attributes) <==> IsInherited(fields[i].name)
    {
      GivesDefaultExactly(fields, fields[i].name);
      assert NoneDefaulted(fields, fields[i].name);
    }
    var own := OwnFields(Defaulted(fields), attributes);
    forall k | 0 <= k < |own| ensures own[k].1 {
      assert own[k] in own;
      OwnFieldsHave(Defaulted(fields), attributes, own[k]);
      PartsOfParameters(fields);
      var p :| p in Defaulted(fields) && p.0 == own[k].0;
      assert p in Parameters(fields) && p.1.Some?;
      assert GivesDefault(Parameters(fields), own[k].0);
    }
  }

  lemma ConstantAmongExactly(fields: seq<FieldDef>)
    ensures (forall p <- Parameters(fields) :: p.0 !in CONSTANTS) <==> forall i :: 0 <= i < |fields| ==> fields[i].name !in CONSTANTS
  {
    forall i | 0 <= i < |fields| ensures AsParameter(fields[i]) in Parameters(fields) {
      ParameterOf(fields, AsParameter(fields[i]));
    }
    forall p <- Parameters(fields) ensures exists i :: 0 <= i < |fields| && p == AsParameter(fields[i]) {
      ParameterOf(fields, p);
    }
  }

  lemma OrderSafeIs(fields: seq<FieldDef>, taken: bool)
    ensures OrderSafe(fields, taken) <==>
            if taken || exists i :: 0 <= i < |fields| && fields[i].name in CONSTANTS then PlainsInherit(fields) else PlainOrdered(fields)
  {
  }

  lemma NoConstantFields(fields: seq<FieldDef>, taken: bool)
    ensures AllTrue(ConstantFields(Parameters(fields), taken, 0))
    ensures ConstantFields(Parameters(fields), taken, 0) == []
            <==> !taken && forall i :: 0 <= i < |fields| ==> fields[i].name !in CONSTANTS
  {
    ConstantFieldsAreConstants(Parameters(fields), taken, 0);
    NoConstantFieldsExactly(Parameters(fields), taken, 0);
    ConstantAmongExactly(fields);
    assert CONSTANTS[0..] == CONSTANTS;
  }

  /** `dataclass` accepts the order of the fields exactly if it is safe. */
  lemma OrderExactly(fields: seq<FieldDef>, attributes: map<string, Attribute>, taken: bool)
    requires DistinctFields(fields) && Complete(attributes, fields)
    ensures OrderOk(ClassFields(Parameters(fields), attributes, taken)) <==> OrderSafe(fields, taken)
  {
    AttributesExplain(attributes, fields);
    NoConstantFields(fields, taken);
    OrderSafeIs(fields, taken);
    OwnFieldsConcat(Required(fields), Defaulted(fields), attributes);
    OrderAround(ConstantFields(Parameters(fields), taken, 0), OwnFields(Required(fields), attributes),
                OwnFields(Defaulted(fields), attributes));
    RequiredOrder(fields, attributes);
  }

  predicate Lists(fields: seq<(string, bool)>, name: string) {
    exists e <- fields :: e.0 == name
  }

  lemma OwnFieldsList(fields: seq<FieldDef>, attributes: map<string, Attribute>, name: string)
    requires name !in CONSTANTS
    ensures Lists(OwnFields(Parameters(fields), attributes), name) <==> exists i :: 0 <= i < |fields| && fields[i].name == name
  {
    var params := Parameters(fields);
    if e :| e in OwnFields(params, attributes) && e.0 == name {
      OwnFieldsHave(params, attributes, e);
      var p :| p in params && p.0 == name;
      ParameterOf(fields, p);
    }
    if i :| 0 <= i < |fields| && fields[i].name == name {
      ParameterOf(fields, AsParameter(fields[i]));
      OwnFieldsHave(params, attributes, (name, HasDefault(name, attributes)));
    }
  }

  lemma ClassFieldsList(fields: seq<FieldDef>, attributes: map<string, Attribute>, taken: bool, name: string)
    requires name !in CONSTANTS
    ensures Lists(ClassFields(Parameters(fields), attributes, taken), name) <==> exists i :: 0 <= i < |fields| && fields[i].name == name
  {
    OwnFieldsList(fields, attributes, name);
    ConstantFieldsAreConstants(Parameters(fields), taken, 0);
    assert forall e <- ConstantFields(Parameters(fields), taken, 0) :: e.0 != name;
  }

  // The constants

  /** A default of the constant's name is what the name is bound to. */
  lemma ConstantReplaced(fields: seq<FieldDef>, constants: seq<PD.PyLiteral>, i: nat)
    requires DistinctFields(fields) && |constants| == 3 && i < |fields| && fields[i].default.Some?
    ensures var bound := Bound(constants, Parameters(fields));
            fields[i].name in bound && bound[fields[i].name] == Value(PD.LiteralToPython(fields[i].default.value))
  {
    var p := AsParameter(fields[i]);
    ParameterOf(fields, p);
    forall q <- Parameters(fields) | q.0 == p.0 && q.1.Some? ensures q == p {
      ParameterOf(fields, q);
    }
    BoundDefault(constants, Parameters(fields), p);
  }

  lemma ConstantKeptExactly(fields: seq<FieldDef>, constants: seq<PD.PyLiteral>, k: nat, text: string)
    requires DistinctFields(fields) && |constants| == 3 && k < 3 && PD.LiteralValue(constants[k]) == Ok(PyLeaf(Str(text)))
    ensures CONSTANTS[k] in Bound(constants, Parameters(fields)) && Bound(constants, Parameters(fields))[CONSTANTS[k]].Value?
    ensures PD.LiteralValue(Bound(constants, Parameters(fields))[CONSTANTS[k]].code) == Ok(PyLeaf(Str(text)))
            <==> Keeps(fields, CONSTANTS[k], text)
  {
    var name := CONSTANTS[k];
    if i :| 0 <= i < |fields| && fields[i].default.Some? && fields[i].name == name {
      ConstantReplaced(fields, constants, i);
      DefaultTextExactly(fields[i].default.value, text);
    } else {
      GivesDefaultExactly(fields, name);
      BoundConstant(constants, Parameters(fields), k);
    }
  }

  lemma DefaultTextExactly(default: Literal, text: string)
    ensures PD.LiteralValue(PD.LiteralToPython(default)) == Ok(PyLeaf(Str(text))) <==> default == StringLit(text)
  {
    if default.StringLit? {
      StringLiteralIsRead(default.s);
    }
  }

  lemma ConstantTexts(contract: Contract)
    requires IsDirection(contract.direction)
    ensures var c := Constants(contract);
      && PD.LiteralValue(c[0]) == Ok(PyLeaf(Str(contract.skillId)))
      && PD.LiteralValue(c[1]) == Ok(PyLeaf(Str(contract.version)))
      && PD.LiteralValue(c[2]) == Ok(PyLeaf(Str(contract.direction)))
  {
    StringLiteralIsRead(contract.skillId);
    StringLiteralIsRead(contract.version);
    StringLiteralIsRead(contract.direction);
    PE.PlainText(contract.direction);
  }

  /** The constants keep their values exactly if no default gives them another. */
  lemma ConstantsKeptExactly(fields: seq<FieldDef>, contract: Contract)
    requires DistinctFields(fields) && IsDirection(contract.direction)
    ensures var bound := Bound(Constants(contract), Parameters(fields));
      && (forall k :: 0 <= k < 3 ==> CONSTANTS[k] in bound && bound[CONSTANTS[k]].Value?)
      && ((forall k :: 0 <= k < 3 ==>
             PD.LiteralValue(bound[CONSTANTS[k]].code) == PD.LiteralValue(Constants(contract)[k]))
          <==> KeepsConstants(fields, contract))
  {
    ConstantTexts(contract);
    ConstantKeptExactly(fields, Constants(contract), 0, contract.skillId);
    ConstantKeptExactly(fields, Constants(contract), 1, contract.version);
    ConstantKeptExactly(fields, Constants(contract), 2, contract.direction);
    assert CONSTANTS[0] == "SKILL_ID" && CONSTANTS[1] == "VERSION" && CONSTANTS[2] == "DIRECTION";
  }

  // Class statements

  /** What an item keeps of its definition. */
  ghost predicate Shaped(item: Item, d: Definition) {
    match d
    case Struct(def, contract) =>
      && item.DataClass? && item.name == def.name && item.constants == Constants(contract)
      && item.params == Parameters(def.fields) && DistinctFields(def.fields) && IsDirection(contract.direction)
    case Errors(name, errors) =>
      && item.EnumClass? && item.name == name
      && ((exists i :: 0 <= i < |item.members| && item.members[i].0 == "mro")
          <==> exists i :: 0 <= i < |errors| && errors[i].name == "mro")
  }

  lemma ItemIsShaped(item: Item, d: Definition, words: seq<string>)
    requires IsItem(item, d) && DefinitionOk(d, words)
    ensures Shaped(item, d)
  {
    if d.Errors? {
      if i :| 0 <= i < |d.errors| && d.errors[i].name == "mro" {
        assert item.members[i].0 == "mro";
      }
    }
  }

  /** The class body raises unless no default takes `classmethod`; without a class of that name, only then. */
  lemma BodyExactly(fields: seq<FieldDef>, contract: Contract, classes: map<string, Class>)
    ensures var params := Parameters(fields);
            var r := PythonContract.Body(Constants(contract), params, classes);
      && (r.Some? ==> NoneDefaulted(fields, "classmethod"))
      && (NoneDefaulted(fields, "classmethod") && "classmethod" !in classes ==> r.Some?)
      && (r.Some? ==> Complete(r.value, fields))
      && (r.Some? ==> r.value["to_ipc"] == Function && (r.value["from_ipc"] == ClassMethod <==> "classmethod" !in classes))
      && (r.Some? ==> forall n <- CONSTANTS :: n in Bound(Constants(contract), params) && r.value[n] == Bound(Constants(contract), params)[n])
  {
    var params := Parameters(fields);
    forall n ensures n in Bound(Constants(contract), params) <==> n in CONSTANTS || GivesDefault(params, n) {
      BoundKeys(Constants(contract), params, n);
    }
    GivesDefaultExactly(fields, "classmethod");
    ConstantsDiffer();
  }

  /** A defined class can be used exactly if its definition serves. */
  lemma UsableExactly(item: Item, def: StructDef, contract: Contract, classes: map<string, Class>, k: nat, taken: bool)
    requires Shaped(item, Struct(def, contract))
    requires PythonContract.Body(item.constants, item.params, classes).Some?
    ensures var attributes := PythonContract.Body(item.constants, item.params, classes).value;
            Usable(Structure(k, attributes, ClassFields(item.params, attributes, taken)), item)
            <==> && "classmethod" !in classes && KeepsConstants(def.fields, contract)
                 && forall i :: 0 <= i < |def.fields| ==> def.fields[i].name != "to_ipc"
  {
    var attributes := PythonContract.Body(item.constants, item.params, classes).value;
    BodyExactly(def.fields, contract, classes);
    ConstantsKeptExactly(def.fields, contract);
    ConstantsDiffer();
    ClassFieldsList(def.fields, attributes, taken, "to_ipc");
    assert forall i :: 0 <= i < 3 ==> CONSTANTS[i] in CONSTANTS;
  }

  ghost predicate Knows(classes: map<string, Class>, ds: seq<Definition>, count: nat)
    requires count <= |ds|
  {
    forall n :: n in classes <==> DefinesBefore(ds, count, n)
  }

  /** One statement raises unless the definition survives, and never if it serves as well. */
  lemma DefineExactly(items: seq<Item>, ds: seq<Definition>, k: nat, classes: map<string, Class>)
    requires k < |ds| == |items| && Shaped(items[k], ds[k]) && Knows(classes, ds, k)
    ensures var r := Define(items, k, classes);
      && (r.Some? ==> Survives(ds, k))
      && (Survives(ds, k) && Serves(ds, k) ==> r.Some?)
      && (r.Some? ==>
            var name := DefinedName(ds[k]);
            && name in r.value && r.value == classes[name := r.value[name]] && r.value[name].index == k
            && (Usable(r.value[name], items[k]) <==> Serves(ds, k)))
  {
    match ds[k] {
      case Struct(def, contract) =>
        var body := PythonContract.Body(items[k].constants, items[k].params, classes);
        BodyExactly(def.fields, contract, classes);
        if body.Some? {
          OrderExactly(def.fields, body.value, "ClassVar" in classes);
          UsableExactly(items[k], def, contract, classes, k, "ClassVar" in classes);
        }
      case Errors(_, _) =>
    }
  }

  lemma DefinesNext(ds: seq<Definition>, k: nat, n: string)
    requires k < |ds|
    ensures DefinesBefore(ds, k + 1, n) <==> DefinesBefore(ds, k, n) || DefinedName(ds[k]) == n
  {
    if DefinesBefore(ds, k + 1, n) {
      var i :| 0 <= i < k + 1 && DefinedName(ds[i]) == n;
      assert i == k || DefinesBefore(ds, k, n);
    }
  }

  ghost predicate AllShaped(items: seq<Item>, ds: seq<Definition>) {
    |items| == |ds| && HaveConstants(items) && forall i :: 0 <= i < |ds| ==> Shaped(items[i], ds[i])
  }

  /** Each name refers to a definition of that name, which can be used exactly if it serves. */
  ghost predicate Describes(classes: map<string, Class>, items: seq<Item>, ds: seq<Definition>, count: nat)
    requires count <= |ds| && AllShaped(items, ds)
  {
    && Knows(classes, ds, count)
    && (forall n :: n in classes ==>
          && classes[n].index < count && DefinedName(ds[classes[n].index]) == n
          && (Usable(classes[n], items[classes[n].index]) <==> Serves(ds, classes[n].index)))
    && forall j :: 0 <= j < count ==> Survives(ds, j)
  }

  /** One more statement. */
  lemma DescribesNext(before: map<string, Class>, after: map<string, Class>, items: seq<Item>, ds: seq<Definition>, k: nat)
    requires k < |ds| && AllShaped(items, ds) && Describes(before, items, ds, k) && Survives(ds, k)
    requires var name := DefinedName(ds[k]);
      && name in after && after == before[name := after[name]] && after[name].index == k
      && (Usable(after[name], items[k]) <==> Serves(ds, k))
    ensures Describes(after, items, ds, k + 1)
  {
    forall n ensures n in after <==> DefinesBefore(ds, k + 1, n) {
      DefinesNext(ds, k, n);
    }
  }

  predicate SafeBefore(ds: seq<Definition>, count: nat)
    requires count <= |ds|
  {
    forall j :: 0 <= j < count ==> Survives(ds, j) && Serves(ds, j)
  }

  /** What loading can have left after the first statements. */
  ghost predicate Left(loaded: Option<map<string, Class>>, items: seq<Item>, ds: seq<Definition>, count: nat)
    requires count <= |ds| && AllShaped(items, ds)
  {
    (loaded.Some? ==> Describes(loaded.value, items, ds, count)) && (SafeBefore(ds, count) ==> loaded.Some?)
  }

  lemma LeftFirst(items: seq<Item>, ds: seq<Definition>)
    requires AllShaped(items, ds)
    ensures Left(Some(map[]), items, ds, 0)
  {
  }

  function Next(items: seq<Item>, k: nat, before: Option<map<string, Class>>): Option<map<string, Class>>
    requires k < |items| && HaveConstants(items)
  {
    match before
    case None => None
    case Some(classes) => Define(items, k, classes)
  }

  lemma LeftNext(items: seq<Item>, ds: seq<Definition>, k: nat, before: Option<map<string, Class>>)
    requires k < |ds| && AllShaped(items, ds) && Left(before, items, ds, k)
    ensures Left(Next(items, k, before), items, ds, k + 1)
  {
    assert SafeBefore(ds, k + 1) ==> SafeBefore(ds, k);
    if before.Some? {
      DefineExactly(items, ds, k, before.value);
      var r := Define(items, k, before.value);
      if r.Some? {
        DescribesNext(before.value, r.value, items, ds, k);
      }
    }
  }

  lemma LoadNext(items: seq<Item>, k: nat)
    requires k < |items| && HaveConstants(items)
    ensures Load(items, k + 1) == Next(items, k, Load(items, k))
  {
  }

  /** What every statement keeps holds of the loaded module. */
  lemma {:induction false} LoadKeeps(items: seq<Item>, count: nat, kept: (nat, Option<map<string, Class>>) -> bool)
    requires count <= |items| && HaveConstants(items) && kept(0, Some(map[]))
    requires forall k: nat, before | k < count && kept(k, before) :: kept(k + 1, Next(items, k, before))
    ensures kept(count, Load(items, count))
  {
    if count > 0 {
      LoadKeeps(items, count - 1, kept);
      LoadNext(items, count - 1);
      assert kept(count - 1 + 1, Next(items, count - 1, Load(items, count - 1)));
    }
  }

  lemma LoadsDescribed(items: seq<Item>, ds: seq<Definition>)
    requires AllShaped(items, ds)
    ensures Left(Load(items, |items|), items, ds, |items|)
  {
    var kept := (k: nat, loaded: Option<map<string, Class>>) => k <= |ds| && Left(loaded, items, ds, k);
    LeftFirst(items, ds);
    forall k: nat, before | k < |items| && kept(k, before) ensures kept(k + 1, Next(items, k, before)) {
      LeftNext(items, ds, k, before);
    }
    LoadKeeps(items, |items|, kept);
  }

  predicate AllServe(ds: seq<Definition>) {
    forall j :: 0 <= j < |ds| ==> Serves(ds, j)
  }

  lemma InPlaceIsSafe(classes: map<string, Class>, items: seq<Item>, ds: seq<Definition>)
    requires AllShaped(items, ds) && Describes(classes, items, ds, |ds|) && InPlace(items, classes)
    ensures DistinctNames(ds) && AllServe(ds)
  {
    forall i | 0 <= i < |ds| ensures DefinedName(ds[i]) in classes && classes[DefinedName(ds[i])].index == i && Serves(ds, i) {
      assert Shaped(items[i], ds[i]) && items[i].name == DefinedName(ds[i]);
    }
  }

  lemma SafeIsInPlace(classes: map<string, Class>, items: seq<Item>, ds: seq<Definition>)
    requires AllShaped(items, ds) && Describes(classes, items, ds, |ds|) && DistinctNames(ds) && AllServe(ds)
    ensures InPlace(items, classes)
  {
    forall i | 0 <= i < |items|
      ensures items[i].name in classes && classes[items[i].name].index == i && Usable(classes[items[i].name], items[i])
    {
      assert Shaped(items[i], ds[i]) && items[i].name == DefinedName(ds[i]);
      assert DefinesBefore(ds, |ds|, DefinedName(ds[i]));
    }
  }

  /** Loading leaves every class in its place exactly when the names are distinct and every definition
      survives and serves. */
  lemma LoadsInPlaceExactly(items: seq<Item>, ds: seq<Definition>)
    requires AllShaped(items, ds)
    ensures Load(items, |items|).Some? && InPlace(items, Load(items, |items|).value)
            <==> DistinctNames(ds) && AllServe(ds) && forall j :: 0 <= j < |ds| ==> Survives(ds, j)
  {
    LoadsDescribed(items, ds);
    if Load(items, |items|).Some? {
      var classes := Load(items, |items|).value;
      if InPlace(items, classes) {
        InPlaceIsSafe(classes, items, ds);
      }
      if DistinctNames(ds) && AllServe(ds) {
        SafeIsInPlace(classes, items, ds);
      }
    }
  }

  // Whole modules

  lemma ItemParsesExactly(item: Item, d: Definition, words: seq<string>)
    requires DefinitionOk(d, words) && Shaped(item, d) && d.Struct?
    ensures (forall i :: 0 <= i < |item.params| ==> ParameterParses(item.params[i])) <==> ParsesAt(d)
  {
    ParametersParseExactly(d.def.fields, words);
    assert forall p <- item.params :: exists i :: 0 <= i < |item.params| && item.params[i] == p;
  }

  lemma ModuleIsShaped(items: seq<Item>, ds: seq<Definition>, words: seq<string>)
    requires IsModule(items, ds) && forall i :: 0 <= i < |ds| ==> DefinitionOk(ds[i], words)
    ensures AllShaped(items, ds)
    ensures Parses(items) <==> forall i :: 0 <= i < |ds| ==> ParsesAt(ds[i])
  {
    forall i | 0 <= i < |ds|
      ensures Shaped(items[i], ds[i])
      ensures items[i].DataClass? ==> |items[i].constants| == 3
      ensures ParsesAt(ds[i]) <==>
              (items[i].DataClass? ==> forall k :: 0 <= k < |items[i].params| ==> ParameterParses(items[i].params[k]))
    {
      ItemIsShaped(items[i], ds[i], words);
      if ds[i].Struct? {
        ItemParsesExactly(items[i], ds[i], words);
      }
    }
  }

  /** The module generated from an accepted contract works exactly when its definitions are safe. */
  lemma ModuleWorksExactly(file: LaicFile, words: seq<string>, items: seq<Item>)
    requires AcceptedWith(file, words) && IsModule(items, DefinitionsOf(file))
    ensures Works(items) <==> ModuleSafe(DefinitionsOf(file))
  {
    AcceptedDefinitions(file, words);
    ModuleIsShaped(items, DefinitionsOf(file), words);
    LoadsInPlaceExactly(items, DefinitionsOf(file));
  }

  // What classes and enums say

  /** The value of a class attribute that is bound to a literal. */
  function ValueOf(c: Class, name: string): Option<PyValue> {
    if c.Structure? && name in c.attributes && c.attributes[name].Value? then
      match PD.LiteralValue(c.attributes[name].code) case Ok(v) => Some(v) case Err(_) => None
    else None
  }

  /** In a module that works every class says what it was generated for. */
  lemma ClassesTell(file: LaicFile, words: seq<string>, items: seq<Item>, i: nat, def: StructDef, contract: Contract)
    requires AcceptedWith(file, words) && IsModule(items, DefinitionsOf(file)) && Works(items)
    requires i < |items| && DefinitionsOf(file)[i] == Struct(def, contract)
    ensures var classes := Load(items, |items|).value;
      && def.name in classes
      && ValueOf(classes[def.name], "SKILL_ID") == Some(PyLeaf(Str(contract.skillId)))
      && ValueOf(classes[def.name], "VERSION") == Some(PyLeaf(Str(contract.version)))
      && ValueOf(classes[def.name], "DIRECTION") == Some(PyLeaf(Str(contract.direction)))
  {
    AcceptedDefinitions(file, words);
    assert DefinitionOk(DefinitionsOf(file)[i], words) && IsItem(items[i], DefinitionsOf(file)[i]);
    UsableTells(Load(items, |items|).value[def.name], items[i], contract);
  }

  lemma UsableTells(c: Class, item: Item, contract: Contract)
    requires item.DataClass? && item.constants == Constants(contract) && IsDirection(contract.direction) && Usable(c, item)
    ensures ValueOf(c, "SKILL_ID") == Some(PyLeaf(Str(contract.skillId)))
    ensures ValueOf(c, "VERSION") == Some(PyLeaf(Str(contract.version)))
    ensures ValueOf(c, "DIRECTION") == Some(PyLeaf(Str(contract.direction)))
  {
    ConstantTexts(contract);
    assert CONSTANTS[0] == "SKILL_ID" && CONSTANTS[1] == "VERSION" && CONSTANTS[2] == "DIRECTION";
  }

  /** The constructor has one parameter for each field, whose default has the field's value. */
  lemma ParametersTell(fields: seq<FieldDef>, i: nat)
    requires DistinctFields(fields) && i < |fields|
    ensures exists p <- Parameters(fields) ::
              && p.0 == fields[i].name && (p.1.Some? <==> fields[i].default.Some?)
              && (p.1.Some? && DefaultValue(fields[i].ty, fields[i].default.value).Some? ==>
                    PD.LiteralValue(p.1.value) == Ok(ToPy(DefaultValue(fields[i].ty, fields[i].default.value).value)))
    ensures forall p <- Parameters(fields) :: p.0 == fields[i].name ==> p == AsParameter(fields[i])
  {
    ParameterOf(fields, AsParameter(fields[i]));
    if fields[i].default.Some? {
      PDec.DefaultEvaluates(fields[i].default.value);
    }
    forall p <- Parameters(fields) | p.0 == fields[i].name ensures p == AsParameter(fields[i]) {
      ParameterOf(fields, p);
    }
  }
}
