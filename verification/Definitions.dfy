/** What a contract file makes every target define: the two structs of each skill, and its error enum. */
module Definitions {
  import opened Ast
  import opened Validate
  import opened Records
  import ErrorEnum

  datatype Definition = Struct(def: StructDef, contract: Contract) | Errors(name: string, errors: seq<ErrorVariant>)

  function DefinedName(d: Definition): string {
    match d
    case Struct(def, _) => def.name
    case Errors(name, _) => name
  }

  /** Two words of the error enum's name: the skill's in Pascal case, and `Error`. */
  function EnumName(skill: SkillDef): string {
    ErrorEnum.ToPascalCase(skill.name) + "Error"
  }

  function SkillDefinitions(skill: SkillDef, version: string): seq<Definition> {
    [Struct(skill.input, Contract(skill.id, version, "input")), Struct(skill.output, Contract(skill.id, version, "output"))]
    + if skill.errors == [] then [] else [Errors(EnumName(skill), skill.errors)]
  }

  function AllDefinitions(skills: seq<SkillDef>, version: string): seq<Definition> {
    if skills == [] then []
    else AllDefinitions(skills[..|skills| - 1], version) + SkillDefinitions(skills[|skills| - 1], version)
  }

  function DefinitionsOf(file: LaicFile): seq<Definition> {
    AllDefinitions(file.skills, file.version)
  }

  function DefinedNames(ds: seq<Definition>): set<string> {
    set i | 0 <= i < |ds| :: DefinedName(ds[i])
  }

  predicate DistinctNames(ds: seq<Definition>) {
    forall i, j :: 0 <= i < j < |ds| ==> DefinedName(ds[i]) != DefinedName(ds[j])
  }

  ghost predicate DefinitionOk(d: Definition, words: seq<string>) {
    match d
    case Struct(def, contract) => StructOk(def, words) && IsDirection(contract.direction)
    case Errors(_, errors) => ErrorsOk(errors, words)
  }

  lemma {:induction false} SkillsDefine(skills: seq<SkillDef>, version: string, words: seq<string>)
    requires forall i :: 0 <= i < |skills| ==> SkillOk(skills[i], words)
    ensures forall i :: 0 <= i < |AllDefinitions(skills, version)| ==> DefinitionOk(AllDefinitions(skills, version)[i], words)
  {
    if skills != [] {
      var n := |skills| - 1;
      SkillsDefine(skills[..n], version, words);
      var last := SkillDefinitions(skills[n], version);
      assert SkillOk(skills[n], words);
      forall i | 0 <= i < |last| ensures DefinitionOk(last[i], words) {
      }
    }
  }

  /** The validator's judgement of a file passes to what the file defines. */
  lemma AcceptedDefinitions(file: LaicFile, words: seq<string>)
    requires AcceptedWith(file, words)
    ensures forall i :: 0 <= i < |DefinitionsOf(file)| ==> DefinitionOk(DefinitionsOf(file)[i], words)
  {
    SkillsDefine(file.skills, file.version, words);
  }

  lemma DefinitionsSnoc(skills: seq<SkillDef>, version: string, n: nat)
    requires n < |skills|
    ensures AllDefinitions(skills[..n + 1], version) == AllDefinitions(skills[..n], version) + SkillDefinitions(skills[n], version)
  {
    assert skills[..n + 1][..n] == skills[..n];
  }

  // What stands where

  /** Where the definitions of a skill begin. */
  function Offset(skills: seq<SkillDef>, n: nat): nat
    requires n <= |skills|
  {
    if n == 0 then 0 else Offset(skills, n - 1) + if skills[n - 1].errors == [] then 2 else 3
  }

  lemma {:induction false} OffsetIsLength(skills: seq<SkillDef>, version: string, n: nat)
    requires n <= |skills|
    ensures |AllDefinitions(skills[..n], version)| == Offset(skills, n)
  {
    if n == 0 {
      assert skills[..0] == [];
    } else {
      OffsetIsLength(skills, version, n - 1);
      DefinitionsSnoc(skills, version, n - 1);
    }
  }

  lemma {:induction false} PrefixStays(skills: seq<SkillDef>, version: string, n: nat)
    requires n <= |skills|
    ensures AllDefinitions(skills[..n], version) <= AllDefinitions(skills, version)
    decreases |skills| - n
  {
    if n == |skills| {
      assert skills[..n] == skills;
    } else {
      PrefixStays(skills, version, n + 1);
      DefinitionsSnoc(skills, version, n);
    }
  }

  lemma Inside<T>(before: seq<T>, block: seq<T>, all: seq<T>)
    requires before + block <= all
    ensures |before| + |block| <= |all| && forall i :: 0 <= i < |block| ==> all[|before| + i] == block[i]
  {
    forall i | 0 <= i < |block| ensures all[|before| + i] == block[i] {
      assert (before + block)[|before| + i] == block[i];
    }
  }

  lemma BlockAt(skills: seq<SkillDef>, version: string, n: nat)
    requires n < |skills|
    ensures var all, block, at := AllDefinitions(skills, version), SkillDefinitions(skills[n], version), Offset(skills, n);
            at + |block| <= |all| && forall i :: 0 <= i < |block| ==> all[at + i] == block[i]
  {
    OffsetIsLength(skills, version, n);
    DefinitionsSnoc(skills, version, n);
    PrefixStays(skills, version, n + 1);
    Inside(AllDefinitions(skills[..n], version), SkillDefinitions(skills[n], version), AllDefinitions(skills, version));
  }

  lemma WholeLength(file: LaicFile)
    ensures |DefinitionsOf(file)| == Offset(file.skills, |file.skills|)
  {
    OffsetIsLength(file.skills, file.version, |file.skills|);
    assert file.skills[..|file.skills|] == file.skills;
  }

  /** Skill by skill, the file defines the input struct, the output struct and the error enum, if there is one;
      and nothing else. */
  lemma SkillsAreDefined(file: LaicFile, n: nat)
    requires n < |file.skills|
    ensures |DefinitionsOf(file)| == Offset(file.skills, |file.skills|)
    ensures var ds, at, skill := DefinitionsOf(file), Offset(file.skills, n), file.skills[n];
      && at + 1 < |ds|
      && ds[at] == Struct(skill.input, Contract(skill.id, file.version, "input"))
      && ds[at + 1] == Struct(skill.output, Contract(skill.id, file.version, "output"))
      && (skill.errors != [] ==>
            at + 2 < |ds| && ds[at + 2] == Errors(ErrorEnum.ToPascalCase(skill.name) + "Error", skill.errors))
  {
    WholeLength(file);
    BlockAt(file.skills, file.version, n);
    var block, at := SkillDefinitions(file.skills[n], file.version), Offset(file.skills, n);
    assert DefinitionsOf(file)[at + 0] == block[0] && DefinitionsOf(file)[at + 1] == block[1];
    if file.skills[n].errors != [] {
      assert DefinitionsOf(file)[at + 2] == block[2];
    }
  }

  /** Two skills' enums share a name exactly if the skills' names have the same canonical form, and every enum's
      name ends in `Error`. */
  lemma EnumNamesCollideExactly(a: SkillDef, b: SkillDef)
    ensures EnumName(a) == EnumName(b) <==> ErrorEnum.Canonical(a.name) == ErrorEnum.Canonical(b.name)
    ensures |EnumName(a)| >= 5 && EnumName(a)[|EnumName(a)| - 5..] == "Error"
  {
    ErrorEnum.PascalCollidesExactly(a.name, b.name);
    var p, q := ErrorEnum.ToPascalCase(a.name), ErrorEnum.ToPascalCase(b.name);
    assert EnumName(a)[..|EnumName(a)| - 5] == p && EnumName(b)[..|EnumName(b)| - 5] == q;
  }
}
