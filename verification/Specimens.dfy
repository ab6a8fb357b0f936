/** Small contracts that the validator accepts, on which the failures of the generators are shown. */
module Specimens {
  import opened Wrappers
  import opened Ast
  import opened Validate

  // The names used here, none of which is reserved

  const TYPE_NAMES: seq<string> := ["R", "H", "O", "HashMap", "String", "SELF"]
  const LIBRARY_NAMES: seq<string> :=
    ["ClassVar", "StopIteration", "dataclasses", "classmethod", "mro", "DECIMAL128_MAX_PRECISION"]
  const VARIABLE_NAMES: seq<string> := ["x", "x_column", "batch", "arrow", "ipc", "to_ipc"]

  predicate IsUsed(name: string) {
    name in TYPE_NAMES || name in LIBRARY_NAMES || name in VARIABLE_NAMES
  }

  lemma TypeNamesAreNoRustWords()
    ensures forall n <- TYPE_NAMES :: n !in RUST_WORDS
  {
  }

  lemma TypeNamesAreNoPythonWords()
    ensures forall n <- TYPE_NAMES :: n !in PYTHON_WORDS
  {
  }

  lemma TypeNamesAreNoTypeScriptWords()
    ensures forall n <- TYPE_NAMES :: n !in TYPESCRIPT_WORDS
  {
  }

  lemma LibraryNamesAreNoRustWords()
    ensures forall n <- LIBRARY_NAMES :: n !in RUST_WORDS
  {
  }

  lemma LibraryNamesAreNoPythonWords()
    ensures forall n <- LIBRARY_NAMES :: n !in PYTHON_WORDS
  {
  }

  lemma LibraryNamesAreNoTypeScriptWords()
    ensures forall n <- LIBRARY_NAMES :: n !in TYPESCRIPT_WORDS
  {
  }

  lemma VariableNamesAreNoRustWords()
    ensures forall n <- VARIABLE_NAMES :: n !in RUST_WORDS
  {
  }

  lemma VariableNamesAreNoPythonWords()
    ensures forall n <- VARIABLE_NAMES :: n !in PYTHON_WORDS
  {
  }

  lemma VariableNamesAreNoTypeScriptWords()
    ensures forall n <- VARIABLE_NAMES :: n !in TYPESCRIPT_WORDS
  {
  }

  lemma Unreserved(name: string)
    requires IsUsed(name)
    ensures name !in RESERVED
  {
    TypeNamesAreNoRustWords();
    TypeNamesAreNoPythonWords();
    TypeNamesAreNoTypeScriptWords();
    LibraryNamesAreNoRustWords();
    LibraryNamesAreNoPythonWords();
    LibraryNamesAreNoTypeScriptWords();
    VariableNamesAreNoRustWords();
    VariableNamesAreNoPythonWords();
    VariableNamesAreNoTypeScriptWords();
  }

  function One(name: string, f: FieldDef): StructDef {
    StructDef(name, [f])
  }

  lemma OneIsAccepted(name: string, f: FieldDef)
    requires name != "" && IsUsed(name) && IsUsed(f.name)
    requires Supported(f.ty) && (f.default.Some? ==> InhabitsType(f.ty, f.default.value))
    ensures StructOk(One(name, f), RESERVED)
  {
    Unreserved(name);
    Unreserved(f.name);
    assert FieldOk(One(name, f).fields[0], RESERVED);
  }

  const TEXT := FieldDef("x", StringT, None)

  function Two(name: string, f: FieldDef, g: FieldDef): StructDef {
    StructDef(name, [f, g])
  }

  lemma TwoAreAccepted(name: string, f: FieldDef, g: FieldDef)
    requires name != "" && IsUsed(name) && IsUsed(f.name) && IsUsed(g.name) && f.name != g.name
    requires Supported(f.ty) && Supported(g.ty) && f.default.None? && g.default.None?
    ensures StructOk(Two(name, f, g), RESERVED)
  {
    Unreserved(name);
    Unreserved(f.name);
    Unreserved(g.name);
    assert FieldOk(Two(name, f, g).fields[0], RESERVED) && FieldOk(Two(name, f, g).fields[1], RESERVED);
  }

  /** A struct of the given name with a single string. */
  function Plain(name: string): StructDef {
    One(name, TEXT)
  }

  lemma PlainIsAccepted(name: string)
    requires name != "" && IsUsed(name)
    ensures StructOk(Plain(name), RESERVED)
  {
    OneIsAccepted(name, TEXT);
  }

  /** One skill, without errors. */
  function FileOf(version: string, id: string, input: StructDef, output: StructDef): LaicFile {
    LaicFile(version, [SkillDef("x", id, input, output, [])])
  }

  lemma FileIsAccepted(version: string, id: string, input: StructDef, output: StructDef)
    requires version != "" && id != "" && StructOk(input, RESERVED) && StructOk(output, RESERVED)
    ensures Accepted(FileOf(version, id, input, output))
  {
    var skill := SkillDef("x", id, input, output, []);
    Unreserved("x");
    assert SkillOk(skill, RESERVED);
  }

  /** One skill with one error. */
  function FileWithError(version: string, id: string, error: ErrorVariant): LaicFile {
    LaicFile(version, [SkillDef("x", id, Plain("H"), Plain("O"), [error])])
  }

  lemma WithErrorIsAccepted(version: string, id: string, error: ErrorVariant)
    requires version != "" && id != "" && IsUsed(error.name) && error.code > 0
    ensures Accepted(FileWithError(version, id, error))
  {
    var skill := SkillDef("x", id, Plain("H"), Plain("O"), [error]);
    Unreserved("x");
    Unreserved(error.name);
    PlainIsAccepted("H");
    PlainIsAccepted("O");
    assert SkillOk(skill, RESERVED);
  }
}
