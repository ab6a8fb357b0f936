/** Semantic validation: the loops of the validator, and the declarative conditions they decide. */
module Validate {
  import opened Wrappers
  import opened Bytes
  import opened Ast

  datatype ValidationError =
    | EmptyVersion
    | NoSkills
    | DuplicateSkillName(name: string)
    | DuplicateSkillId(id: string)
    | EmptySkillId(skill: string)
    | ReservedIdentifier(identifier: string)
    | EmptyStructName
    | NoFields(struct: string)
    | DuplicateField(field: string)
    | UnsupportedType(field: string)
    | DefaultNotAllowed(field: string)
    | IncompatibleDefault(field: string)
    | DefaultOutOfRange(field: string)
    | DuplicateErrorName(error: string)
    | ZeroErrorCode(error: string)
    | DuplicateErrorCode(code: u16)

  type Verdict = Result<Unit, ValidationError>

  // The keywords of the target languages, each listed once

  const RUST_WORDS: seq<string> :=
    ["abstract", "as", "async", "await", "become", "box", "break", "const", "continue", "crate", "do"] +
    ["dyn", "else", "enum", "extern", "false", "final", "fn", "for", "gen", "if", "impl"] +
    ["in", "let", "loop", "macro", "match", "mod", "move", "mut", "override", "priv", "pub"] +
    ["ref", "return", "Self", "self", "static", "struct", "super", "trait", "true", "try", "type"] +
    ["typeof", "union", "unsafe", "unsized", "use", "virtual", "where", "while", "yield"]

  const PYTHON_WORDS: seq<string> :=
    ["False", "None", "True", "and", "assert", "class", "def", "del", "elif", "except", "finally"] +
    ["from", "global", "import", "is", "lambda", "nonlocal", "not", "or", "pass", "raise", "with"]

  const TYPESCRIPT_WORDS: seq<string> :=
    ["any", "arguments", "boolean", "case", "catch", "constructor", "debugger", "declare", "default", "delete", "eval"] +
    ["export", "extends", "function", "get", "implements", "infer", "instanceof", "interface", "keyof", "module", "namespace"] +
    ["new", "never", "null", "number", "object", "of", "package", "private", "protected", "public", "readonly"] +
    ["require", "set", "string", "switch", "symbol", "this", "throw", "undefined", "unique", "unknown", "var"] +
    ["void"]

  /** The union of the target languages' keywords. The conditions below take the word list as a parameter;
      `Validate` runs them with this one. */
  const RESERVED: seq<string> := RUST_WORDS + PYTHON_WORDS + TYPESCRIPT_WORDS

  // Types

  predicate IsLeaf(ty: LaicType) {
    !ty.List? && !ty.Optional? && !ty.Map?
  }

  predicate HasDynamic(dims: seq<Dimension>) {
    exists i :: 0 <= i < |dims| && dims[i].Dynamic?
  }

  predicate HasFixedZero(dims: seq<Dimension>) {
    exists i :: 0 <= i < |dims| && dims[i] == Fixed(0)
  }

  function Check(ok: bool, e: ValidationError): Verdict {
    if ok then Ok(Unit) else Err(e)
  }

  function ValidateFieldType(field: string, ty: LaicType): Verdict
    decreases ty, 1
  {
    match ty
    case Tensor(_, dims) => ValidateTensorDimensions(field, dims)
    case List(inner) => ValidateListConstraints(field, inner)
    case Optional(inner) => ValidateOptionalConstraints(field, inner)
    case Map(key, value) => ValidateMapConstraints(field, key, value)
    case _ => Ok(Unit)
  }

  function ValidateTensorDimensions(field: string, dims: seq<Dimension>): Verdict {
    var _ :- Check(dims != [], UnsupportedType(field));
    Check(!HasFixedZero(dims), UnsupportedType(field))
  }

  function ValidateListConstraints(field: string, inner: LaicType): Verdict
    decreases inner, 2
  {
    var e := UnsupportedType(field);
    var _ :- Check(!inner.List?, e);
    var _ :- Check(!(inner.Tensor? && HasDynamic(inner.dims)), e);
    var _ :- Check(!inner.Map?, e);
    var _ :- Check(!(inner.Optional? && !IsLeaf(inner.inner)), e);
    ValidateFieldType(field, inner)
  }

  function ValidateOptionalConstraints(field: string, inner: LaicType): Verdict
    decreases inner, 2
  {
    var e := UnsupportedType(field);
    var _ :- Check(!inner.Optional?, e);
    var _ :- Check(!(inner.Tensor? && HasDynamic(inner.dims)), e);
    var _ :- Check(!inner.Map?, e);
    var _ :- Check(!(inner.List? && !IsLeaf(inner.item)), e);
    ValidateFieldType(field, inner)
  }

  predicate IsMapKey(ty: LaicType) {
    ty.StringT? || ty.BoolT? || ty.I8? || ty.I16? || ty.I32? || ty.I64? || ty.U8?
  }

  predicate IsMapValue(ty: LaicType) {
    IsMapKey(ty) || ty.BytesT? || ty.F32? || ty.F64?
  }

  function ValidateMapConstraints(field: string, key: LaicType, value: LaicType): Verdict {
    var _ :- Check(IsMapKey(key), UnsupportedType(field));
    Check(IsMapValue(value), UnsupportedType(field))
  }

  /** A leaf that may sit inside a container: any scalar, or a tensor of fixed, nonzero dimensions. */
  predicate ContainableLeaf(ty: LaicType) {
    IsLeaf(ty) && (ty.Tensor? ==> ty.dims != [] && forall d <- ty.dims :: d.Fixed? && d.size > 0)
  }

  /** The six shapes of accepted field types; only a top-level tensor may have dynamic dimensions. */
  predicate Supported(ty: LaicType) {
    || (IsLeaf(ty) && (ty.Tensor? ==> ty.dims != [] && forall d <- ty.dims :: d != Fixed(0)))
    || (ty.List? && ContainableLeaf(ty.item))
    || (ty.List? && ty.item.Optional? && ContainableLeaf(ty.item.inner))
    || (ty.Optional? && ContainableLeaf(ty.inner))
    || (ty.Optional? && ty.inner.List? && ContainableLeaf(ty.inner.item))
    || (ty.Map? && IsMapKey(ty.key) && IsMapValue(ty.value))
  }

  lemma DimsConditions(dims: seq<Dimension>)
    ensures !HasFixedZero(dims) <==> forall d <- dims :: d != Fixed(0)
    ensures !HasDynamic(dims) && !HasFixedZero(dims) <==> forall d <- dims :: d.Fixed? && d.size > 0
  {
    if forall d <- dims :: d != Fixed(0) {
      forall i | 0 <= i < |dims| ensures dims[i] != Fixed(0) {
        assert dims[i] in dims;
      }
    }
    if forall d <- dims :: d.Fixed? && d.size > 0 {
      forall i | 0 <= i < |dims| ensures dims[i].Fixed? && dims[i] != Fixed(0) {
        assert dims[i] in dims;
      }
    }
  }

  lemma LeafVerdict(field: string, ty: LaicType)
    requires IsLeaf(ty)
    ensures ValidateFieldType(field, ty).Ok? <==> (ty.Tensor? ==> ty.dims != [] && forall d <- ty.dims :: d != Fixed(0))
    ensures ContainableLeaf(ty) <==> ValidateFieldType(field, ty).Ok? && !(ty.Tensor? && HasDynamic(ty.dims))
  {
    if ty.Tensor? {
      DimsConditions(ty.dims);
    }
  }

  /** The mutually recursive constraints accept exactly the six shapes. */
  lemma TypesAcceptedExactly(field: string, ty: LaicType)
    ensures ValidateFieldType(field, ty).Ok? <==> Supported(ty)
  {
    match ty {
      case List(item) =>
        if item.Optional? {
          assert ValidateFieldType(field, item) == ValidateOptionalConstraints(field, item.inner);
          if IsLeaf(item.inner) {
            LeafVerdict(field, item.inner);
          }
        } else if IsLeaf(item) {
          LeafVerdict(field, item);
        }
      case Optional(inner) =>
        if inner.List? {
          assert ValidateFieldType(field, inner) == ValidateListConstraints(field, inner.item);
          if IsLeaf(inner.item) {
            LeafVerdict(field, inner.item);
          }
        } else if IsLeaf(inner) {
          LeafVerdict(field, inner);
        }
      case Map(_, _) =>
      case _ => LeafVerdict(field, ty);
    }
  }

  // Defaults

  predicate Matches(ty: LaicType, default: Literal) {
    || (ty.StringT? && default.StringLit?)
    || (ty.BoolT? && default.BoolLit?)
    || ((ty.I8? || ty.I16? || ty.I32? || ty.I64? || ty.U8? || ty.F32? || ty.F64?) && default.IntegerLit?)
    || ((ty.F32? || ty.F64?) && default.FloatLit?)
  }

  function IntegerDefaultBounds(ty: LaicType): Option<(i64, i64)> {
    match ty
    case I8 => Some((-0x80, 0x7F))
    case I16 => Some((-0x8000, 0x7FFF))
    case I32 => Some((-0x8000_0000, 0x7FFF_FFFF))
    case U8 => Some((0, 0xFF))
    case _ => None
  }

  function ValidateDefaultCompat(field: string, ty: LaicType, default: Literal): Verdict {
    var _ :- Check(!(ty.Tensor? || ty.List? || ty.Optional? || ty.BytesT? || ty.Map?), DefaultNotAllowed(field));
    var _ :- Check(Matches(ty, default), IncompatibleDefault(field));
    var bounds := IntegerDefaultBounds(ty);
    if default.IntegerLit? && bounds.Some? then
      Check(bounds.value.0 <= default.i <= bounds.value.1, DefaultOutOfRange(field))
    else
      Ok(Unit)
  }

  /** The value of a default is a value of the field's type; an integer also stands for a float. */
  predicate InhabitsType(ty: LaicType, default: Literal) {
    match ty
    case StringT => default.StringLit?
    case BoolT => default.BoolLit?
    case I8 => default.IntegerLit? && -0x80 <= default.i < 0x80
    case I16 => default.IntegerLit? && -0x8000 <= default.i < 0x8000
    case I32 => default.IntegerLit? && -0x8000_0000 <= default.i < 0x8000_0000
    case I64 => default.IntegerLit?
    case U8 => default.IntegerLit? && 0 <= default.i < 0x100
    case F32 => default.IntegerLit? || default.FloatLit?
    case F64 => default.IntegerLit? || default.FloatLit?
    case _ => false
  }

  lemma DefaultsAcceptedExactly(field: string, ty: LaicType, default: Literal)
    ensures ValidateDefaultCompat(field, ty, default).Ok? <==> InhabitsType(ty, default)
  {
  }

  // Files

  ghost predicate FieldOk(f: FieldDef, words: seq<string>) {
    f.name !in words && Supported(f.ty) && (f.default.Some? ==> InhabitsType(f.ty, f.default.value))
  }

  ghost predicate StructOk(def: StructDef, words: seq<string>) {
    && def.name != "" && def.fields != [] && def.name !in words
    && (forall i, j :: 0 <= i < j < |def.fields| ==> def.fields[i].name != def.fields[j].name)
    && forall i :: 0 <= i < |def.fields| ==> FieldOk(def.fields[i], words)
  }

  ghost predicate ErrorsOk(errors: seq<ErrorVariant>, words: seq<string>) {
    && (forall i :: 0 <= i < |errors| ==> errors[i].name !in words && errors[i].code > 0)
    && (forall i, j :: 0 <= i < j < |errors| ==> errors[i].name != errors[j].name)
    && (forall i, j :: 0 <= i < j < |errors| ==> errors[i].code != errors[j].code)
  }

  ghost predicate SkillOk(s: SkillDef, words: seq<string>) {
    s.id != "" && s.name !in words && StructOk(s.input, words) && StructOk(s.output, words) && ErrorsOk(s.errors, words)
  }

  ghost predicate AcceptedWith(file: LaicFile, words: seq<string>) {
    && file.version != "" && file.skills != []
    && (forall i, j :: 0 <= i < j < |file.skills| ==> file.skills[i].name != file.skills[j].name)
    && (forall i, j :: 0 <= i < j < |file.skills| ==> file.skills[i].id != file.skills[j].id)
    && forall i :: 0 <= i < |file.skills| ==> SkillOk(file.skills[i], words)
  }

  // The first offence, in the order of the file, is the one that is reported

  ghost predicate Defaultable(ty: LaicType) {
    exists lit :: InhabitsType(ty, lit)
  }

  ghost predicate FieldBlamed(f: FieldDef, e: ValidationError, words: seq<string>) {
    if f.name in words then e == ReservedIdentifier(f.name)
    else if f.default.Some? && !InhabitsType(f.ty, f.default.value) then
      e == (if !Defaultable(f.ty) then DefaultNotAllowed(f.name)
            else if Matches(f.ty, f.default.value) then DefaultOutOfRange(f.name)
            else IncompatibleDefault(f.name))
    else !Supported(f.ty) && e == UnsupportedType(f.name)
  }

  ghost predicate FieldsFine(fields: seq<FieldDef>, n: nat, words: seq<string>)
    requires n <= |fields|
  {
    && (forall i, j :: 0 <= i < j < n ==> fields[i].name != fields[j].name)
    && forall i :: 0 <= i < n ==> FieldOk(fields[i], words)
  }

  ghost predicate FieldsBlamed(fields: seq<FieldDef>, i: nat, e: ValidationError, words: seq<string>) {
    && i < |fields| && FieldsFine(fields, i, words)
    && if exists k :: 0 <= k < i && fields[k].name == fields[i].name then e == DuplicateField(fields[i].name)
       else FieldBlamed(fields[i], e, words)
  }

  ghost predicate StructBlamed(def: StructDef, e: ValidationError, words: seq<string>) {
    if def.name == "" then e == EmptyStructName
    else if def.fields == [] then e == NoFields(def.name)
    else if def.name in words then e == ReservedIdentifier(def.name)
    else exists i: nat :: FieldsBlamed(def.fields, i, e, words)
  }

  ghost predicate ErrorsBlamedAt(errors: seq<ErrorVariant>, i: nat, e: ValidationError, words: seq<string>) {
    && i < |errors| && ErrorsOk(errors[..i], words)
    && var v := errors[i];
    if v.name in words then e == ReservedIdentifier(v.name)
    else if exists k :: 0 <= k < i && errors[k].name == v.name then e == DuplicateErrorName(v.name)
    else if v.code == 0 then e == ZeroErrorCode(v.name)
    else (exists k :: 0 <= k < i && errors[k].code == v.code) && e == DuplicateErrorCode(v.code)
  }

  ghost predicate ErrorsBlamed(errors: seq<ErrorVariant>, e: ValidationError, words: seq<string>) {
    exists i: nat :: ErrorsBlamedAt(errors, i, e, words)
  }

  ghost predicate SkillBlamed(s: SkillDef, e: ValidationError, words: seq<string>) {
    if s.id == "" then e == EmptySkillId(s.name)
    else if s.name in words then e == ReservedIdentifier(s.name)
    else if !StructOk(s.input, words) then StructBlamed(s.input, e, words)
    else if !StructOk(s.output, words) then StructBlamed(s.output, e, words)
    else ErrorsBlamed(s.errors, e, words)
  }

  ghost predicate SkillsFine(skills: seq<SkillDef>, n: nat, words: seq<string>)
    requires n <= |skills|
  {
    && (forall i, j :: 0 <= i < j < n ==> skills[i].name != skills[j].name && skills[i].id != skills[j].id)
    && forall i :: 0 <= i < n ==> SkillOk(skills[i], words)
  }

  ghost predicate SkillsBlamed(skills: seq<SkillDef>, i: nat, e: ValidationError, words: seq<string>) {
    && i < |skills| && SkillsFine(skills, i, words)
    && if exists k :: 0 <= k < i && skills[k].name == skills[i].name then e == DuplicateSkillName(skills[i].name)
       else if exists k :: 0 <= k < i && skills[k].id == skills[i].id then e == DuplicateSkillId(skills[i].id)
       else SkillBlamed(skills[i], e, words)
  }

  ghost predicate Blamed(file: LaicFile, e: ValidationError, words: seq<string>) {
    if file.version == "" then e == EmptyVersion
    else if file.skills == [] then e == NoSkills
    else exists i: nat :: SkillsBlamed(file.skills, i, e, words)
  }

  lemma FieldBlameIsUnique(f: FieldDef, e: ValidationError, d: ValidationError, words: seq<string>)
    requires FieldBlamed(f, e, words)
    ensures !FieldOk(f, words)
    ensures FieldBlamed(f, d, words) ==> d == e
  {
  }

  lemma FieldsBlameIsUnique(fields: seq<FieldDef>, i: nat, j: nat, e: ValidationError, d: ValidationError, words: seq<string>)
    requires FieldsBlamed(fields, i, e, words)
    ensures !FieldsFine(fields, i + 1, words)
    ensures FieldsBlamed(fields, j, d, words) ==> j == i && d == e
  {
    if !(exists k :: 0 <= k < i && fields[k].name == fields[i].name) {
      FieldBlameIsUnique(fields[i], e, d, words);
    }
    if FieldsBlamed(fields, j, d, words) && j < i && !(exists k :: 0 <= k < j && fields[k].name == fields[j].name) {
      FieldBlameIsUnique(fields[j], d, d, words);
    }
  }

  lemma StructBlameIsUnique(def: StructDef, e: ValidationError, d: ValidationError, words: seq<string>)
    requires StructBlamed(def, e, words)
    ensures !StructOk(def, words)
    ensures StructBlamed(def, d, words) ==> d == e
  {
    if def.name != "" && def.fields != [] && def.name !in words {
      var i: nat :| FieldsBlamed(def.fields, i, e, words);
      FieldsBlameIsUnique(def.fields, i, i, e, e, words);
      if StructBlamed(def, d, words) {
        var j: nat :| FieldsBlamed(def.fields, j, d, words);
        FieldsBlameIsUnique(def.fields, i, j, e, d, words);
      }
    }
  }

  lemma ErrorsBlameIsUnique(errors: seq<ErrorVariant>, i: nat, j: nat, e: ValidationError, d: ValidationError, words: seq<string>)
    requires ErrorsBlamedAt(errors, i, e, words) && ErrorsBlamedAt(errors, j, d, words) && j <= i
    ensures !ErrorsOk(errors, words) && i == j && d == e
  {
  }

  lemma SkillBlameIsUnique(s: SkillDef, e: ValidationError, d: ValidationError, words: seq<string>)
    requires SkillBlamed(s, e, words)
    ensures !SkillOk(s, words)
    ensures SkillBlamed(s, d, words) ==> d == e
  {
    if s.id != "" && s.name !in words {
      if !StructOk(s.input, words) {
        StructBlameIsUnique(s.input, e, d, words);
      } else if !StructOk(s.output, words) {
        StructBlameIsUnique(s.output, e, d, words);
      } else {
        var i: nat :| ErrorsBlamedAt(s.errors, i, e, words);
        ErrorsBlameIsUnique(s.errors, i, i, e, e, words);
        if SkillBlamed(s, d, words) {
          var j: nat :| ErrorsBlamedAt(s.errors, j, d, words);
          if j <= i {
            ErrorsBlameIsUnique(s.errors, i, j, e, d, words);
          } else {
            ErrorsBlameIsUnique(s.errors, j, i, d, e, words);
          }
        }
      }
    }
  }

  lemma SkillsBlameIsUnique(skills: seq<SkillDef>, i: nat, j: nat, e: ValidationError, d: ValidationError, words: seq<string>)
    requires SkillsBlamed(skills, i, e, words) && SkillsBlamed(skills, j, d, words) && j <= i
    ensures !SkillsFine(skills, i + 1, words) && i == j && d == e
  {
    if !(exists k :: 0 <= k < j && skills[k].name == skills[j].name) && !(exists k :: 0 <= k < j && skills[k].id == skills[j].id) {
      SkillBlameIsUnique(skills[j], d, e, words);
    }
  }

  /** No accepted file can be blamed, and no file for two errors. */
  lemma BlameIsUnique(file: LaicFile, e: ValidationError, d: ValidationError, words: seq<string>)
    requires Blamed(file, e, words)
    ensures !AcceptedWith(file, words)
    ensures Blamed(file, d, words) ==> d == e
  {
    if file.version != "" && file.skills != [] {
      var i: nat :| SkillsBlamed(file.skills, i, e, words);
      SkillsBlameIsUnique(file.skills, i, i, e, e, words);
      if Blamed(file, d, words) {
        var j: nat :| SkillsBlamed(file.skills, j, d, words);
        if j <= i {
          SkillsBlameIsUnique(file.skills, i, j, e, d, words);
        } else {
          SkillsBlameIsUnique(file.skills, j, i, d, e, words);
        }
      }
    }
  }

  /** The types that have no defaults. */
  lemma DefaultableExactly(ty: LaicType)
    ensures Defaultable(ty) <==> !(ty.Tensor? || ty.List? || ty.Optional? || ty.BytesT? || ty.Map?)
  {
    var lit := if ty.StringT? then StringLit("") else if ty.BoolT? then BoolLit(true) else IntegerLit(0);
    if !(ty.Tensor? || ty.List? || ty.Optional? || ty.BytesT? || ty.Map?) {
      assert InhabitsType(ty, lit);
    }
  }

  lemma TypeErrorsNameTheField(field: string, ty: LaicType)
    ensures ValidateFieldType(field, ty).Err? ==> ValidateFieldType(field, ty).error == UnsupportedType(field)
  {
    match ty {
      case List(item) =>
        TypeErrorsNameTheField(field, item);
      case Optional(inner) =>
        TypeErrorsNameTheField(field, inner);
      case _ =>
    }
  }

  method ValidateIdentifier(identifier: string, words: seq<string>) returns (r: Verdict)
    ensures r == Check(identifier !in words, ReservedIdentifier(identifier))
  {
    if identifier in words {
      return Err(ReservedIdentifier(identifier));
    }
    return Ok(Unit);
  }

  method ValidateField(f: FieldDef, words: seq<string>) returns (r: Verdict)
    ensures r.Ok? <==> FieldOk(f, words)
    ensures r.Err? ==> FieldBlamed(f, r.error, words)
  {
    r := ValidateIdentifier(f.name, words);
    if r.Err? {
      return;
    }
    if f.default.Some? {
      DefaultsAcceptedExactly(f.name, f.ty, f.default.value);
      DefaultableExactly(f.ty);
      r := ValidateDefaultCompat(f.name, f.ty, f.default.value);
      if r.Err? {
        return;
      }
    }
    TypesAcceptedExactly(f.name, f.ty);
    TypeErrorsNameTheField(f.name, f.ty);
    r := ValidateFieldType(f.name, f.ty);
  }

  method ValidateStruct(def: StructDef, words: seq<string>) returns (r: Verdict)
    ensures r.Ok? <==> StructOk(def, words)
    ensures r.Err? ==> StructBlamed(def, r.error, words)
  {
    if def.name == "" {
      return Err(EmptyStructName);
    }
    if def.fields == [] {
      return Err(NoFields(def.name));
    }
    r := ValidateIdentifier(def.name, words);
    if r.Err? {
      return;
    }
    var fieldNames: set<string> := {};
    for i := 0 to |def.fields|
      invariant r.Ok?
      invariant fieldNames == set k | 0 <= k < i :: def.fields[k].name
      invariant forall j, k :: 0 <= j < k < i ==> def.fields[j].name != def.fields[k].name
      invariant forall k :: 0 <= k < i ==> FieldOk(def.fields[k], words)
    {
      var f := def.fields[i];
      if f.name in fieldNames {
        assert FieldsBlamed(def.fields, i, DuplicateField(f.name), words);
        return Err(DuplicateField(f.name));
      }
      fieldNames := fieldNames + {f.name};
      r := ValidateField(f, words);
      if r.Err? {
        assert FieldsBlamed(def.fields, i, r.error, words);
        return;
      }
    }
  }

  method ValidateErrors(errors: seq<ErrorVariant>, words: seq<string>) returns (r: Verdict)
    ensures r.Ok? <==> ErrorsOk(errors, words)
    ensures r.Err? ==> ErrorsBlamed(errors, r.error, words)
  {
    r := Ok(Unit);
    var names: set<string>, codes: set<u16> := {}, {};
    assert errors[..|errors|] == errors;
    for i := 0 to |errors|
      invariant r.Ok?
      invariant names == set k | 0 <= k < i :: errors[k].name
      invariant codes == set k | 0 <= k < i :: errors[k].code
      invariant ErrorsOk(errors[..i], words)
    {
      var v := errors[i];
      r := ValidateIdentifier(v.name, words);
      if r.Err? {
        assert ErrorsBlamedAt(errors, i, r.error, words);
        return;
      }
      if v.name in names {
        assert ErrorsBlamedAt(errors, i, DuplicateErrorName(v.name), words);
        return Err(DuplicateErrorName(v.name));
      }
      names := names + {v.name};
      if v.code == 0 {
        assert ErrorsBlamedAt(errors, i, ZeroErrorCode(v.name), words);
        return Err(ZeroErrorCode(v.name));
      }
      if v.code in codes {
        assert ErrorsBlamedAt(errors, i, DuplicateErrorCode(v.code), words);
        return Err(DuplicateErrorCode(v.code));
      }
      codes := codes + {v.code};
      assert errors[..i + 1] == errors[..i] + [v];
    }
  }

  /** The part of the loop body that looks at one skill alone. */
  method ValidateSkill(skill: SkillDef, words: seq<string>) returns (r: Verdict)
    ensures r.Ok? <==> SkillOk(skill, words)
    ensures r.Err? ==> SkillBlamed(skill, r.error, words)
  {
    if skill.id == "" {
      return Err(EmptySkillId(skill.name));
    }
    r := ValidateIdentifier(skill.name, words);
    if r.Err? {
      return;
    }
    r := ValidateStruct(skill.input, words);
    if r.Err? {
      return;
    }
    r := ValidateStruct(skill.output, words);
    if r.Err? {
      return;
    }
    r := ValidateErrors(skill.errors, words);
  }

  method ValidateWith(file: LaicFile, words: seq<string>) returns (r: Verdict)
    ensures r.Ok? <==> AcceptedWith(file, words)
    ensures r.Err? ==> Blamed(file, r.error, words)
  {
    if file.version == "" {
      return Err(EmptyVersion);
    }
    if file.skills == [] {
      return Err(NoSkills);
    }
    r := Ok(Unit);
    var skillNames: set<string>, skillIds: set<string> := {}, {};
    for i := 0 to |file.skills|
      invariant r.Ok?
      invariant skillNames == set k | 0 <= k < i :: file.skills[k].name
      invariant skillIds == set k | 0 <= k < i :: file.skills[k].id
      invariant forall j, k :: 0 <= j < k < i ==> file.skills[j].name != file.skills[k].name
      invariant forall j, k :: 0 <= j < k < i ==> file.skills[j].id != file.skills[k].id
      invariant forall k :: 0 <= k < i ==> SkillOk(file.skills[k], words)
    {
      var skill := file.skills[i];
      if skill.name in skillNames {
        assert SkillsBlamed(file.skills, i, DuplicateSkillName(skill.name), words);
        return Err(DuplicateSkillName(skill.name));
      }
      skillNames := skillNames + {skill.name};
      if skill.id in skillIds {
        assert SkillsBlamed(file.skills, i, DuplicateSkillId(skill.id), words);
        return Err(DuplicateSkillId(skill.id));
      }
      skillIds := skillIds + {skill.id};
      r := ValidateSkill(skill, words);
      if r.Err? {
        assert SkillsBlamed(file.skills, i, r.error, words);
        return;
      }
    }
  }

  ghost predicate Accepted(file: LaicFile) {
    AcceptedWith(file, RESERVED)
  }

  /** The validator accepts a file exactly when it meets the declarative conditions, and otherwise reports
      the first violation. */
  method Validate(file: LaicFile) returns (r: Verdict)
    ensures r.Ok? <==> Accepted(file)
    ensures r.Err? ==> Blamed(file, r.error, RESERVED)
  {
    r := ValidateWith(file, RESERVED);
  }
}
