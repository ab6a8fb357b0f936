/** Error enums in generated Rust: variant names in Pascal case, and the three accessors. */
module ErrorEnum {
  import opened Wrappers
  import opened Bytes
  import opened Ast
  import opened Text
  import opened Validate
  import opened Specimens

  // ASCII case mapping; identifiers are ASCII

  predicate IsUpper(c: char) {
    'A' <= c <= 'Z'
  }

  predicate IsLower(c: char) {
    'a' <= c <= 'z'
  }

  predicate IsLetter(c: char) {
    IsUpper(c) || IsLower(c)
  }

  function Upper(c: char): char {
    if IsLower(c) then c - ' ' else c
  }

  function Lower(c: char): char {
    if IsUpper(c) then c + ' ' else c
  }

  function UpperAll(s: string): string {
    if s == "" then "" else [Upper(s[0])] + UpperAll(s[1..])
  }

  function LowerAll(s: string): string {
    if s == "" then "" else [Lower(s[0])] + LowerAll(s[1..])
  }

  function Capitalized(part: string): string {
    if part == "" then "" else [Upper(part[0])] + LowerAll(part[1..])
  }

  function CapitalizeEach(parts: seq<string>): string {
    if parts == [] then "" else Capitalized(parts[0]) + CapitalizeEach(parts[1..])
  }

  function ToPascalCase(s: string): string {
    CapitalizeEach(Split(s, '_'))
  }

  /** What Pascal case keeps of a name: case is forgotten, empty segments vanish, and a segment that does
      not start with a letter runs into the one before it. */
  function Canonical(s: string): string {
    CanonicalEach(Split(s, '_'))
  }

  function CanonicalEach(parts: seq<string>): string {
    if parts == [] then ""
    else (if parts[0] != "" && IsLetter(parts[0][0]) then "_" else "") + (UpperAll(parts[0]) + CanonicalEach(parts[1..]))
  }

  /** The inverse: an underscore before each capital, then everything in upper case. */
  function Unpascal(s: string): string {
    if s == "" then "" else (if IsUpper(s[0]) then "_" else "") + [Upper(s[0])] + Unpascal(s[1..])
  }

  function Repascal(s: string): string {
    if s == "" then ""
    else if s[0] == '_' && |s| > 1 then [s[1]] + Repascal(s[2..])
    else [Lower(s[0])] + Repascal(s[1..])
  }

  lemma {:induction false} RepascalInvertsUnpascal(s: string)
    requires '_' !in s
    ensures Repascal(Unpascal(s)) == s
  {
    if s != "" {
      RepascalInvertsUnpascal(s[1..]);
      var t := Unpascal(s);
      if IsUpper(s[0]) {
        assert t == ['_', s[0]] + Unpascal(s[1..]);
        assert t[2..] == Unpascal(s[1..]);
      } else {
        assert t[1..] == Unpascal(s[1..]);
      }
    }
  }

  lemma {:induction false} UnpascalTail(part: string, rest: string)
    ensures Unpascal(LowerAll(part) + rest) == UpperAll(part) + Unpascal(rest)
  {
    if part == "" {
      assert LowerAll(part) + rest == rest;
    } else {
      assert (LowerAll(part) + rest)[1..] == LowerAll(part[1..]) + rest;
      UnpascalTail(part[1..], rest);
    }
  }

  lemma UpperFacts(c: char)
    ensures Upper(Upper(c)) == Upper(c) && (IsUpper(Upper(c)) <==> IsLetter(c))
  {
  }

  lemma UnpascalCons(c: char, t: string)
    ensures Unpascal([c] + t) == (if IsUpper(c) then "_" else "") + ([Upper(c)] + Unpascal(t))
  {
    assert ([c] + t)[1..] == t;
  }

  lemma UnpascalCapitalized(part: string, rest: string)
    requires part != ""
    ensures Unpascal(Capitalized(part) + rest)
            == (if IsLetter(part[0]) then "_" else "") + (UpperAll(part) + Unpascal(rest))
  {
    var c, tail := Upper(part[0]), part[1..];
    assert Capitalized(part) + rest == [c] + (LowerAll(tail) + rest);
    UnpascalCons(c, LowerAll(tail) + rest);
    UnpascalTail(tail, rest);
    UpperFacts(part[0]);
    assert [c] + (UpperAll(tail) + Unpascal(rest)) == UpperAll(part) + Unpascal(rest);
  }

  lemma {:induction false} UnpascalEach(parts: seq<string>)
    ensures Unpascal(CapitalizeEach(parts)) == CanonicalEach(parts)
  {
    if parts != [] {
      UnpascalEach(parts[1..]);
      if parts[0] == "" {
        assert CapitalizeEach(parts) == CapitalizeEach(parts[1..]);
      } else {
        UnpascalCapitalized(parts[0], CapitalizeEach(parts[1..]));
      }
    }
  }

  lemma {:induction false} SplitHasNoSeparator(s: string)
    ensures forall i :: 0 <= i < |Split(s, '_')| ==> '_' !in Split(s, '_')[i]
  {
    if s != "" {
      SplitHasNoSeparator(s[1..]);
    }
  }

  lemma {:induction false} CapitalizedHasNoUnderscore(parts: seq<string>)
    requires forall i :: 0 <= i < |parts| ==> '_' !in parts[i]
    ensures '_' !in CapitalizeEach(parts)
  {
    if parts != [] {
      CapitalizedHasNoUnderscore(parts[1..]);
      if parts[0] != "" {
        LowerHasNoUnderscore(parts[0][1..]);
      }
    }
  }

  lemma {:induction false} LowerHasNoUnderscore(s: string)
    requires '_' !in s
    ensures '_' !in LowerAll(s)
  {
    if s != "" {
      LowerHasNoUnderscore(s[1..]);
    }
  }

  /** Two names get the same variant exactly when they have the same canonical form. */
  lemma PascalCollidesExactly(a: string, b: string)
    ensures ToPascalCase(a) == ToPascalCase(b) <==> Canonical(a) == Canonical(b)
  {
    UnpascalEach(Split(a, '_'));
    UnpascalEach(Split(b, '_'));
    SplitHasNoSeparator(a);
    SplitHasNoSeparator(b);
    CapitalizedHasNoUnderscore(Split(a, '_'));
    CapitalizedHasNoUnderscore(Split(b, '_'));
    RepascalInvertsUnpascal(ToPascalCase(a));
    RepascalInvertsUnpascal(ToPascalCase(b));
  }

  /** Upper-case names whose underscore-separated segments all start with a letter. */
  predicate Tidy(s: string) {
    && (forall i :: 0 <= i < |s| ==> !IsLower(s[i]))
    && forall i :: 0 <= i < |Split(s, '_')| ==> Split(s, '_')[i] != "" && IsLetter(Split(s, '_')[i][0])
  }

  lemma {:induction false} UpperAllKeeps(s: string)
    requires forall i :: 0 <= i < |s| ==> !IsLower(s[i])
    ensures UpperAll(s) == s
  {
    if s != "" {
      UpperAllKeeps(s[1..]);
    }
  }

  lemma {:induction false} JoinInvertsSplit(s: string)
    ensures Join(Split(s, '_'), "_") == s
  {
    if s != "" {
      JoinInvertsSplit(s[1..]);
      var rest := Split(s[1..], '_');
      if s[0] == '_' {
        assert ([""] + rest)[1..] == rest;
        assert "" + "_" + Join(rest, "_") == s;
      } else {
        var parts := [[s[0]] + rest[0]] + rest[1..];
        assert parts[1..] == rest[1..];
        assert Join(parts, "_") == [s[0]] + Join(rest, "_");
      }
    }
  }

  predicate TidyPart(part: string) {
    part != "" && IsLetter(part[0]) && forall k :: 0 <= k < |part| ==> !IsLower(part[k])
  }

  lemma CanonicalCons(parts: seq<string>)
    requires parts != [] && TidyPart(parts[0])
    ensures CanonicalEach(parts) == "_" + (parts[0] + CanonicalEach(parts[1..]))
  {
    UpperAllKeeps(parts[0]);
  }

  lemma {:induction false} CanonicalOfTidyParts(parts: seq<string>)
    requires parts != [] && forall i :: 0 <= i < |parts| ==> TidyPart(parts[i])
    ensures CanonicalEach(parts) == "_" + Join(parts, "_")
  {
    CanonicalCons(parts);
    if |parts| > 1 {
      CanonicalOfTidyParts(parts[1..]);
      var tail := Join(parts[1..], "_");
      assert parts[0] + ("_" + tail) == parts[0] + "_" + tail;
    } else {
      assert parts[0] + "" == parts[0];
    }
  }

  lemma {:induction false} SplitKeepsChars(s: string)
    ensures forall i, k :: 0 <= i < |Split(s, '_')| && 0 <= k < |Split(s, '_')[i]| ==> Split(s, '_')[i][k] in s
  {
    if s != "" {
      SplitKeepsChars(s[1..]);
    }
  }

  /** On tidy names the explicit inverse recovers the name, so Pascal case is injective on them. */
  lemma TidyNamesInvert(s: string)
    requires Tidy(s)
    ensures Unpascal(ToPascalCase(s)) == "_" + s
    ensures Canonical(s) == "_" + s
  {
    var parts := Split(s, '_');
    SplitKeepsChars(s);
    JoinInvertsSplit(s);
    forall i | 0 <= i < |parts| ensures TidyPart(parts[i]) {
      forall k | 0 <= k < |parts[i]| ensures !IsLower(parts[i][k]) {
        assert parts[i][k] in s;
      }
    }
    CanonicalOfTidyParts(parts);
    UnpascalEach(parts);
  }

  // The generated enum

  /** Discriminants, the arms of `from_code` and the arms of `name`, in source order. */
  datatype EnumCode = EnumCode(variants: seq<(string, u16)>, fromCode: seq<(u16, string)>, names: seq<(string, string)>)

  predicate EnumOf(code: EnumCode, errors: seq<ErrorVariant>) {
    && |code.variants| == |code.fromCode| == |code.names| == |errors|
    && forall i :: 0 <= i < |errors| ==>
         var v := ToPascalCase(errors[i].name);
         code.variants[i] == (v, errors[i].code) && code.fromCode[i] == (errors[i].code, v) && code.names[i] == (v, errors[i].name)
  }

  method GenerateErrorEnum(errors: seq<ErrorVariant>) returns (code: EnumCode)
    ensures EnumOf(code, errors)
  {
    var variants := EmitVariants(errors);
    var fromCode := EmitFromCode(errors);
    var names := EmitNames(errors);
    code := EnumCode(variants, fromCode, names);
  }

  method EmitVariants(errors: seq<ErrorVariant>) returns (out: seq<(string, u16)>)
    ensures |out| == |errors|
    ensures forall i :: 0 <= i < |errors| ==> out[i] == (ToPascalCase(errors[i].name), errors[i].code)
  {
    out := [];
    for i := 0 to |errors|
      invariant |out| == i
      invariant forall k :: 0 <= k < i ==> out[k] == (ToPascalCase(errors[k].name), errors[k].code)
    {
      out := out + [(ToPascalCase(errors[i].name), errors[i].code)];
    }
  }

  method EmitFromCode(errors: seq<ErrorVariant>) returns (out: seq<(u16, string)>)
    ensures |out| == |errors|
    ensures forall i :: 0 <= i < |errors| ==> out[i] == (errors[i].code, ToPascalCase(errors[i].name))
  {
    out := [];
    for i := 0 to |errors|
      invariant |out| == i
      invariant forall k :: 0 <= k < i ==> out[k] == (errors[k].code, ToPascalCase(errors[k].name))
    {
      out := out + [(errors[i].code, ToPascalCase(errors[i].name))];
    }
  }

  method EmitNames(errors: seq<ErrorVariant>) returns (out: seq<(string, string)>)
    ensures |out| == |errors|
    ensures forall i :: 0 <= i < |errors| ==> out[i] == (ToPascalCase(errors[i].name), errors[i].name)
  {
    out := [];
    for i := 0 to |errors|
      invariant |out| == i
      invariant forall k :: 0 <= k < i ==> out[k] == (ToPascalCase(errors[k].name), errors[k].name)
    {
      out := out + [(ToPascalCase(errors[i].name), errors[i].name)];
    }
  }

  /** The first arm that matches. */
  function Lookup<K(==), V>(arms: seq<(K, V)>, key: K): Option<V> {
    if arms == [] then None else if arms[0].0 == key then Some(arms[0].1) else Lookup(arms[1..], key)
  }

  lemma {:induction false} LookupAt<K, V>(arms: seq<(K, V)>, i: nat)
    requires i < |arms| && forall j :: 0 <= j < i ==> arms[j].0 != arms[i].0
    ensures Lookup(arms, arms[i].0) == Some(arms[i].1)
  {
    if i > 0 {
      assert arms[0].0 != arms[i].0;
      LookupAt(arms[1..], i - 1);
    }
  }

  lemma {:induction false} LookupMisses<K, V>(arms: seq<(K, V)>, key: K)
    requires forall j :: 0 <= j < |arms| ==> arms[j].0 != key
    ensures Lookup(arms, key).None?
  {
    if arms != [] {
      LookupMisses(arms[1..], key);
    }
  }

  /** Rust accepts an enum only if no two variants share a name or a discriminant, and none is called
      `Self`, the one keyword that Pascal case can produce from an identifier. */
  predicate Compiles(code: EnumCode) {
    && (forall i, j :: 0 <= i < j < |code.variants| ==>
          code.variants[i].0 != code.variants[j].0 && code.variants[i].1 != code.variants[j].1)
    && forall i :: 0 <= i < |code.variants| ==> code.variants[i].0 != "Self"
  }

  predicate CanonicalDistinct(errors: seq<ErrorVariant>) {
    forall i, j :: 0 <= i < j < |errors| ==> Canonical(errors[i].name) != Canonical(errors[j].name)
  }

  /** No name is `SELF`, in any case and with any stray underscores. */
  predicate NoneIsSelf(errors: seq<ErrorVariant>) {
    forall i :: 0 <= i < |errors| ==> Canonical(errors[i].name) != "_SELF"
  }

  lemma SelfSpelled()
    ensures Split("SELF", '_') == ["SELF"] && UpperAll("SELF") == "SELF" && Capitalized("SELF") == "Self"
  {
    SplitAtSeparator("SELF", '_', "");
    UpperAllKeeps("SELF");
    assert LowerAll("ELF") == "elf" by {
      assert "ELF"[1..] == "LF" && "LF"[1..] == "F" && "F"[1..] == "";
    }
  }

  lemma SelfIsTidy()
    ensures Tidy("SELF") && ToPascalCase("SELF") == "Self" && Canonical("SELF") == "_SELF"
  {
    SelfSpelled();
    assert ["SELF"][1..] == [];
    assert CapitalizeEach(["SELF"]) == Capitalized("SELF") + CapitalizeEach([]);
    TidyNamesInvert("SELF");
  }

  lemma SelfExactly(name: string)
    ensures ToPascalCase(name) == "Self" <==> Canonical(name) == "_SELF"
  {
    SelfIsTidy();
    PascalCollidesExactly(name, "SELF");
  }

  /** For a validated error block the enum compiles exactly when canonical names differ and none is `SELF`, and then
      `from_code`, `code` and `name` are mutually consistent on every variant and every code. */
  lemma EnumAccessors(errors: seq<ErrorVariant>, words: seq<string>, code: EnumCode)
    requires ErrorsOk(errors, words) && EnumOf(code, errors)
    ensures Compiles(code) <==> CanonicalDistinct(errors) && NoneIsSelf(errors)
    ensures Compiles(code) ==> forall i :: 0 <= i < |errors| ==>
              var v := code.variants[i].0;
              && Lookup(code.fromCode, errors[i].code) == Some(v)
              && Lookup(code.variants, v) == Some(errors[i].code)
              && Lookup(code.names, v) == Some(errors[i].name)
    ensures forall c: u16 :: (forall i :: 0 <= i < |errors| ==> errors[i].code != c) ==> Lookup(code.fromCode, c).None?
  {
    forall i, j | 0 <= i < j < |errors|
      ensures code.variants[i].0 != code.variants[j].0 <==> Canonical(errors[i].name) != Canonical(errors[j].name)
      ensures code.variants[i].1 != code.variants[j].1
    {
      PascalCollidesExactly(errors[i].name, errors[j].name);
    }
    forall i | 0 <= i < |errors| ensures code.variants[i].0 != "Self" <==> Canonical(errors[i].name) != "_SELF" {
      SelfExactly(errors[i].name);
    }
    if Compiles(code) {
      forall i | 0 <= i < |errors|
        ensures var v := code.variants[i].0;
                && Lookup(code.fromCode, errors[i].code) == Some(v)
                && Lookup(code.variants, v) == Some(errors[i].code)
                && Lookup(code.names, v) == Some(errors[i].name)
      {
        assert forall j :: 0 <= j < i ==> code.variants[j].0 != code.variants[i].0;
        LookupAt(code.fromCode, i);
        LookupAt(code.variants, i);
        LookupAt(code.names, i);
      }
    }
    forall c: u16 | forall i :: 0 <= i < |errors| ==> errors[i].code != c
      ensures Lookup(code.fromCode, c).None?
    {
      LookupMisses(code.fromCode, c);
    }
  }

  /** Tidy, distinct names compile unless one of them is `SELF`. */
  lemma TidyNamesCompile(errors: seq<ErrorVariant>, words: seq<string>, code: EnumCode)
    requires ErrorsOk(errors, words) && EnumOf(code, errors)
    requires forall i :: 0 <= i < |errors| ==> Tidy(errors[i].name)
    ensures Compiles(code) <==> forall i :: 0 <= i < |errors| ==> errors[i].name != "SELF"
  {
    forall i | 0 <= i < |errors| ensures Canonical(errors[i].name) == "_SELF" <==> errors[i].name == "SELF" {
      TidyNamesInvert(errors[i].name);
      assert ("_" + errors[i].name)[1..] == errors[i].name && "_SELF"[1..] == "SELF";
    }
    forall i, j | 0 <= i < j < |errors| ensures Canonical(errors[i].name) != Canonical(errors[j].name) {
      TidyNamesInvert(errors[i].name);
      TidyNamesInvert(errors[j].name);
      assert ("_" + errors[i].name)[1..] == errors[i].name && ("_" + errors[j].name)[1..] == errors[j].name;
    }
    EnumAccessors(errors, words, code);
  }

  /** The validator reserves `self` and `Self` but not `SELF`, whose enum is not valid Rust. */
  lemma SelfIsAcceptedButDoesNotCompile(code: EnumCode)
    requires EnumOf(code, [ErrorVariant("SELF", 1)])
    ensures ErrorsOk([ErrorVariant("SELF", 1)], RESERVED) && Tidy("SELF") && !Compiles(code)
  {
    var errors := [ErrorVariant("SELF", 1)];
    SelfIsTidy();
    Unreserved("SELF");
    EnumAccessors(errors, RESERVED, code);
    assert Canonical(errors[0].name) == "_SELF";
  }

  lemma SkipEmptyPart(part: string, tail: seq<string>)
    ensures CapitalizeEach([part] + ([""] + tail)) == CapitalizeEach([part] + tail)
  {
    assert ([part] + tail)[1..] == tail && ([part] + ([""] + tail))[1..] == [""] + tail && ([""] + tail)[1..] == tail;
    assert CapitalizeEach([""] + tail) == CapitalizeEach(tail);
  }

  /** Names that differ only in a doubled underscore are accepted side by side, although they collide. */
  lemma DoubledUnderscoresCollide(a: string, b: string, words: seq<string>)
    requires '_' !in a
    requires a + "_" + b !in words && a + "__" + b !in words
    ensures ErrorsOk([ErrorVariant(a + "_" + b, 1), ErrorVariant(a + "__" + b, 2)], words)
    ensures ToPascalCase(a + "_" + b) == ToPascalCase(a + "__" + b)
  {
    var one, two := a + "_" + b, a + "__" + b;
    assert |one| != |two|;
    SplitAtSeparator(a, '_', b);
    SplitAtSeparator(a, '_', "_" + b);
    SplitAtSeparator("", '_', b);
    assert one == a + ['_'] + b && two == a + ['_'] + ("_" + b) && "_" + b == "" + ['_'] + b;
    SkipEmptyPart(a, Split(b, '_'));
  }
}
