/** The textual syntax of types: the grammar's rules as a matcher that yields parse trees, the conversion
    of trees to types, and the printer used for schema inspection. */
module TypeSyntax {
  import opened Wrappers
  import opened Ast
  import opened Text

  // Tokens

  predicate IsAlpha(c: char) {
    'a' <= c <= 'z' || 'A' <= c <= 'Z'
  }

  predicate IsIdentChar(c: char) {
    IsAlpha(c) || IsDigit(c) || c == '_'
  }

  predicate IsIdent(s: string) {
    s != "" && IsAlpha(s[0]) && forall i :: 0 <= i < |s| ==> IsIdentChar(s[i])
  }

  predicate IsBlank(c: char) {
    c == ' ' || c == '\t' || c == '\r' || c == '\n'
  }

  /** The implicit white space and comments between the parts of a rule. */
  function Skip(s: string): (rest: string)
    ensures |rest| <= |s|
    decreases |s|
  {
    if s != "" && IsBlank(s[0]) then Skip(s[1..])
    else if "//" <= s then Skip(RestOfLine(s[2..]))
    else s
  }

  function RestOfLine(s: string): (rest: string)
    ensures |rest| <= |s|
  {
    if s == "" || s[0] == '\n' then s else RestOfLine(s[1..])
  }

  function Lit(token: string, s: string): (r: Option<string>)
    ensures r.Some? ==> |r.value| + |token| == |s|
  {
    if token <= s then Some(s[|token|..]) else None
  }

  /** `~ token` */
  function Next(token: string, s: string): (r: Option<string>)
    ensures r.Some? ==> |r.value| + |token| <= |s|
  {
    Lit(token, Skip(s))
  }

  /** The longest run of characters of a class. */
  function RunLength(s: string, inRun: char -> bool): (n: nat)
    ensures n <= |s|
  {
    if s != "" && inRun(s[0]) then 1 + RunLength(s[1..], inRun) else 0
  }

  // Parse trees

  datatype DimTree = IntegerTree(text: string) | UnderscoreTree | IdentTree(text: string)

  datatype TypeTree =
    | KeywordTree(text: string)
    | MapTree(key: TypeTree, value: TypeTree)
    | ListTree(item: TypeTree)
    | OptionalTree(inner: TypeTree)
    | TensorTree(dtype: string, dims: seq<DimTree>)

  const DTYPES: seq<string> := ["f32", "f64", "i8", "i16", "i32", "i64", "u8", "bool"]
  const KEYWORDS: seq<string> := ["string", "bytes", "bool", "i8", "i16", "i32", "i64", "u8", "f32", "f64"]

  /** Ordered choice among literals. */
  function FirstOf(tokens: seq<string>, s: string): (r: Option<(string, string)>)
    ensures r.Some? ==> r.value.0 in tokens && |r.value.1| + |r.value.0| == |s|
  {
    if tokens == [] then None
    else if tokens[0] <= s then Some((tokens[0], s[|tokens[0]|..]))
    else FirstOf(tokens[1..], s)
  }

  function MatchDimension(s: string): (r: Option<(DimTree, string)>)
    ensures r.Some? ==> |r.value.1| < |s|
  {
    var digits := RunLength(s, IsDigit);
    if digits > 0 then Some((IntegerTree(s[..digits]), s[digits..]))
    else if "_" <= s then Some((UnderscoreTree, s[1..]))
    else if s != "" && IsAlpha(s[0]) then
      var n := 1 + RunLength(s[1..], IsIdentChar);
      Some((IdentTree(s[..n]), s[n..]))
    else None
  }

  /** Zero or more of `"," ~ dimension`. */
  function MatchMoreDims(s: string): (r: (seq<DimTree>, string))
    ensures |r.1| <= |s|
    decreases |s|
  {
    match Next(",", s)
    case None => ([], s)
    case Some(afterComma) =>
      match MatchDimension(Skip(afterComma))
      case None => ([], s)
      case Some((dim, rest)) =>
        var (dims, end) := MatchMoreDims(rest);
        ([dim] + dims, end)
  }

  function MatchDimList(s: string): (r: Option<(seq<DimTree>, string)>)
    ensures r.Some? ==> |r.value.1| < |s|
  {
    var (dim, rest) :- MatchDimension(s);
    var (dims, end) := MatchMoreDims(rest);
    Some(([dim] + dims, end))
  }

  function MatchTensor(s: string): (r: Option<(TypeTree, string)>)
    ensures r.Some? ==> |r.value.1| < |s|
  {
    var s1 :- Lit("tensor", s);
    var s2 :- Next("<", s1);
    var (dtype, s3) :- FirstOf(DTYPES, Skip(s2));
    var s4 :- Next(">", s3);
    var s5 :- Next("[", s4);
    var (dims, s6) :- MatchDimList(Skip(s5));
    var s7 :- Next("]", s6);
    Some((TensorTree(dtype, dims), s7))
  }

  function MatchMap(s: string): (r: Option<(TypeTree, string)>)
    ensures r.Some? ==> |r.value.1| < |s|
    decreases |s|, 0
  {
    var s1 :- Lit("map", s);
    var s2 :- Next("<", s1);
    var (key, s3) :- MatchType(Skip(s2));
    var s4 :- Next(",", s3);
    var (value, s5) :- MatchType(Skip(s4));
    var s6 :- Next(">", s5);
    Some((MapTree(key, value), s6))
  }

  /** `name ~ "<" ~ laic_type ~ ">"` */
  function MatchWrapped(name: string, s: string): (r: Option<(TypeTree, string)>)
    ensures r.Some? ==> |r.value.1| < |s|
    decreases |s|, 0
  {
    var s1 :- Lit(name, s);
    var s2 :- Next("<", s1);
    var (inner, s3) :- MatchType(Skip(s2));
    var s4 :- Next(">", s3);
    Some((inner, s4))
  }

  function MatchType(s: string): (r: Option<(TypeTree, string)>)
    ensures r.Some? ==> |r.value.1| < |s|
    decreases |s|, 1
  {
    match MatchMap(s)
    case Some(m) => Some(m)
    case None =>
      match MatchWrapped("list", s)
      case Some((item, rest)) => Some((ListTree(item), rest))
      case None =>
        match MatchWrapped("optional", s)
        case Some((inner, rest)) => Some((OptionalTree(inner), rest))
        case None =>
          match MatchTensor(s)
          case Some(t) => Some(t)
          case None =>
            match FirstOf(KEYWORDS, s)
            case Some((text, rest)) => KeywordsAreNotEmpty(text); Some((KeywordTree(text), rest))
            case None => None
  }

  lemma KeywordsAreNotEmpty(text: string)
    requires text in KEYWORDS
    ensures text != ""
  {
  }

  // From trees to types

  datatype ParseError = UnknownType(text: string) | UnknownDtype(text: string) | InvalidDimension(text: string)

  function ParseDtype(text: string): Result<TensorElementType, ParseError> {
    match text
    case "f32" => Ok(EF32)
    case "f64" => Ok(EF64)
    case "i8" => Ok(EI8)
    case "i16" => Ok(EI16)
    case "i32" => Ok(EI32)
    case "i64" => Ok(EI64)
    case "u8" => Ok(EU8)
    case "bool" => Ok(EBool)
    case _ => Err(UnknownDtype(text))
  }

  function ParseDimension(tree: DimTree): Result<Dimension, ParseError> {
    match tree
    case UnderscoreTree => Ok(Dynamic(None))
    case IdentTree(text) => Ok(Dynamic(Some(text)))
    case IntegerTree(text) =>
      if AllDigits(text) && text != "" && NumberOf(text) < 0x1_0000_0000_0000_0000 then Ok(Fixed(NumberOf(text)))
      else Err(InvalidDimension(text))
  }

  function ParseDims(trees: seq<DimTree>): Result<seq<Dimension>, ParseError> {
    if trees == [] then Ok([])
    else
      var dims :- ParseDims(trees[..|trees| - 1]);
      var dim :- ParseDimension(trees[|trees| - 1]);
      Ok(dims + [dim])
  }

  /** The loop of `parse_dim_list`. */
  method ParseDimList(trees: seq<DimTree>) returns (r: Result<seq<Dimension>, ParseError>)
    ensures r == ParseDims(trees)
  {
    var dims: seq<Dimension> := [];
    for i := 0 to |trees|
      invariant ParseDims(trees[..i]) == Ok(dims)
    {
      assert trees[..i + 1][..i] == trees[..i];
      var dim := ParseDimension(trees[i]);
      if dim.Err? {
        FirstErrorWins(trees, i);
        return Err(dim.error);
      }
      dims := dims + [dim.value];
    }
    assert trees[..|trees|] == trees;
    return Ok(dims);
  }

  lemma {:induction false} FirstErrorWins(trees: seq<DimTree>, i: nat)
    requires i < |trees| && ParseDims(trees[..i]).Ok? && ParseDimension(trees[i]).Err?
    ensures ParseDims(trees) == Err(ParseDimension(trees[i]).error)
    decreases |trees|
  {
    if i < |trees| - 1 {
      assert trees[..|trees| - 1][..i] == trees[..i];
      FirstErrorWins(trees[..|trees| - 1], i);
    }
  }

  function ParseKeyword(text: string): Result<LaicType, ParseError> {
    match text
    case "string" => Ok(StringT)
    case "bytes" => Ok(BytesT)
    case "bool" => Ok(BoolT)
    case "i8" => Ok(I8)
    case "i16" => Ok(I16)
    case "i32" => Ok(I32)
    case "i64" => Ok(I64)
    case "u8" => Ok(U8)
    case "f32" => Ok(F32)
    case "f64" => Ok(F64)
    case _ => Err(UnknownType(text))
  }

  function ParseLaicType(tree: TypeTree): Result<LaicType, ParseError> {
    match tree
    case KeywordTree(text) => ParseKeyword(text)
    case MapTree(k, v) =>
      var key :- ParseLaicType(k);
      var value :- ParseLaicType(v);
      Ok(Map(key, value))
    case ListTree(item) => var ty :- ParseLaicType(item); Ok(List(ty))
    case OptionalTree(inner) => var ty :- ParseLaicType(inner); Ok(Optional(ty))
    case TensorTree(dtypeText, dimTrees) =>
      var dtype :- ParseDtype(dtypeText);
      var dims :- ParseDims(dimTrees);
      Ok(Tensor(dtype, dims))
  }

  /** The type at the start of `s` and the text behind it. */
  function ParseType(s: string): Option<(Result<LaicType, ParseError>, string)> {
    match MatchType(s) case None => None case Some((tree, rest)) => Some((ParseLaicType(tree), rest))
  }

  // The printer

  function FormatDimension(d: Dimension): string {
    match d
    case Fixed(size) => Decimal(size)
    case Dynamic(Some(name)) => name
    case Dynamic(None) => "_"
  }

  function DimensionParts(dims: seq<Dimension>): seq<string> {
    if dims == [] then [] else [FormatDimension(dims[0])] + DimensionParts(dims[1..])
  }

  function FormatLaicDims(dims: seq<Dimension>): string {
    "[" + Join(DimensionParts(dims), ",") + "]"
  }

  function Wrapped(name: string, parameters: string): string {
    name + ("<" + (parameters + ">"))
  }

  function FormatLaicType(ty: LaicType): string {
    match ty
    case StringT => "string"
    case BytesT => "bytes"
    case BoolT => "bool"
    case I8 => "i8"
    case I16 => "i16"
    case I32 => "i32"
    case I64 => "i64"
    case U8 => "u8"
    case F32 => "f32"
    case F64 => "f64"
    case Tensor(dtype, dims) => "tensor<" + DtypeName(dtype) + ">" + FormatLaicDims(dims)
    case List(item) => Wrapped("list", FormatLaicType(item))
    case Optional(inner) => Wrapped("optional", FormatLaicType(inner))
    case Map(key, value) => Wrapped("map", FormatLaicType(key) + ("," + (" " + FormatLaicType(value))))
  }

  /** Types whose tensors have dimensions, all named by identifiers of the grammar. */
  predicate Printable(ty: LaicType) {
    match ty
    case Tensor(_, dims) => dims != [] && forall d <- dims :: d.Dynamic? && d.name.Some? ==> IsIdent(d.name.value)
    case List(item) => Printable(item)
    case Optional(inner) => Printable(inner)
    case Map(key, value) => Printable(key) && Printable(value)
    case _ => true
  }

  // Trees of printed types

  function DimTreeOf(d: Dimension): DimTree {
    match d
    case Fixed(size) => IntegerTree(Decimal(size))
    case Dynamic(Some(name)) => IdentTree(name)
    case Dynamic(None) => UnderscoreTree
  }

  function DimTreesOf(dims: seq<Dimension>): seq<DimTree> {
    if dims == [] then [] else [DimTreeOf(dims[0])] + DimTreesOf(dims[1..])
  }

  function TreeOf(ty: LaicType): TypeTree {
    match ty
    case Tensor(dtype, dims) => TensorTree(DtypeName(dtype), DimTreesOf(dims))
    case List(item) => ListTree(TreeOf(item))
    case Optional(inner) => OptionalTree(TreeOf(inner))
    case Map(key, value) => MapTree(TreeOf(key), TreeOf(value))
    case _ => KeywordTree(FormatLaicType(ty))
  }

  predicate GoodDim(d: Dimension) {
    d.Dynamic? && d.name.Some? ==> IsIdent(d.name.value)
  }

  lemma ParseDimensionInverts(d: Dimension)
    ensures ParseDimension(DimTreeOf(d)) == Ok(d)
  {
    if d.Fixed? {
      NumberOfDecimal(d.size);
    }
  }

  lemma ParseDimsSnoc(trees: seq<DimTree>, tree: DimTree)
    requires ParseDims(trees).Ok? && ParseDimension(tree).Ok?
    ensures ParseDims(trees + [tree]) == Ok(ParseDims(trees).value + [ParseDimension(tree).value])
  {
    assert (trees + [tree])[..|trees|] == trees;
  }

  lemma {:induction false} ParseDimsInverts(dims: seq<Dimension>)
    ensures ParseDims(DimTreesOf(dims)) == Ok(dims)
  {
    if dims != [] {
      var n := |dims| - 1;
      DimTreesSnoc(dims);
      ParseDimsInverts(dims[..n]);
      ParseDimensionInverts(dims[n]);
      ParseDimsSnoc(DimTreesOf(dims[..n]), DimTreeOf(dims[n]));
      assert dims[..n] + [dims[n]] == dims;
    }
  }

  lemma {:induction false} DimTreesSnoc(dims: seq<Dimension>)
    requires dims != []
    ensures DimTreesOf(dims) == DimTreesOf(dims[..|dims| - 1]) + [DimTreeOf(dims[|dims| - 1])]
    ensures |DimTreesOf(dims)| == |dims|
  {
    if |dims| == 1 {
      assert DimTreesOf(dims[1..]) == [] && DimTreesOf(dims[..0]) == [];
    } else {
      DimTreesSnoc(dims[1..]);
      assert dims[1..][..|dims| - 2] == dims[..|dims| - 1][1..];
    }
  }

  lemma DtypeNames(dtype: TensorElementType)
    ensures ParseDtype(DtypeName(dtype)) == Ok(dtype)
    ensures DtypeName(dtype) != "" && IsAlpha(DtypeName(dtype)[0])
  {
  }

  predicate IsKeyword(ty: LaicType) {
    !ty.Tensor? && !ty.List? && !ty.Optional? && !ty.Map?
  }

  lemma KeywordNames(ty: LaicType)
    requires IsKeyword(ty)
    ensures ParseKeyword(FormatLaicType(ty)) == Ok(ty)
    ensures |FormatLaicType(ty)| >= 2 && IsAlpha(FormatLaicType(ty)[0])
    ensures var t := FormatLaicType(ty);
            !(t[0] == 'm') && !(t[0] == 'l') && !(t[0] == 'o') && !(t[0] == 't')
  {
  }

  lemma {:induction false} TreesConvertBack(ty: LaicType)
    ensures ParseLaicType(TreeOf(ty)) == Ok(ty)
  {
    match ty {
      case Tensor(dtype, dims) =>
        DtypeNames(dtype);
        ParseDimsInverts(dims);
      case List(item) => TreesConvertBack(item);
      case Optional(inner) => TreesConvertBack(inner);
      case Map(key, value) =>
        TreesConvertBack(key);
        TreesConvertBack(value);
      case _ =>
        KeywordNames(ty);
    }
  }
}
