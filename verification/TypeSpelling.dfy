/** What texts a type can be written as, and that the matcher reads exactly these: between any two tokens
    stands anything made of white space and comments. */
module TypeSpelling {
  import opened Wrappers
  import opened Ast
  import opened Text
  import opened TypeSyntax

  /** Identifiers are ASCII letters, digits and underscores, and start with a letter. */
  lemma IdentifiersExactly(s: string)
    ensures IsIdent(s) <==> s != "" && Letter(s[0] as int) && forall i :: 0 <= i < |s| ==> WordChar(s[i] as int)
  {
  }

  predicate Letter(code: int) {
    65 <= code <= 90 || 97 <= code <= 122
  }

  predicate WordChar(code: int) {
    Letter(code) || 48 <= code <= 57 || code == 95
  }

  // Gaps between tokens

  datatype Filler = Blank(c: char) | Comment(text: string)

  type Gap = seq<Filler>

  predicate FillerOk(f: Filler) {
    match f
    case Blank(c) => IsBlank(c)
    case Comment(text) => '\n' !in text
  }

  predicate GapOk(g: Gap) {
    forall i :: 0 <= i < |g| ==> FillerOk(g[i])
  }

  function FillerText(f: Filler): string {
    match f
    case Blank(c) => [c]
    case Comment(text) => "//" + (text + "\n")
  }

  /** The gap, and then the text. */
  function Before(g: Gap, s: string): string {
    if g == [] then s else FillerText(g[0]) + Before(g[1..], s)
  }

  lemma {:induction false} LineEnds(text: string, rest: string)
    requires '\n' !in text
    ensures RestOfLine(text + ("\n" + rest)) == "\n" + rest
  {
    if text == "" {
      assert text + ("\n" + rest) == "\n" + rest;
    } else {
      assert (text + ("\n" + rest))[1..] == text[1..] + ("\n" + rest);
      LineEnds(text[1..], rest);
    }
  }

  lemma SkipsFiller(f: Filler, rest: string)
    requires FillerOk(f)
    ensures Skip(FillerText(f) + rest) == Skip(rest)
  {
    match f {
      case Blank(c) =>
        assert ([c] + rest)[1..] == rest;
      case Comment(text) =>
        var s := FillerText(f) + rest;
        assert s == "//" + (text + ("\n" + rest));
        assert s[2..] == text + ("\n" + rest);
        LineEnds(text, rest);
        assert ("\n" + rest)[1..] == rest;
    }
  }

  lemma {:induction false} SkipsGap(g: Gap, s: string)
    requires GapOk(g)
    ensures Skip(Before(g, s)) == Skip(s)
  {
    if g != [] {
      SkipsFiller(g[0], Before(g[1..], s));
      SkipsGap(g[1..], s);
    }
  }

  lemma {:induction false} FindsLine(s: string) returns (text: string)
    ensures '\n' !in text && s == text + RestOfLine(s)
    ensures RestOfLine(s) == "" || RestOfLine(s)[0] == '\n'
  {
    if s == "" || s[0] == '\n' {
      text := "";
    } else {
      text := FindsLine(s[1..]);
      text := [s[0]] + text;
    }
  }

  /** A comment that something stands behind ends with its line. */
  lemma FindsComment(s: string) returns (text: string, rest: string)
    requires "//" <= s && Skip(s) != ""
    ensures '\n' !in text && |rest| < |s| && s == FillerText(Comment(text)) + rest && Skip(s) == Skip(rest)
  {
    text := FindsLine(s[2..]);
    var line := RestOfLine(s[2..]);
    assert line != "";
    rest := line[1..];
    assert line == "\n" + rest;
    assert s == "//" + (text + ("\n" + rest));
  }

  lemma {:induction false} FindsGap(s: string) returns (g: Gap)
    requires Skip(s) != ""
    ensures GapOk(g) && s == Before(g, Skip(s))
    decreases |s|
  {
    g := [];
    if s != "" && IsBlank(s[0]) {
      var more := FindsGap(s[1..]);
      g := [Blank(s[0])] + more;
      assert g[1..] == more;
    } else if "//" <= s {
      var text, rest := FindsComment(s);
      var more := FindsGap(rest);
      g := [Comment(text)] + more;
      assert g[1..] == more;
    }
  }

  predicate StartsToken(s: string) {
    s != "" && !IsBlank(s[0]) && s[0] != '/'
  }

  lemma SkipsToToken(g: Gap, s: string)
    requires GapOk(g) && StartsToken(s)
    ensures Skip(Before(g, s)) == s
  {
    SkipsGap(g, s);
  }

  lemma LitFinds(token: string, rest: string)
    ensures Lit(token, token + rest) == Some(rest)
  {
  }

  lemma LitFound(token: string, s: string)
    requires Lit(token, s).Some?
    ensures s == token + Lit(token, s).value
  {
  }

  lemma NextFinds(g: Gap, token: string, rest: string)
    requires GapOk(g) && StartsToken(token)
    ensures Next(token, Before(g, token + rest)) == Some(rest)
  {
    assert StartsToken(token + rest);
    SkipsToToken(g, token + rest);
    LitFinds(token, rest);
  }

  lemma NextFound(token: string, s: string) returns (g: Gap)
    requires token != "" && Next(token, s).Some?
    ensures GapOk(g) && s == Before(g, token + Next(token, s).value)
  {
    LitFound(token, Skip(s));
    g := FindsGap(s);
  }

  // Spellings

  /** A further dimension: a gap, a comma, a gap. */
  datatype MoreDim = MoreDim(before: Gap, after: Gap, dim: DimTree)

  datatype Spelling =
    | KeywordSpelling(text: string)
    | MapSpelling(open: Gap, start: Gap, key: Spelling, comma: Gap, next: Gap, value: Spelling, close: Gap)
    | ListSpelling(open: Gap, start: Gap, item: Spelling, close: Gap)
    | OptionalSpelling(open: Gap, start: Gap, inner: Spelling, close: Gap)
    | TensorSpelling(open: Gap, start: Gap, dtype: string, end: Gap, bracket: Gap, list: Gap, first: DimTree,
                     more: seq<MoreDim>, close: Gap)

  predicate DimOk(d: DimTree) {
    match d
    case IntegerTree(text) => text != "" && AllDigits(text)
    case UnderscoreTree => true
    case IdentTree(text) => IsIdent(text)
  }

  predicate MoreOk(more: seq<MoreDim>) {
    forall i :: 0 <= i < |more| ==> GapOk(more[i].before) && GapOk(more[i].after) && DimOk(more[i].dim)
  }

  predicate WellSpelled(sp: Spelling) {
    match sp
    case KeywordSpelling(text) => text in KEYWORDS
    case MapSpelling(open, start, key, comma, next, value, close) =>
      GapOk(open) && GapOk(start) && WellSpelled(key) && GapOk(comma) && GapOk(next) && WellSpelled(value) && GapOk(close)
    case ListSpelling(open, start, item, close) => GapOk(open) && GapOk(start) && WellSpelled(item) && GapOk(close)
    case OptionalSpelling(open, start, inner, close) => GapOk(open) && GapOk(start) && WellSpelled(inner) && GapOk(close)
    case TensorSpelling(open, start, dtype, end, bracket, list, first, more, close) =>
      && GapOk(open) && GapOk(start) && dtype in DTYPES && GapOk(end) && GapOk(bracket) && GapOk(list)
      && DimOk(first) && MoreOk(more) && GapOk(close)
  }

  function MoreTrees(more: seq<MoreDim>): seq<DimTree> {
    if more == [] then [] else [more[0].dim] + MoreTrees(more[1..])
  }

  /** What is spelled. */
  function Spelled(sp: Spelling): TypeTree {
    match sp
    case KeywordSpelling(text) => KeywordTree(text)
    case MapSpelling(_, _, key, _, _, value, _) => MapTree(Spelled(key), Spelled(value))
    case ListSpelling(_, _, item, _) => ListTree(Spelled(item))
    case OptionalSpelling(_, _, inner, _) => OptionalTree(Spelled(inner))
    case TensorSpelling(_, _, dtype, _, _, _, first, more, _) => TensorTree(dtype, [first] + MoreTrees(more))
  }

  function DimText(d: DimTree): string {
    match d
    case IntegerTree(text) => text
    case UnderscoreTree => "_"
    case IdentTree(text) => text
  }

  /** The dimensions, and then the text. */
  function PutMore(more: seq<MoreDim>, s: string): string {
    if more == [] then s
    else Before(more[0].before, "," + Before(more[0].after, DimText(more[0].dim) + PutMore(more[1..], s)))
  }

  /** The spelling, and then the text. */
  function Put(sp: Spelling, rest: string): string {
    match sp
    case KeywordSpelling(text) => text + rest
    case MapSpelling(open, start, key, comma, next, value, close) =>
      "map" + Before(open, "<" + Before(start, Put(key, Before(comma, "," + Before(next, Put(value, Before(close, ">" + rest)))))))
    case ListSpelling(open, start, item, close) =>
      "list" + Before(open, "<" + Before(start, Put(item, Before(close, ">" + rest))))
    case OptionalSpelling(open, start, inner, close) =>
      "optional" + Before(open, "<" + Before(start, Put(inner, Before(close, ">" + rest))))
    case TensorSpelling(open, start, dtype, end, bracket, list, first, more, close) =>
      "tensor" + Before(open, "<" + Before(start, dtype + Before(end, ">" + Before(bracket, "[" + Before(list,
        DimText(first) + PutMore(more, Before(close, "]" + rest)))))))
  }

  // Every spelling is read

  lemma {:induction false} RunStops(run: string, rest: string, inRun: char -> bool)
    requires forall i :: 0 <= i < |run| ==> inRun(run[i])
    requires rest == "" || !inRun(rest[0])
    ensures RunLength(run + rest, inRun) == |run|
  {
    if run == "" {
      assert run + rest == rest;
    } else {
      assert (run + rest)[1..] == run[1..] + rest;
      RunStops(run[1..], rest, inRun);
    }
  }

  predicate EndsWord(s: string) {
    s != "" && !IsIdentChar(s[0])
  }

  lemma DimIsMatched(d: DimTree, rest: string)
    requires DimOk(d) && EndsWord(rest)
    ensures MatchDimension(DimText(d) + rest) == Some((d, rest)) && StartsToken(DimText(d) + rest)
  {
    var text := DimText(d);
    var s := text + rest;
    match d {
      case IntegerTree(_) =>
        RunStops(text, rest, IsDigit);
        assert s[..|text|] == text && s[|text|..] == rest;
      case UnderscoreTree =>
        assert RunLength(s, IsDigit) == 0 && s[1..] == rest;
      case IdentTree(_) =>
        assert RunLength(s, IsDigit) == 0;
        assert s[1..] == text[1..] + rest;
        RunStops(text[1..], rest, IsIdentChar);
        assert s[..|text|] == text && s[|text|..] == rest;
    }
  }

  lemma GapEndsWord(g: Gap, s: string)
    requires GapOk(g) && EndsWord(s)
    ensures EndsWord(Before(g, s))
  {
    if g != [] {
      assert FillerOk(g[0]) && Before(g, s)[0] == FillerText(g[0])[0];
    }
  }

  lemma MoreEndsWord(more: seq<MoreDim>, s: string)
    requires MoreOk(more) && EndsWord(s)
    ensures EndsWord(PutMore(more, s))
  {
    if more != [] {
      GapEndsWord(more[0].before, "," + Before(more[0].after, DimText(more[0].dim) + PutMore(more[1..], s)));
    }
  }

  /** Behind the last dimension stands something that is no comma. */
  lemma {:induction false} MoreAreMatched(more: seq<MoreDim>, s: string)
    requires MoreOk(more) && EndsWord(s) && Next(",", s).None?
    ensures MatchMoreDims(PutMore(more, s)) == (MoreTrees(more), s)
  {
    if more != [] {
      var MoreDim(before, after, dim) := more[0];
      var rest := PutMore(more[1..], s);
      MoreAreMatched(more[1..], s);
      MoreEndsWord(more[1..], s);
      DimIsMatched(dim, rest);
      NextFinds(before, ",", Before(after, DimText(dim) + rest));
      SkipsToToken(after, DimText(dim) + rest);
    }
  }

  lemma DimListIsMatched(first: DimTree, more: seq<MoreDim>, close: Gap, rest: string)
    requires DimOk(first) && MoreOk(more) && GapOk(close)
    ensures var s := DimText(first) + PutMore(more, Before(close, "]" + rest));
            MatchDimList(s) == Some(([first] + MoreTrees(more), Before(close, "]" + rest))) && StartsToken(s)
  {
    var end := Before(close, "]" + rest);
    GapEndsWord(close, "]" + rest);
    SkipsToToken(close, "]" + rest);
    MoreEndsWord(more, end);
    DimIsMatched(first, PutMore(more, end));
    MoreAreMatched(more, end);
  }

  /** In both tables of literals the first two characters tell the entries apart. */
  predicate HeadsDiffer(tokens: seq<string>) {
    && (forall i :: 0 <= i < |tokens| ==> |tokens[i]| >= 2 && IsAlpha(tokens[i][0]))
    && forall i, j :: 0 <= i < j < |tokens| ==> tokens[i][0] != tokens[j][0] || tokens[i][1] != tokens[j][1]
  }

  lemma TablesAreClear()
    ensures HeadsDiffer(KEYWORDS) && HeadsDiffer(DTYPES)
    ensures forall t <- KEYWORDS :: t[0] != 'm' && t[0] != 'l' && t[0] != 'o' && t[0] != 't'
  {
  }

  lemma {:induction false} FirstOfFinds(tokens: seq<string>, token: string, rest: string)
    requires token in tokens && HeadsDiffer(tokens)
    ensures FirstOf(tokens, token + rest) == Some((token, rest)) && StartsToken(token + rest)
  {
    var i :| 0 <= i < |tokens| && tokens[i] == token;
    if i > 0 {
      assert tokens[1..][i - 1] == token;
      FirstOfFinds(tokens[1..], token, rest);
    }
  }

  lemma TensorIsMatched(sp: Spelling, rest: string)
    requires sp.TensorSpelling? && WellSpelled(sp)
    ensures MatchTensor(Put(sp, rest)) == Some((Spelled(sp), rest))
  {
    var TensorSpelling(open, start, dtype, end, bracket, list, first, more, close) := sp;
    var s6 := Before(close, "]" + rest);
    var s5 := Before(list, DimText(first) + PutMore(more, s6));
    var s3 := Before(end, ">" + Before(bracket, "[" + s5));
    var s2 := Before(start, dtype + s3);
    LitFinds("tensor", Before(open, "<" + s2));
    NextFinds(open, "<", s2);
    TablesAreClear();
    FirstOfFinds(DTYPES, dtype, s3);
    SkipsToToken(start, dtype + s3);
    NextFinds(end, ">", Before(bracket, "[" + s5));
    NextFinds(bracket, "[", s5);
    DimListIsMatched(first, more, close, rest);
    SkipsToToken(list, DimText(first) + PutMore(more, s6));
    NextFinds(close, "]", rest);
  }

  lemma WrappedIsMatched(name: string, open: Gap, start: Gap, inner: Spelling, close: Gap, rest: string)
    requires GapOk(open) && GapOk(start) && GapOk(close)
    requires var s := Put(inner, Before(close, ">" + rest));
             StartsToken(s) && MatchType(s) == Some((Spelled(inner), Before(close, ">" + rest)))
    ensures MatchWrapped(name, name + Before(open, "<" + Before(start, Put(inner, Before(close, ">" + rest)))))
            == Some((Spelled(inner), rest))
  {
    var s := Put(inner, Before(close, ">" + rest));
    LitFinds(name, Before(open, "<" + Before(start, s)));
    NextFinds(open, "<", Before(start, s));
    SkipsToToken(start, s);
    NextFinds(close, ">", rest);
  }

  lemma MapIsMatched(sp: Spelling, rest: string)
    requires sp.MapSpelling? && WellSpelled(sp)
    requires var s := Put(sp.value, Before(sp.close, ">" + rest));
             StartsToken(s) && MatchType(s) == Some((Spelled(sp.value), Before(sp.close, ">" + rest)))
    requires var t := Before(sp.comma, "," + Before(sp.next, Put(sp.value, Before(sp.close, ">" + rest))));
             var s := Put(sp.key, t);
             StartsToken(s) && MatchType(s) == Some((Spelled(sp.key), t))
    ensures MatchMap(Put(sp, rest)) == Some((Spelled(sp), rest))
  {
    var MapSpelling(open, start, key, comma, next, value, close) := sp;
    var s4 := Put(value, Before(close, ">" + rest));
    var s3 := Before(comma, "," + Before(next, s4));
    var s2 := Put(key, s3);
    LitFinds("map", Before(open, "<" + Before(start, s2)));
    NextFinds(open, "<", Before(start, s2));
    SkipsToToken(start, s2);
    NextFinds(comma, ",", Before(next, s4));
    SkipsToToken(next, s4);
    NextFinds(close, ">", rest);
  }

  /** A rule that starts with a literal fails on any other first character. */
  lemma RulesNeedTheirLiteral(s: string)
    requires s != ""
    ensures s[0] != 'm' ==> MatchMap(s).None?
    ensures s[0] != 'l' ==> MatchWrapped("list", s).None?
    ensures s[0] != 'o' ==> MatchWrapped("optional", s).None?
    ensures s[0] != 't' ==> MatchTensor(s).None?
  {
    if s[0] != 'm' {
      LitNeedsFirstChar("map", s);
    }
    if s[0] != 'l' {
      LitNeedsFirstChar("list", s);
    }
    if s[0] != 'o' {
      LitNeedsFirstChar("optional", s);
    }
    if s[0] != 't' {
      LitNeedsFirstChar("tensor", s);
    }
  }

  lemma LitNeedsFirstChar(token: string, s: string)
    requires token != "" && s != "" && s[0] != token[0]
    ensures Lit(token, s).None?
  {
  }

  function FirstChar(sp: Spelling): char
    requires WellSpelled(sp)
  {
    TablesAreClear();
    match sp
    case KeywordSpelling(text) => text[0]
    case MapSpelling(_, _, _, _, _, _, _) => 'm'
    case ListSpelling(_, _, _, _) => 'l'
    case OptionalSpelling(_, _, _, _) => 'o'
    case TensorSpelling(_, _, _, _, _, _, _, _, _) => 't'
  }

  lemma SpellingStarts(sp: Spelling, rest: string)
    requires WellSpelled(sp)
    ensures StartsToken(Put(sp, rest)) && Put(sp, rest)[0] == FirstChar(sp)
  {
    TablesAreClear();
  }

  /** Whatever stands between its tokens, a spelled type is read, and what is behind it is left. */
  lemma {:induction false} SpellingIsMatched(sp: Spelling, rest: string)
    requires WellSpelled(sp)
    ensures MatchType(Put(sp, rest)) == Some((Spelled(sp), rest))
    decreases sp
  {
    SpellingStarts(sp, rest);
    RulesNeedTheirLiteral(Put(sp, rest));
    match sp {
      case KeywordSpelling(text) =>
        TablesAreClear();
        FirstOfFinds(KEYWORDS, text, rest);
      case MapSpelling(_, _, key, comma, next, value, close) =>
        var s4 := Put(value, Before(close, ">" + rest));
        SpellingStarts(value, Before(close, ">" + rest));
        SpellingIsMatched(value, Before(close, ">" + rest));
        SpellingStarts(key, Before(comma, "," + Before(next, s4)));
        SpellingIsMatched(key, Before(comma, "," + Before(next, s4)));
        MapIsMatched(sp, rest);
      case ListSpelling(open, start, item, close) =>
        SpellingStarts(item, Before(close, ">" + rest));
        SpellingIsMatched(item, Before(close, ">" + rest));
        WrappedIsMatched("list", open, start, item, close, rest);
      case OptionalSpelling(open, start, inner, close) =>
        SpellingStarts(inner, Before(close, ">" + rest));
        SpellingIsMatched(inner, Before(close, ">" + rest));
        WrappedIsMatched("optional", open, start, inner, close, rest);
      case TensorSpelling(_, _, _, _, _, _, _, _, _) =>
        TensorIsMatched(sp, rest);
    }
  }

  // Nothing else is read

  lemma {:induction false} RunIsInClass(s: string, inRun: char -> bool)
    ensures forall i :: 0 <= i < RunLength(s, inRun) ==> inRun(s[i])
  {
    if s != "" && inRun(s[0]) {
      RunIsInClass(s[1..], inRun);
    }
  }

  lemma DimFound(s: string)
    requires MatchDimension(s).Some?
    ensures var (d, rest) := MatchDimension(s).value;
            DimOk(d) && s == DimText(d) + rest
  {
    RunIsInClass(s, IsDigit);
    RunIsInClass(s[1..], IsIdentChar);
  }

  lemma {:induction false} MoreFound(s: string) returns (more: seq<MoreDim>)
    ensures MoreOk(more) && MoreTrees(more) == MatchMoreDims(s).0 && s == PutMore(more, MatchMoreDims(s).1)
    decreases |s|
  {
    more := [];
    var afterComma := Next(",", s);
    if afterComma.Some? {
      var start := Skip(afterComma.value);
      var dim := MatchDimension(start);
      if dim.Some? {
        DimFound(start);
        var before := NextFound(",", s);
        var after := FindsGap(afterComma.value);
        var others := MoreFound(dim.value.1);
        more := [MoreDim(before, after, dim.value.0)] + others;
        assert more[1..] == others;
      }
    }
  }

  lemma DimListFound(s: string) returns (more: seq<MoreDim>)
    requires MatchDimList(s).Some?
    ensures MoreOk(more)
    ensures var first := MatchDimension(s);
      && first.Some? && DimOk(first.value.0)
      && MatchDimList(s).value.0 == [first.value.0] + MoreTrees(more)
      && s == DimText(first.value.0) + PutMore(more, MatchDimList(s).value.1)
  {
    DimFound(s);
    more := MoreFound(MatchDimension(s).value.1);
  }

  lemma TensorFound(s: string) returns (sp: Spelling)
    requires MatchTensor(s).Some?
    ensures WellSpelled(sp) && Spelled(sp) == MatchTensor(s).value.0 && s == Put(sp, MatchTensor(s).value.1)
  {
    var s1 := Lit("tensor", s).value;
    LitFound("tensor", s);
    var s2 := Next("<", s1).value;
    var open := NextFound("<", s1);
    var (dtype, s3) := FirstOf(DTYPES, Skip(s2)).value;
    FirstOfFound(DTYPES, Skip(s2));
    TablesAreClear();
    var start := FindsGap(s2);
    var s4 := Next(">", s3).value;
    var end := NextFound(">", s3);
    var s5 := Next("[", s4).value;
    var bracket := NextFound("[", s4);
    var s6 := MatchDimList(Skip(s5)).value.1;
    var more := DimListFound(Skip(s5));
    var list := FindsGap(s5);
    var close := NextFound("]", s6);
    sp := TensorSpelling(open, start, dtype, end, bracket, list, MatchDimension(Skip(s5)).value.0, more, close);
  }

  lemma {:induction false} FirstOfFound(tokens: seq<string>, s: string)
    requires FirstOf(tokens, s).Some?
    ensures s == FirstOf(tokens, s).value.0 + FirstOf(tokens, s).value.1
  {
    if !(tokens[0] <= s) {
      FirstOfFound(tokens[1..], s);
    }
  }

  lemma {:induction false} WrappedFound(name: string, s: string) returns (open: Gap, start: Gap, inner: Spelling, close: Gap)
    requires MatchWrapped(name, s).Some?
    ensures GapOk(open) && GapOk(start) && WellSpelled(inner) && GapOk(close)
    ensures Spelled(inner) == MatchWrapped(name, s).value.0
    ensures s == name + Before(open, "<" + Before(start, Put(inner, Before(close, ">" + MatchWrapped(name, s).value.1))))
    decreases |s|, 0
  {
    LitFound(name, s);
    var s1 := Lit(name, s).value;
    open := NextFound("<", s1);
    var s2 := Next("<", s1).value;
    inner := TypeFound(Skip(s2));
    start := FindsGap(s2);
    close := NextFound(">", MatchType(Skip(s2)).value.1);
  }

  lemma {:induction false} MapFound(s: string) returns (sp: Spelling)
    requires MatchMap(s).Some?
    ensures WellSpelled(sp) && Spelled(sp) == MatchMap(s).value.0 && s == Put(sp, MatchMap(s).value.1)
    decreases |s|, 0
  {
    LitFound("map", s);
    var s1 := Lit("map", s).value;
    var open := NextFound("<", s1);
    var s2 := Next("<", s1).value;
    var key := TypeFound(Skip(s2));
    var start := FindsGap(s2);
    var s3 := MatchType(Skip(s2)).value.1;
    var comma := NextFound(",", s3);
    var s4 := Next(",", s3).value;
    var value := TypeFound(Skip(s4));
    var next := FindsGap(s4);
    var close := NextFound(">", MatchType(Skip(s4)).value.1);
    sp := MapSpelling(open, start, key, comma, next, value, close);
  }

  /** Whatever is read is a spelling. */
  lemma {:induction false} TypeFound(s: string) returns (sp: Spelling)
    requires MatchType(s).Some?
    ensures WellSpelled(sp) && Spelled(sp) == MatchType(s).value.0 && s == Put(sp, MatchType(s).value.1)
    decreases |s|, 1
  {
    if MatchMap(s).Some? {
      sp := MapFound(s);
    } else if MatchWrapped("list", s).Some? {
      var open, start, item, close := WrappedFound("list", s);
      sp := ListSpelling(open, start, item, close);
    } else if MatchWrapped("optional", s).Some? {
      var open, start, inner, close := WrappedFound("optional", s);
      sp := OptionalSpelling(open, start, inner, close);
    } else if MatchTensor(s).Some? {
      sp := TensorFound(s);
    } else {
      FirstOfFound(KEYWORDS, s);
      sp := KeywordSpelling(FirstOf(KEYWORDS, s).value.0);
    }
  }

  /** The matcher reads a tree off the front of a text, and leaves the rest, exactly if the text is a spelling
      of the tree with the rest behind it. */
  lemma MatchesExactly(s: string, tree: TypeTree, rest: string)
    ensures MatchType(s) == Some((tree, rest)) <==> exists sp :: WellSpelled(sp) && Spelled(sp) == tree && s == Put(sp, rest)
  {
    if MatchType(s) == Some((tree, rest)) {
      var sp := TypeFound(s);
    }
    if sp :| WellSpelled(sp) && Spelled(sp) == tree && s == Put(sp, rest) {
      SpellingIsMatched(sp, rest);
    }
  }

  // From spellings to types

  /** What stands between the tokens does not matter: every spelling of a type's tree is read as the type. */
  lemma GapsDoNotMatter(ty: LaicType, sp: Spelling, rest: string)
    requires WellSpelled(sp) && Spelled(sp) == TreeOf(ty)
    ensures ParseType(Put(sp, rest)) == Some((Ok(ty), rest))
  {
    SpellingIsMatched(sp, rest);
    TreesConvertBack(ty);
  }

  lemma NamesAreKnown()
    ensures forall text <- KEYWORDS :: ParseKeyword(text).Ok?
    ensures forall text <- DTYPES :: ParseDtype(text).Ok?
  {
  }

  predicate TooLarge(d: DimTree) {
    d.IntegerTree? && AllDigits(d.text) && NumberOf(d.text) >= 0x1_0000_0000_0000_0000
  }

  lemma {:induction false} DimsConvertExactly(trees: seq<DimTree>)
    requires forall d <- trees :: DimOk(d)
    ensures ParseDims(trees).Ok? <==> forall d <- trees :: !TooLarge(d)
    ensures ParseDims(trees).Ok? ==>
              |ParseDims(trees).value| == |trees| && forall d <- ParseDims(trees).value :: GoodDim(d)
    ensures ParseDims(trees).Err? ==>
              exists d <- trees :: TooLarge(d) && ParseDims(trees).error == InvalidDimension(d.text)
  {
    if trees != [] {
      var before, last := trees[..|trees| - 1], trees[|trees| - 1];
      assert last in trees && DimOk(last);
      assert forall d :: d in trees <==> d in before || d == last;
      DimsConvertExactly(before);
    }
  }

  predicate Contains(tree: TypeTree, d: DimTree) {
    match tree
    case KeywordTree(_) => false
    case MapTree(key, value) => Contains(key, d) || Contains(value, d)
    case ListTree(item) => Contains(item, d)
    case OptionalTree(inner) => Contains(inner, d)
    case TensorTree(_, dims) => d in dims
  }

  lemma {:induction false} MoreTreesOk(more: seq<MoreDim>)
    requires MoreOk(more)
    ensures forall d <- MoreTrees(more) :: DimOk(d)
  {
    if more != [] {
      MoreTreesOk(more[1..]);
    }
  }

  /** A spelled tree is a printable type unless one of its sizes does not fit 64 bits, and then the error names
      such a size. */
  lemma {:induction false} SpelledTypes(sp: Spelling)
    requires WellSpelled(sp)
    ensures match ParseLaicType(Spelled(sp))
            case Ok(ty) => Printable(ty) && forall d | Contains(Spelled(sp), d) :: !TooLarge(d)
            case Err(e) => exists d :: Contains(Spelled(sp), d) && TooLarge(d) && e == InvalidDimension(d.text)
  {
    NamesAreKnown();
    match sp {
      case KeywordSpelling(_) =>
      case MapSpelling(_, _, key, _, _, value, _) =>
        SpelledTypes(key);
        SpelledTypes(value);
      case ListSpelling(_, _, item, _) => SpelledTypes(item);
      case OptionalSpelling(_, _, inner, _) => SpelledTypes(inner);
      case TensorSpelling(_, _, _, _, _, _, first, more, _) =>
        MoreTreesOk(more);
        DimsConvertExactly([first] + MoreTrees(more));
    }
  }

  /** The only error that parsing a type can end with is a size that does not fit 64 bits. */
  lemma ErrorsAreSizes(s: string)
    ensures match ParseType(s)
            case Some((Err(e), _)) => exists d :: Contains(MatchType(s).value.0, d) && TooLarge(d) && e == InvalidDimension(d.text)
            case _ => true
  {
    if MatchType(s).Some? {
      var sp := TypeFound(s);
      SpelledTypes(sp);
    }
  }

  // The printed spelling

  const SPACE: Gap := [Blank(' ')]

  function PrintedMore(dims: seq<Dimension>): seq<MoreDim> {
    if dims == [] then [] else [MoreDim([], [], DimTreeOf(dims[0]))] + PrintedMore(dims[1..])
  }

  function Printed(ty: LaicType): Spelling
    requires Printable(ty)
  {
    match ty
    case Tensor(dtype, dims) =>
      TensorSpelling([], [], DtypeName(dtype), [], [], [], DimTreeOf(dims[0]), PrintedMore(dims[1..]), [])
    case List(item) => ListSpelling([], [], Printed(item), [])
    case Optional(inner) => OptionalSpelling([], [], Printed(inner), [])
    case Map(key, value) => MapSpelling([], [], Printed(key), [], SPACE, Printed(value), [])
    case _ => KeywordSpelling(FormatLaicType(ty))
  }

  lemma PrintedDimIsOk(d: Dimension)
    requires GoodDim(d)
    ensures DimOk(DimTreeOf(d)) && DimText(DimTreeOf(d)) == FormatDimension(d)
  {
    if d.Fixed? {
      NumberOfDecimal(d.size);
    }
  }

  lemma {:induction false} PrintedMoreIsOk(dims: seq<Dimension>)
    requires forall d <- dims :: GoodDim(d)
    ensures MoreOk(PrintedMore(dims)) && MoreTrees(PrintedMore(dims)) == DimTreesOf(dims)
  {
    if dims != [] {
      PrintedDimIsOk(dims[0]);
      PrintedMoreIsOk(dims[1..]);
    }
  }

  /** `dims` behind a first dimension, and then the text. */
  lemma {:induction false} PrintedMoreIsText(d: Dimension, dims: seq<Dimension>, s: string)
    requires GoodDim(d) && forall e <- dims :: GoodDim(e)
    ensures Join(DimensionParts([d] + dims), ",") + s == FormatDimension(d) + PutMore(PrintedMore(dims), s)
    decreases |dims|
  {
    assert ([d] + dims)[1..] == dims;
    if dims != [] {
      PrintedDimIsOk(dims[0]);
      PrintedMoreIsText(dims[0], dims[1..], s);
      assert [dims[0]] + dims[1..] == dims;
    }
  }

  lemma {:induction false} PrintedIsWellSpelled(ty: LaicType)
    requires Printable(ty)
    ensures WellSpelled(Printed(ty)) && Spelled(Printed(ty)) == TreeOf(ty)
  {
    match ty {
      case Tensor(dtype, dims) =>
        PrintedDimIsOk(dims[0]);
        PrintedMoreIsOk(dims[1..]);
      case List(item) => PrintedIsWellSpelled(item);
      case Optional(inner) => PrintedIsWellSpelled(inner);
      case Map(key, value) =>
        PrintedIsWellSpelled(key);
        PrintedIsWellSpelled(value);
      case _ =>
    }
  }

  lemma WrappedThen(name: string, parameters: string, rest: string)
    ensures Wrapped(name, parameters) + rest == name + ("<" + (parameters + (">" + rest)))
  {
  }

  lemma TensorThen(dtype: string, dims: string, rest: string)
    ensures "tensor<" + dtype + ">" + ("[" + dims + "]") + rest
            == "tensor" + ("<" + (dtype + (">" + ("[" + (dims + ("]" + rest))))))
  {
  }

  lemma TensorIsText(dtype: TensorElementType, dims: seq<Dimension>, rest: string)
    requires Printable(Tensor(dtype, dims))
    ensures FormatLaicType(Tensor(dtype, dims)) + rest == Put(Printed(Tensor(dtype, dims)), rest)
  {
    assert [dims[0]] + dims[1..] == dims;
    PrintedDimIsOk(dims[0]);
    PrintedMoreIsText(dims[0], dims[1..], "]" + rest);
    TensorThen(DtypeName(dtype), Join(DimensionParts(dims), ","), rest);
  }

  lemma PairThen(key: string, value: string, rest: string)
    ensures key + ("," + (" " + value)) + rest == key + ("," + (" " + (value + rest)))
  {
  }

  lemma MapIsText(key: LaicType, value: LaicType, rest: string)
    requires Printable(key) && Printable(value)
    requires FormatLaicType(value) + (">" + rest) == Put(Printed(value), ">" + rest)
    requires var s := "," + (" " + Put(Printed(value), ">" + rest));
             FormatLaicType(key) + s == Put(Printed(key), s)
    ensures FormatLaicType(Map(key, value)) + rest == Put(Printed(Map(key, value)), rest)
  {
    var k, v := FormatLaicType(key), FormatLaicType(value);
    WrappedThen("map", k + ("," + (" " + v)), rest);
    PairThen(k, v, ">" + rest);
    assert Before(SPACE, Put(Printed(value), ">" + rest)) == " " + Put(Printed(value), ">" + rest) by {
      assert SPACE[1..] == [];
    }
  }

  lemma {:induction false} PrintedIsText(ty: LaicType, rest: string)
    requires Printable(ty)
    ensures FormatLaicType(ty) + rest == Put(Printed(ty), rest)
    decreases ty
  {
    match ty {
      case Tensor(dtype, dims) =>
        TensorIsText(dtype, dims, rest);
      case List(item) =>
        PrintedIsText(item, ">" + rest);
        WrappedThen("list", FormatLaicType(item), rest);
      case Optional(inner) =>
        PrintedIsText(inner, ">" + rest);
        WrappedThen("optional", FormatLaicType(inner), rest);
      case Map(key, value) =>
        PrintedIsText(value, ">" + rest);
        PrintedIsText(key, "," + (" " + Put(Printed(value), ">" + rest)));
        MapIsText(key, value, rest);
      case _ =>
    }
  }

  /** Parsing a printed type, with anything behind it, gives back the type and leaves the rest. */
  lemma ParseInvertsFormat(ty: LaicType, rest: string)
    requires Printable(ty)
    ensures MatchType(FormatLaicType(ty) + rest) == Some((TreeOf(ty), rest))
  {
    PrintedIsWellSpelled(ty);
    PrintedIsText(ty, rest);
    SpellingIsMatched(Printed(ty), rest);
  }

  /** Printing is inverted by parsing exactly on the printable types, and these are exactly the types the
      parser can produce. */
  lemma RoundTripsExactly(ty: LaicType)
    ensures Printable(ty) <==> (forall rest :: ParseType(FormatLaicType(ty) + rest) == Some((Ok(ty), rest)))
    ensures Printable(ty) <==> (exists s, rest :: ParseType(s) == Some((Ok(ty), rest)))
  {
    if Printable(ty) {
      forall rest ensures ParseType(FormatLaicType(ty) + rest) == Some((Ok(ty), rest)) {
        ParseInvertsFormat(ty, rest);
        TreesConvertBack(ty);
      }
      assert ParseType(FormatLaicType(ty) + "") == Some((Ok(ty), ""));
    }
    forall s, rest | ParseType(s) == Some((Ok(ty), rest)) ensures Printable(ty) {
      var sp := TypeFound(s);
      SpelledTypes(sp);
    }
    if forall rest :: ParseType(FormatLaicType(ty) + rest) == Some((Ok(ty), rest)) {
      assert ParseType(FormatLaicType(ty) + "") == Some((Ok(ty), ""));
    }
  }
}
