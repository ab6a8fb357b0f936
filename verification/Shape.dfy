/** Tensor shape metadata: the string all producers print, and the three checks generated code makes of it. */
module Shape {
  import opened Wrappers
  import opened Bytes
  import opened Ast
  import opened Text

  const TWO_53: nat := 0x20_0000_0000_0000

  /** A dynamic dimension is announced as zero. */
  function Announced(d: Dimension): u64 {
    match d case Fixed(size) => size case Dynamic(_) => 0
  }

  function Announcements(dims: seq<Dimension>): (sizes: seq<nat>)
    ensures |sizes| == |dims|
  {
    if dims == [] then [] else [Announced(dims[0])] + Announcements(dims[1..])
  }

  function DecimalParts(sizes: seq<nat>): (parts: seq<string>)
    ensures |parts| == |sizes|
  {
    if sizes == [] then [] else [Decimal(sizes[0])] + DecimalParts(sizes[1..])
  }

  /** `format_dims_as_shape`, `format_ts_dims` and `format_tensor_shape_metadata`. */
  function FormatDims(dims: seq<Dimension>): string {
    "[" + Join(DecimalParts(Announcements(dims)), ",") + "]"
  }

  /** The meaning of the check: equal rank, and equal size wherever the contract fixes one. */
  predicate ShapeMatches(dims: seq<Dimension>, sizes: seq<nat>) {
    |sizes| == |dims| && forall i :: 0 <= i < |dims| && dims[i].Fixed? ==> sizes[i] == dims[i].size
  }

  /** The fixed sizes from the given dimension on. */
  predicate FixedDimsMatch(dims: seq<Dimension>, sizes: seq<int>, from: nat)
    requires |sizes| == |dims|
  {
    forall i :: from <= i < |dims| && dims[i].Fixed? ==> sizes[i] == dims[i].size
  }

  lemma FixedDimsStep(dims: seq<Dimension>, sizes: seq<int>, from: nat)
    requires |sizes| == |dims| && from < |dims|
    ensures FixedDimsMatch(dims, sizes, from) <==>
            (dims[from].Fixed? ==> sizes[from] == dims[from].size) && FixedDimsMatch(dims, sizes, from + 1)
  {
  }

  // The three parsers

  predicate IsBracket(c: char) {
    c == '[' || c == ']'
  }

  /** `str::parse::<usize>` on a 64-bit target. */
  function RustUsize(s: string): Option<nat> {
    var digits := if s != "" && s[0] == '+' then s[1..] else s;
    if digits != "" && AllDigits(digits) && NumberOf(digits) < 0x1_0000_0000_0000_0000 then Some(NumberOf(digits)) else None
  }

  /** Python's `int` on ASCII text: white space around, an optional sign, single underscores between digits. */
  function PythonInt(text: string): Option<int> {
    PythonSigned(Trim(text, IsSpace))
  }

  function PythonSigned(s: string): Option<int> {
    match PythonDigits(WithoutSign(s))
    case None => None
    case Some(n) => Some(if s != "" && s[0] == '-' then -n else n)
  }

  function WithoutSign(s: string): string {
    if s != "" && (s[0] == '-' || s[0] == '+') then s[1..] else s
  }

  function PythonDigits(s: string): Option<int> {
    var groups := Split(s, '_');
    if forall i :: 0 <= i < |groups| ==> groups[i] != "" && AllDigits(groups[i]) then
      DigitsConcat(groups);
      Some(NumberOf(Concat(groups)))
    else None
  }

  function Concat(groups: seq<string>): string {
    if groups == [] then "" else groups[0] + Concat(groups[1..])
  }

  lemma {:induction false} DigitsConcat(groups: seq<string>)
    requires forall i :: 0 <= i < |groups| ==> AllDigits(groups[i])
    ensures AllDigits(Concat(groups))
  {
    if groups != [] {
      DigitsConcat(groups[1..]);
    }
  }

  /** JavaScript's `Number.parseInt(text, 10)`, for results a double represents exactly. */
  function JsParseInt(text: string): Option<int> {
    JsSigned(Trim(text, IsSpace))
  }

  function JsSigned(s: string): Option<int> {
    var digits := LeadingDigits(WithoutSign(s));
    if digits == "" then None
    else
      var n: int := NumberOf(digits);
      Some(if s[0] == '-' then -n else n)
  }

  function LeadingDigits(s: string): (digits: string)
    ensures AllDigits(digits)
  {
    if s != "" && IsDigit(s[0]) then [s[0]] + LeadingDigits(s[1..]) else ""
  }

  function NonEmpty(parts: seq<string>): seq<string> {
    if parts == [] then [] else (if parts[0] == "" then [] else [parts[0]]) + NonEmpty(parts[1..])
  }

  function RustNumbers(parts: seq<string>): Option<seq<nat>> {
    if parts == [] then Some([])
    else
      match RustUsize(Trim(parts[0], IsSpace))
      case None => None
      case Some(n) => match RustNumbers(parts[1..]) case None => None case Some(ns) => Some([n] + ns)
  }

  function PythonNumbers(parts: seq<string>): Option<seq<int>> {
    if parts == [] then Some([])
    else
      match PythonInt(parts[0])
      case None => None
      case Some(n) => match PythonNumbers(parts[1..]) case None => None case Some(ns) => Some([n] + ns)
  }

  function JsNumbers(parts: seq<string>): Option<seq<int>> {
    if parts == [] then Some([])
    else
      match JsParseInt(Trim(parts[0], IsSpace))
      case None => None
      case Some(n) => match JsNumbers(parts[1..]) case None => None case Some(ns) => Some([n] + ns)
  }

  function RustShape(raw: string): Option<seq<nat>> {
    RustNumbers(NonEmpty(Split(Trim(raw, IsBracket), ',')))
  }

  function PythonShape(raw: string): Option<seq<int>> {
    PythonNumbers(NonEmpty(Split(Trim(raw, IsBracket), ',')))
  }

  /** `raw.trim().slice(1, -1).trim()` */
  function JsBody(raw: string): string {
    var t := Trim(raw, IsSpace);
    Trim(if |t| < 2 then "" else t[1..|t| - 1], IsSpace)
  }

  function JsShape(raw: string): Option<seq<int>> {
    if JsBody(raw) == "" then Some([]) else JsNumbers(Split(JsBody(raw), ','))
  }

  // What the parsers make of a printed shape

  lemma {:induction false} PartsAreDigits(sizes: seq<nat>)
    ensures var parts := DecimalParts(sizes);
            forall i :: 0 <= i < |parts| ==> parts[i] != "" && AllDigits(parts[i]) && parts[i] == Decimal(sizes[i])
  {
    if sizes != [] {
      NumberOfDecimal(sizes[0]);
      PartsAreDigits(sizes[1..]);
    }
  }

  lemma {:induction false} JoinChars(parts: seq<string>)
    requires forall i :: 0 <= i < |parts| ==> parts[i] != "" && AllDigits(parts[i])
    ensures forall k :: 0 <= k < |Join(parts, ",")| ==> IsDigit(Join(parts, ",")[k]) || Join(parts, ",")[k] == ','
    ensures parts != [] ==> Join(parts, ",") != ""
  {
    if |parts| > 1 {
      JoinChars(parts[1..]);
    }
  }

  lemma {:induction false} NonEmptyKeeps(parts: seq<string>)
    requires forall i :: 0 <= i < |parts| ==> parts[i] != ""
    ensures NonEmpty(parts) == parts
  {
    if parts != [] {
      NonEmptyKeeps(parts[1..]);
    }
  }

  lemma {:induction false} LeadingDigitsAll(s: string)
    requires AllDigits(s)
    ensures LeadingDigits(s) == s
  {
    if s != "" {
      LeadingDigitsAll(s[1..]);
    }
  }

  /** Each number parser inverts decimal printing. */
  lemma ParsersInvertDecimal(n: nat)
    ensures n < 0x1_0000_0000_0000_0000 ==> RustUsize(Trim(Decimal(n), IsSpace)) == Some(n)
    ensures PythonInt(Decimal(n)) == Some(n)
    ensures JsParseInt(Trim(Decimal(n), IsSpace)) == Some(n)
  {
    NumberOfDecimal(n);
    NumbersAreRead("", "", Decimal(n), "");
    assert "" + ("" + Decimal(n)) + "" == Decimal(n);
  }

  predicate Blank(s: string) {
    forall i :: 0 <= i < |s| ==> IsSpace(s[i])
  }

  lemma {:induction false} TrimStartBlank(lead: string, s: string)
    requires Blank(lead) && s != "" && !IsSpace(s[0])
    ensures TrimStart(lead + s, IsSpace) == s
  {
    if lead == "" {
      assert lead + s == s;
    } else {
      assert (lead + s)[1..] == lead[1..] + s;
      TrimStartBlank(lead[1..], s);
    }
  }

  lemma {:induction false} TrimEndBlank(s: string, trail: string)
    requires Blank(trail) && s != "" && !IsSpace(s[|s| - 1])
    ensures TrimEnd(s + trail, IsSpace) == s
  {
    if trail == "" {
      assert s + trail == s;
    } else {
      assert (s + trail)[..|s + trail| - 1] == s + trail[..|trail| - 1];
      TrimEndBlank(s, trail[..|trail| - 1]);
    }
  }

  lemma TrimBlank(lead: string, s: string, trail: string)
    requires Blank(lead) && Blank(trail) && s != "" && !IsSpace(s[0]) && !IsSpace(s[|s| - 1])
    ensures Trim(lead + s + trail, IsSpace) == s
  {
    assert lead + s + trail == lead + (s + trail);
    TrimStartBlank(lead, s + trail);
    TrimEndBlank(s, trail);
  }

  lemma DigitsAreOneGroup(digits: string)
    requires digits != "" && AllDigits(digits)
    ensures PythonDigits(digits) == Some(NumberOf(digits)) && LeadingDigits(digits) == digits
  {
    LeadingDigitsAll(digits);
    SplitAtSeparator(digits, '_', "");
    assert Concat([digits]) == digits + Concat([]) == digits;
  }

  predicate IsSign(sign: string) {
    sign == "" || sign == "+" || sign == "-"
  }

  lemma SignThenDigits(sign: string, digits: string)
    requires digits != "" && AllDigits(digits) && IsSign(sign)
    ensures sign == "" ==> sign + digits == digits
    ensures sign != "" ==> (sign + digits)[0] == sign[0] && (sign + digits)[1..] == digits
  {
  }

  function Signed(sign: string, n: int): int {
    if sign == "-" then -n else n
  }

  lemma RustReadsSigned(sign: string, digits: string)
    requires digits != "" && AllDigits(digits) && IsSign(sign)
    ensures RustUsize(sign + digits)
            == if sign != "-" && NumberOf(digits) < 0x1_0000_0000_0000_0000 then Some(NumberOf(digits)) else None
  {
    SignThenDigits(sign, digits);
    if sign == "-" {
      assert !IsDigit((sign + digits)[0]);
    }
  }

  lemma PythonReadsSigned(sign: string, digits: string)
    requires digits != "" && AllDigits(digits) && IsSign(sign)
    ensures PythonSigned(sign + digits) == Some(Signed(sign, NumberOf(digits)))
  {
    SignIsDropped(sign, digits);
    DigitsAreOneGroup(digits);
  }

  lemma SignIsDropped(sign: string, digits: string)
    requires digits != "" && AllDigits(digits) && IsSign(sign)
    ensures WithoutSign(sign + digits) == digits && sign + digits != "" && ((sign + digits)[0] == '-' <==> sign == "-")
  {
    SignThenDigits(sign, digits);
  }

  lemma JsReadsSigned(sign: string, digits: string)
    requires digits != "" && AllDigits(digits) && IsSign(sign)
    ensures JsSigned(sign + digits) == Some(Signed(sign, NumberOf(digits)))
  {
    SignIsDropped(sign, digits);
    LeadingDigitsAll(digits);
  }

  /** What the parsers make of a number that another producer wrote with white space, zeros or a sign: all three
      read it without a sign and with a plus, Rust up to 64 bits, and only Rust refuses a minus. */
  lemma NumbersAreRead(lead: string, sign: string, digits: string, trail: string)
    requires Blank(lead) && Blank(trail) && digits != "" && AllDigits(digits) && IsSign(sign)
    ensures var text, n := lead + (sign + digits) + trail, NumberOf(digits);
      && RustUsize(Trim(text, IsSpace)) == (if sign != "-" && n < 0x1_0000_0000_0000_0000 then Some(n) else None)
      && PythonInt(text) == JsParseInt(text) == Some(Signed(sign, n))
  {
    SignThenDigits(sign, digits);
    TrimBlank(lead, sign + digits, trail);
    RustReadsSigned(sign, digits);
    PythonReadsSigned(sign, digits);
    JsReadsSigned(sign, digits);
  }

  lemma {:induction false} NumbersInvertParts(sizes: seq<nat>)
    requires forall i :: 0 <= i < |sizes| ==> sizes[i] < 0x1_0000_0000_0000_0000
    ensures RustNumbers(DecimalParts(sizes)) == Some(sizes)
    ensures PythonNumbers(DecimalParts(sizes)) == Some(sizes)
    ensures JsNumbers(DecimalParts(sizes)) == Some(sizes)
  {
    if sizes != [] {
      ParsersInvertDecimal(sizes[0]);
      NumbersInvertParts(sizes[1..]);
      assert [sizes[0]] + sizes[1..] == sizes;
    }
  }

  /** All three parsers recover the announced sizes from a printed shape, the empty one included. */
  lemma ParsersInvertFormat(dims: seq<Dimension>)
    ensures RustShape(FormatDims(dims)) == Some(Announcements(dims))
    ensures PythonShape(FormatDims(dims)) == Some(Announcements(dims))
    ensures JsShape(FormatDims(dims)) == Some(Announcements(dims))
  {
    var sizes := Announcements(dims);
    var parts := DecimalParts(sizes);
    var body := Join(parts, ",");
    var raw := FormatDims(dims);
    AnnouncementsAt(dims);
    PartsAreDigits(sizes);
    JoinChars(parts);
    assert raw == ['['] + body + [']'];
    assert KeepsAll(body, IsBracket) && KeepsAll(body, IsSpace) && KeepsAll(raw, IsSpace);
    TrimBrackets('[', body, ']', IsBracket);
    TrimKeeps(raw, IsSpace);
    TrimKeeps(body, IsSpace);
    assert raw[1..|raw| - 1] == body;
    if dims != [] {
      SplitInvertsJoin(parts, ',');
      NonEmptyKeeps(parts);
      NumbersInvertParts(sizes);
    } else {
      assert body == "" && Split(body, ',') == [""] && NonEmpty([""]) == [];
    }
  }

  lemma {:induction false} AnnouncementsAt(dims: seq<Dimension>)
    ensures forall i :: 0 <= i < |dims| ==> Announcements(dims)[i] == Announced(dims[i])
  {
    if dims != [] {
      AnnouncementsAt(dims[1..]);
    }
  }

  // The three checks

  predicate RustAccepts(dims: seq<Dimension>, raw: string) {
    var sizes := RustShape(raw);
    sizes.Some? && ShapeMatches(dims, sizes.value)
  }

  predicate PythonAccepts(dims: seq<Dimension>, raw: string) {
    && PythonShape(raw).Some?
    && var sizes := PythonShape(raw).value;
    |sizes| == |dims| && forall i :: 0 <= i < |dims| && dims[i].Fixed? ==> sizes[i] == dims[i].size
  }

  /** The expected shape is itself an announcement, in which zero stands for any size. */
  predicate TypeScriptAccepts(dims: seq<Dimension>, raw: string) {
    && JsShape(raw).Some?
    && var expected := Announcements(dims);
    var actual := JsShape(raw).value;
    |actual| == |expected| && forall i :: 0 <= i < |expected| && expected[i] != 0 ==> actual[i] == expected[i]
  }

  /** The index loop of `laicAssertTensorMetadata`; it reports the first dimension that differs. */
  method AssertTensorShape(expected: seq<nat>, actual: seq<int>) returns (mismatch: Option<int>)
    ensures mismatch.None? <==>
            |actual| == |expected| && forall i :: 0 <= i < |expected| && expected[i] != 0 ==> actual[i] == expected[i]
    ensures mismatch.Some? && |actual| == |expected| ==>
            var k := mismatch.value;
            0 <= k < |expected| && expected[k] != 0 && actual[k] != expected[k]
            && forall i :: 0 <= i < k && expected[i] != 0 ==> actual[i] == expected[i]
  {
    if |actual| != |expected| {
      return Some(|actual|);
    }
    for index := 0 to |expected|
      invariant forall i :: 0 <= i < index && expected[i] != 0 ==> actual[i] == expected[i]
    {
      var expectedDim := expected[index];
      if expectedDim != 0 && actual[index] != expectedDim {
        return Some(index);
      }
    }
    return None;
  }

  /** On any printed shape the Rust and Python checks decide the same thing: equal rank and equal fixed
      sizes. The TypeScript check decides it too, with every fixed zero read as a wildcard. */
  lemma ChecksOnPrintedShapes(dims: seq<Dimension>, printed: seq<Dimension>)
    ensures var raw, sizes := FormatDims(printed), Announcements(printed);
      && (RustAccepts(dims, raw) <==> ShapeMatches(dims, sizes))
      && (PythonAccepts(dims, raw) <==> ShapeMatches(dims, sizes))
      && (TypeScriptAccepts(dims, raw) <==>
            |sizes| == |dims| && forall i :: 0 <= i < |dims| && dims[i].Fixed? && dims[i].size != 0 ==> sizes[i] == dims[i].size)
  {
    ParsersInvertFormat(printed);
    AnnouncementsAt(dims);
  }

  predicate Below53(dims: seq<Dimension>) {
    forall i :: 0 <= i < |dims| ==> Announced(dims[i]) < TWO_53
  }

  function OnesForZeros(dims: seq<Dimension>): (r: seq<Dimension>)
    ensures |r| == |dims|
    ensures forall i :: 0 <= i < |dims| ==> r[i] == if dims[i] == Fixed(0) then Fixed(1) else dims[i]
  {
    seq(|dims|, i requires 0 <= i < |dims| => if dims[i] == Fixed(0) then Fixed(1) else dims[i])
  }

  /** The three checks agree on every printed shape exactly when the contract fixes no dimension to zero,
      which is what the validator demands. */
  lemma ChecksAgreeExactly(dims: seq<Dimension>)
    requires Below53(dims)
    ensures (forall printed | Below53(printed) ::
               (RustAccepts(dims, FormatDims(printed)) <==> PythonAccepts(dims, FormatDims(printed)))
               && (RustAccepts(dims, FormatDims(printed)) <==> TypeScriptAccepts(dims, FormatDims(printed))))
            <==> (forall i :: 0 <= i < |dims| ==> dims[i] != Fixed(0))
  {
    if i :| 0 <= i < |dims| && dims[i] == Fixed(0) {
      var printed := OnesForZeros(dims);
      ChecksOnPrintedShapes(dims, printed);
      AnnouncementsAt(printed);
      assert Announcements(printed)[i] == 1;
      assert !RustAccepts(dims, FormatDims(printed)) && TypeScriptAccepts(dims, FormatDims(printed));
      assert Below53(printed);
    } else {
      forall printed | Below53(printed)
        ensures (RustAccepts(dims, FormatDims(printed)) <==> PythonAccepts(dims, FormatDims(printed)))
                && (RustAccepts(dims, FormatDims(printed)) <==> TypeScriptAccepts(dims, FormatDims(printed)))
      {
        ChecksOnPrintedShapes(dims, printed);
      }
    }
  }
}
