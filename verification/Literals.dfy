/** String literals: how the generators escape a string, and how the three target languages read it back. */
module Literals {
  import opened Wrappers

  datatype Dialect = PythonLike | Rust

  const LINE_SEPARATOR: char := '\U{2028}'
  const PARAGRAPH_SEPARATOR: char := '\U{2029}'

  /** Unicode general category Cc. */
  predicate IsControl(c: char) {
    c as int <= 0x1F || 0x7F <= c as int <= 0x9F
  }

  /** The controls above ASCII. */
  predicate IsC1(c: char) {
    0x80 <= c as int <= 0x9F
  }

  function HexDigit(d: nat): char
    requires d < 16
  {
    if d < 10 then '0' + d as char else 'A' + (d - 10) as char
  }

  /** Upper-case hexadecimal in at least `width` digits. */
  function Hex(n: nat, width: nat): string
    decreases n, width
  {
    if n < 16 && width <= 1 then [HexDigit(n)]
    else Hex(n / 16, if width == 0 then 0 else width - 1) + [HexDigit(n % 16)]
  }

  function EscapeChar(c: char, dialect: Dialect): string {
    if c == '\\' then "\\\\"
    else if c == '"' then "\\\""
    else if c == '\n' then "\\n"
    else if c == '\r' then "\\r"
    else if c == '\t' then "\\t"
    else if c == '\0' then (match dialect case PythonLike => "\\x00" case Rust => "\\0")
    else if c == LINE_SEPARATOR then (match dialect case PythonLike => "\\u2028" case Rust => "\\u{2028}")
    else if c == PARAGRAPH_SEPARATOR then (match dialect case PythonLike => "\\u2029" case Rust => "\\u{2029}")
    else if IsControl(c) then
      var code := c as int;
      match dialect
      case PythonLike =>
        if code <= 0xFF then "\\x" + Hex(code, 2)
        else if code <= 0xFFFF then "\\u" + Hex(code, 4)
        else "\\U" + Hex(code, 8)
      case Rust =>
        if code <= 0xFF then "\\x" + Hex(code, 2) else "\\u{" + Hex(code, 1) + "}"
    else [c]
  }

  function Escape(value: string, dialect: Dialect): string {
    if value == "" then "" else EscapeChar(value[0], dialect) + Escape(value[1..], dialect)
  }

  lemma {:induction false} EscapeSnoc(value: string, c: char, dialect: Dialect)
    ensures Escape(value + [c], dialect) == Escape(value, dialect) + EscapeChar(c, dialect)
  {
    if value == "" {
      assert [c][1..] == "";
      assert Escape([c], dialect) == EscapeChar(c, dialect) + Escape("", dialect);
    } else {
      assert (value + [c])[1..] == value[1..] + [c];
      EscapeSnoc(value[1..], c, dialect);
    }
  }

  /** The loop of `escape_string_literal_body`. */
  method EscapeStringLiteralBody(value: string, dialect: Dialect) returns (escaped: string)
    ensures escaped == Escape(value, dialect)
  {
    escaped := "";
    for i := 0 to |value|
      invariant escaped == Escape(value[..i], dialect)
    {
      assert value[..i + 1] == value[..i] + [value[i]];
      EscapeSnoc(value[..i], value[i], dialect);
      escaped := escaped + EscapeChar(value[i], dialect);
    }
    assert value[..|value|] == value;
  }

  function Quoted(value: string, dialect: Dialect): string {
    "\"" + Escape(value, dialect) + "\""
  }

  // Reading literals. A lexer returns the value of the literal and the text behind it.

  type Lexed = Option<(string, string)>

  function Prepend(value: string, lexed: Lexed): Lexed {
    match lexed case None => None case Some((v, rest)) => Some((value + v, rest))
  }

  function HexValue(c: char): Option<nat> {
    if '0' <= c <= '9' then Some(c as int - '0' as int)
    else if 'A' <= c <= 'F' then Some(c as int - 'A' as int + 10)
    else if 'a' <= c <= 'f' then Some(c as int - 'a' as int + 10)
    else None
  }

  function HexNumber(s: string): Option<nat> {
    if s == "" then Some(0)
    else
      match HexNumber(s[..|s| - 1])
      case None => None
      case Some(n) => match HexValue(s[|s| - 1]) case None => None case Some(d) => Some(16 * n + d)
  }

  /** The Unicode scalar value with the given number, if there is one. */
  function Scalar(n: nat): Option<char> {
    if n < 0xD800 || 0xE000 <= n < 0x11_0000 then Some(n as char) else None
  }

  /** Exactly `width` hexadecimal digits naming a character. */
  function FixedHex(s: string, width: nat): Lexed {
    if |s| < width then None
    else
      match HexNumber(s[..width])
      case None => None
      case Some(n) => match Scalar(n) case None => None case Some(c) => Some(([c], s[width..]))
  }

  /** A braced escape: one to six hexadecimal digits up to the closing brace; Rust also skips
      underscores after the first digit. */
  function BracedHex(s: string, digits: string, underscores: bool): Lexed {
    if s == "" then None
    else if s[0] == '}' then
      if digits == "" || |digits| > 6 then None
      else
        match HexNumber(digits)
        case None => None
        case Some(n) => match Scalar(n) case None => None case Some(c) => Some(([c], s[1..]))
    else if s[0] == '_' && underscores && digits != "" then BracedHex(s[1..], digits, underscores)
    else BracedHex(s[1..], digits + [s[0]], underscores)
  }

  // Python: section 2.4.1 of the Python Language Reference

  predicate IsOctal(c: char) {
    '0' <= c <= '7'
  }

  function OctalRun(s: string, max: nat): nat {
    if max > 0 && s != "" && IsOctal(s[0]) then 1 + OctalRun(s[1..], max - 1) else 0
  }

  function OctalValue(s: string): nat
    requires forall i :: 0 <= i < |s| ==> IsOctal(s[i])
  {
    if s == "" then 0
    else
      var last := s[|s| - 1];
      assert IsOctal(last);
      8 * OctalValue(s[..|s| - 1]) + (last as int - '0' as int)
  }

  lemma {:induction false} OctalRunIsOctal(s: string, max: nat)
    ensures OctalRun(s, max) <= |s| && OctalRun(s, max) <= max
    ensures forall i :: 0 <= i < OctalRun(s, max) ==> IsOctal(s[i])
  {
    if max > 0 && s != "" && IsOctal(s[0]) {
      OctalRunIsOctal(s[1..], max - 1);
    }
  }

  /** What follows a backslash. Named characters need the Unicode name table and are not read here. */
  function PythonEscape(s: string): (r: Lexed)
    ensures r.Some? ==> |r.value.1| < |s|
  {
    if s == "" then None
    else
      var rest := s[1..];
      match s[0]
      case '\n' => Some(("", rest))
      case '\\' => Some(("\\", rest))
      case '\'' => Some(("'", rest))
      case '"' => Some(("\"", rest))
      case 'a' => Some((['\U{7}'], rest))
      case 'b' => Some((['\U{8}'], rest))
      case 'f' => Some((['\U{C}'], rest))
      case 'n' => Some(("\n", rest))
      case 'r' => Some(("\r", rest))
      case 't' => Some(("\t", rest))
      case 'v' => Some((['\U{B}'], rest))
      case 'x' => FixedHex(rest, 2)
      case 'u' => FixedHex(rest, 4)
      case 'U' => FixedHex(rest, 8)
      case 'N' => None
      case c =>
        if IsOctal(c) then
          OctalRunIsOctal(s, 3);
          var n := OctalRun(s, 3);
          (match Scalar(OctalValue(s[..n])) case None => None case Some(d) => Some(([d], s[n..])))
        else Some((['\\', c], rest))
  }

  function PythonShort(s: string): Lexed
    decreases |s|
  {
    if s == "" then None
    else if s[0] == '"' then Some(("", s[1..]))
    else if s[0] == '\\' then
      match PythonEscape(s[1..]) case None => None case Some((v, rest)) => Prepend(v, PythonShort(rest))
    else if s[0] == '\n' || s[0] == '\r' || s[0] == '\0' then None
    else Prepend([s[0]], PythonShort(s[1..]))
  }

  function PythonLong(s: string): Lexed
    decreases |s|
  {
    if s == "" then None
    else if |s| >= 3 && s[..3] == "\"\"\"" then Some(("", s[3..]))
    else if s[0] == '\\' then
      match PythonEscape(s[1..]) case None => None case Some((v, rest)) => Prepend(v, PythonLong(rest))
    else if s[0] == '\0' then None
    else Prepend([s[0]], PythonLong(s[1..]))
  }

  /** Three quotes in a row open a long string. */
  function LexPython(s: string): Lexed {
    if |s| >= 3 && s[..3] == "\"\"\"" then PythonLong(s[3..])
    else if s != "" && s[0] == '"' then PythonShort(s[1..])
    else None
  }

  // ECMAScript: section 12.9.4 of ECMA-262, in strict mode

  function JsEscape(s: string): (r: Lexed)
    ensures r.Some? ==> |r.value.1| < |s|
  {
    if s == "" then None
    else
      var rest := s[1..];
      match s[0]
      case '\r' => Some(("", if rest != "" && rest[0] == '\n' then rest[1..] else rest))
      case '\n' => Some(("", rest))
      case 'b' => Some((['\U{8}'], rest))
      case 'f' => Some((['\U{C}'], rest))
      case 'n' => Some(("\n", rest))
      case 'r' => Some(("\r", rest))
      case 't' => Some(("\t", rest))
      case 'v' => Some((['\U{B}'], rest))
      case 'x' => FixedHex(rest, 2)
      case 'u' =>
        if rest != "" && rest[0] == '{' then
          BracedHexConsumes(rest[1..], "", false);
          BracedHex(rest[1..], "", false)
        else FixedHex(rest, 4)
      case c =>
        if c == LINE_SEPARATOR || c == PARAGRAPH_SEPARATOR then Some(("", rest))
        else if c == '0' && (rest == "" || !('0' <= rest[0] <= '9')) then Some((['\0'], rest))
        else if '0' <= c <= '9' then None
        else Some(([c], rest))
  }

  lemma {:induction false} BracedHexConsumes(s: string, digits: string, underscores: bool)
    ensures BracedHex(s, digits, underscores).Some? ==> |BracedHex(s, digits, underscores).value.1| < |s|
    decreases s
  {
    if s != "" && s[0] != '}' {
      BracedHexConsumes(s[1..], digits, underscores);
      BracedHexConsumes(s[1..], digits + [s[0]], underscores);
    }
  }

  function JsString(s: string): Lexed
    decreases |s|
  {
    if s == "" then None
    else if s[0] == '"' then Some(("", s[1..]))
    else if s[0] == '\\' then
      match JsEscape(s[1..]) case None => None case Some((v, rest)) => Prepend(v, JsString(rest))
    else if s[0] == '\n' || s[0] == '\r' then None
    else Prepend([s[0]], JsString(s[1..]))
  }

  function LexJs(s: string): Lexed {
    if s != "" && s[0] == '"' then JsString(s[1..]) else None
  }

  // Rust: the string literals of the Tokens chapter of the Rust Reference

  function SkipBlanks(s: string): (r: string)
    ensures |r| <= |s|
  {
    if s != "" && (s[0] == ' ' || s[0] == '\t' || s[0] == '\n' || s[0] == '\r') then SkipBlanks(s[1..]) else s
  }

  function RustEscape(s: string): (r: Lexed)
    ensures r.Some? ==> |r.value.1| < |s|
  {
    if s == "" then None
    else
      var rest := s[1..];
      match s[0]
      case '\n' => Some(("", SkipBlanks(rest)))
      case '\\' => Some(("\\", rest))
      case '\'' => Some(("'", rest))
      case '"' => Some(("\"", rest))
      case 'n' => Some(("\n", rest))
      case 'r' => Some(("\r", rest))
      case 't' => Some(("\t", rest))
      case '0' => Some((['\0'], rest))
      case 'x' => if rest != "" && IsOctal(rest[0]) then FixedHex(rest, 2) else None
      case 'u' =>
        if rest != "" && rest[0] == '{' then
          BracedHexConsumes(rest[1..], "", true);
          BracedHex(rest[1..], "", true)
        else None
      case _ => None
  }

  function RustString(s: string): Lexed
    decreases |s|
  {
    if s == "" then None
    else if s[0] == '"' then Some(("", s[1..]))
    else if s[0] == '\\' then
      match RustEscape(s[1..]) case None => None case Some((v, rest)) => Prepend(v, RustString(rest))
    else if s[0] == '\r' then None
    else Prepend([s[0]], RustString(s[1..]))
  }

  function LexRust(s: string): Lexed {
    if s != "" && s[0] == '"' then RustString(s[1..]) else None
  }

  // One character at a time

  lemma HexDigitValue(d: nat)
    requires d < 16
    ensures HexValue(HexDigit(d)) == Some(d)
  {
  }

  lemma TwoDigits(code: nat)
    requires code <= 0xFF
    ensures Hex(code, 2) == [HexDigit(code / 16), HexDigit(code % 16)]
  {
    assert Hex(code / 16, 1) == [HexDigit(code / 16)];
    assert Hex(code, 2) == Hex(code / 16, 1) + [HexDigit(code % 16)];
  }

  lemma TwoHexDigits(code: nat)
    requires code <= 0xFF
    ensures Hex(code, 2) == [HexDigit(code / 16), HexDigit(code % 16)]
    ensures HexNumber(Hex(code, 2)) == Some(code)
  {
    TwoDigits(code);
    HexDigitValue(code / 16);
    HexDigitValue(code % 16);
    HexPair(HexDigit(code / 16), HexDigit(code % 16));
  }

  lemma HexPair(c: char, d: char)
    requires HexValue(c).Some? && HexValue(d).Some?
    ensures HexNumber([c, d]) == Some(16 * HexValue(c).value + HexValue(d).value)
  {
    assert [c, d][..1] == [c] && [c][..0] == "";
    assert HexNumber([c]) == Some(HexValue(c).value);
  }

  lemma HexEscape(code: nat, tail: string)
    requires code <= 0xFF
    ensures FixedHex(Hex(code, 2) + tail, 2) == Some(([code as char], tail))
  {
    TwoHexDigits(code);
    assert (Hex(code, 2) + tail)[..2] == Hex(code, 2);
  }

  lemma Separators()
    ensures HexNumber("2028") == Some(0x2028) && HexNumber("2029") == Some(0x2029)
  {
    assert "2"[..0] == "";
    assert "20"[..1] == "2";
    assert "202"[..2] == "20";
    assert "2028"[..3] == "202" && "2029"[..3] == "202";
  }

  lemma BracedSeparator(last: char, tail: string)
    requires last == '8' || last == '9'
    ensures BracedHex("202" + [last] + "}" + tail, "", true)
            == Some(([if last == '8' then LINE_SEPARATOR else PARAGRAPH_SEPARATOR], tail))
  {
    Separators();
    var s := "202" + [last] + "}" + tail;
    var end := "}" + tail;
    assert s[1..] == "02" + [last] + end && s[1..][1..] == "2" + [last] + end;
    assert ("2" + [last] + end)[1..] == [last] + end && ([last] + end)[1..] == end;
    assert "" + ['2'] == "2" && "2" + ['0'] == "20" && "20" + ['2'] == "202";
    assert BracedHex(end, "202" + [last], true) == BracedHex([last] + end, "202", true);
    assert BracedHex([last] + end, "202", true) == BracedHex("2" + [last] + end, "20", true);
    assert BracedHex("2" + [last] + end, "20", true) == BracedHex(s[1..], "2", true);
    assert "202" + [last] == if last == '8' then "2028" else "2029";
    assert end[1..] == tail;
  }

  /** The escapes are a backslash, a letter and an operand. */
  lemma AfterBackslash(letter: char, operand: string, tail: string)
    ensures var s := ['\\', letter] + operand + tail;
            s[0] == '\\' && s[1..] == [letter] + operand + tail && s[1..][1..] == operand + tail
  {
  }

  lemma PythonReadsHex(code: nat, tail: string)
    requires code <= 0xFF
    ensures PythonShort("\\x" + Hex(code, 2) + tail) == Prepend([code as char], PythonShort(tail))
  {
    AfterBackslash('x', Hex(code, 2), tail);
    HexEscape(code, tail);
  }

  lemma JsReadsHex(code: nat, tail: string)
    requires code <= 0xFF
    ensures JsString("\\x" + Hex(code, 2) + tail) == Prepend([code as char], JsString(tail))
  {
    AfterBackslash('x', Hex(code, 2), tail);
    HexEscape(code, tail);
  }

  lemma RustReadsHex(code: nat, tail: string)
    requires code <= 0xFF
    ensures RustString("\\x" + Hex(code, 2) + tail)
            == if code >= 0x80 then None else Prepend([code as char], RustString(tail))
  {
    AfterBackslash('x', Hex(code, 2), tail);
    TwoHexDigits(code);
    HexEscape(code, tail);
    assert (Hex(code, 2) + tail)[0] == HexDigit(code / 16);
  }

  lemma SeparatorDigits(last: char, tail: string)
    requires last == '8' || last == '9'
    ensures var digits := "202" + [last];
      && digits == (if last == '8' then "2028" else "2029") && HexNumber(digits).Some?
      && (digits + tail)[..4] == digits && (digits + tail)[4..] == tail
      && "\\u202" + [last] + tail == ['\\', 'u'] + digits + tail
  {
    Separators();
  }

  lemma PythonReadsSeparator(last: char, tail: string)
    requires last == '8' || last == '9'
    ensures PythonShort("\\u202" + [last] + tail)
            == Prepend([if last == '8' then LINE_SEPARATOR else PARAGRAPH_SEPARATOR], PythonShort(tail))
  {
    Separators();
    SeparatorDigits(last, tail);
    AfterBackslash('u', "202" + [last], tail);
  }

  lemma JsReadsSeparator(last: char, tail: string)
    requires last == '8' || last == '9'
    ensures JsString("\\u202" + [last] + tail)
            == Prepend([if last == '8' then LINE_SEPARATOR else PARAGRAPH_SEPARATOR], JsString(tail))
  {
    Separators();
    SeparatorDigits(last, tail);
    AfterBackslash('u', "202" + [last], tail);
  }

  lemma RustReadsSeparator(last: char, tail: string)
    requires last == '8' || last == '9'
    ensures RustString("\\u{202" + [last] + "}" + tail)
            == Prepend([if last == '8' then LINE_SEPARATOR else PARAGRAPH_SEPARATOR], RustString(tail))
  {
    BracedSeparator(last, tail);
    var operand := "{202" + [last] + "}";
    AfterBackslash('u', operand, tail);
    assert "\\u{202" + [last] + "}" + tail == ['\\', 'u'] + operand + tail;
    assert (operand + tail)[1..] == "202" + [last] + "}" + tail;
  }

  predicate PlainEscape(c: char) {
    c == '\\' || c == '"' || c == '\n' || c == '\r' || c == '\t'
  }

  predicate IsSeparator(c: char) {
    c == LINE_SEPARATOR || c == PARAGRAPH_SEPARATOR
  }

  function LastDigit(c: char): char {
    if c == LINE_SEPARATOR then '8' else '9'
  }

  lemma EscapeForms(c: char)
    ensures PlainEscape(c) ==>
              && EscapeChar(c, PythonLike) == EscapeChar(c, Rust)
              && |EscapeChar(c, Rust)| == 2 && EscapeChar(c, Rust)[0] == '\\'
    ensures c == '\0' ==> EscapeChar(c, Rust) == ['\\', '0']
    ensures IsSeparator(c) ==>
              && EscapeChar(c, PythonLike) == "\\u202" + [LastDigit(c)]
              && EscapeChar(c, Rust) == "\\u{202" + [LastDigit(c)] + "}"
    ensures IsControl(c) && !PlainEscape(c) ==>
              && EscapeChar(c, PythonLike) == "\\x" + Hex(c as int, 2)
              && (c != '\0' ==> EscapeChar(c, Rust) == "\\x" + Hex(c as int, 2))
    ensures !PlainEscape(c) && !IsSeparator(c) && !IsControl(c) ==>
              EscapeChar(c, PythonLike) == [c] && EscapeChar(c, Rust) == [c]
  {
    TwoHexDigits(0);
    assert "\\x00" == "\\x" + Hex(0, 2);
  }

  /** A two-character escape is a backslash and a letter. */
  lemma PlainEscapeSplits(c: char, tail: string)
    requires PlainEscape(c)
    ensures var s := EscapeChar(c, Rust) + tail;
            EscapeChar(c, PythonLike) + tail == s && s[0] == '\\' && s[1..] == [EscapeChar(c, Rust)[1]] + tail
            && s[1..][1..] == tail
  {
    EscapeForms(c);
  }

  lemma PythonReadsPlain(c: char, tail: string)
    requires PlainEscape(c)
    ensures PythonShort(EscapeChar(c, PythonLike) + tail) == Prepend([c], PythonShort(tail))
  {
    PlainEscapeSplits(c, tail);
  }

  lemma JsReadsPlain(c: char, tail: string)
    requires PlainEscape(c)
    ensures JsString(EscapeChar(c, PythonLike) + tail) == Prepend([c], JsString(tail))
  {
    PlainEscapeSplits(c, tail);
  }

  lemma RustReadsPlain(c: char, tail: string)
    requires PlainEscape(c)
    ensures RustString(EscapeChar(c, Rust) + tail) == Prepend([c], RustString(tail))
  {
    PlainEscapeSplits(c, tail);
  }

  lemma PythonLikeReadsChar(c: char, tail: string)
    ensures PythonShort(EscapeChar(c, PythonLike) + tail) == Prepend([c], PythonShort(tail))
    ensures JsString(EscapeChar(c, PythonLike) + tail) == Prepend([c], JsString(tail))
  {
    EscapeForms(c);
    if PlainEscape(c) {
      PythonReadsPlain(c, tail);
      JsReadsPlain(c, tail);
    } else if IsSeparator(c) {
      PythonReadsSeparator(LastDigit(c), tail);
      JsReadsSeparator(LastDigit(c), tail);
    } else if IsControl(c) {
      PythonReadsHex(c as int, tail);
      JsReadsHex(c as int, tail);
    } else {
      assert ([c] + tail)[1..] == tail;
    }
  }

  lemma RustReadsNul(tail: string)
    ensures RustString(['\\', '0'] + tail) == Prepend(['\0'], RustString(tail))
  {
    var s := ['\\', '0'] + tail;
    assert s[1..] == ['0'] + tail && s[1..][1..] == tail;
    assert RustEscape(s[1..]) == Some((['\0'], tail));
  }

  lemma RustReadsRaw(c: char, tail: string)
    requires !PlainEscape(c)
    ensures RustString([c] + tail) == Prepend([c], RustString(tail))
  {
    assert ([c] + tail)[1..] == tail;
  }

  lemma RustReadsChar(c: char, tail: string)
    ensures RustString(EscapeChar(c, Rust) + tail) == if IsC1(c) then None else Prepend([c], RustString(tail))
  {
    EscapeForms(c);
    if PlainEscape(c) {
      RustReadsPlain(c, tail);
    } else if c == '\0' {
      RustReadsNul(tail);
    } else if IsSeparator(c) {
      RustReadsSeparator(LastDigit(c), tail);
    } else if IsControl(c) {
      RustReadsHex(c as int, tail);
    } else {
      RustReadsRaw(c, tail);
    }
  }

  // Whole literals

  predicate HasC1(value: string) {
    exists i :: 0 <= i < |value| && IsC1(value[i])
  }

  lemma {:induction false} PythonReadsBody(value: string, suffix: string)
    ensures PythonShort(Escape(value, PythonLike) + "\"" + suffix) == Some((value, suffix))
  {
    var end := "\"" + suffix;
    if value == "" {
      assert Escape(value, PythonLike) + "\"" + suffix == end && end[1..] == suffix;
    } else {
      var e := EscapeChar(value[0], PythonLike);
      var tail := Escape(value[1..], PythonLike) + "\"" + suffix;
      assert Escape(value, PythonLike) + "\"" + suffix == e + tail;
      PythonLikeReadsChar(value[0], tail);
      PythonReadsBody(value[1..], suffix);
      assert [value[0]] + value[1..] == value;
    }
  }

  lemma {:induction false} PythonLongConsumes(s: string)
    ensures PythonLong(s).Some? ==> |PythonLong(s).value.1| + 3 <= |s|
    decreases |s|
  {
    if s != "" && !(|s| >= 3 && s[..3] == "\"\"\"") {
      if s[0] == '\\' {
        var e := PythonEscape(s[1..]);
        if e.Some? {
          PythonLongConsumes(e.value.1);
        }
      } else {
        PythonLongConsumes(s[1..]);
      }
    }
  }

  lemma {:induction false} EscapeIsNonEmpty(value: string, dialect: Dialect)
    requires value != ""
    ensures Escape(value, dialect) != "" && Escape(value, dialect)[0] != '"'
  {
    assert EscapeChar(value[0], dialect) != "" && EscapeChar(value[0], dialect)[0] != '"';
  }

  /** Python reads an emitted literal back, whatever text follows, unless an empty literal is followed by
      a third quote. */
  lemma PythonRoundTrip(value: string, suffix: string)
    ensures LexPython(Quoted(value, PythonLike) + suffix) == Some((value, suffix))
            <==> !(value == "" && suffix != "" && suffix[0] == '"')
  {
    var s := Quoted(value, PythonLike) + suffix;
    assert s[1..] == Escape(value, PythonLike) + "\"" + suffix;
    PythonReadsBody(value, suffix);
    if value == "" {
      assert s == "\"\"" + suffix;
      if suffix != "" && suffix[0] == '"' {
        assert s[..3] == "\"\"\"";
        PythonLongConsumes(s[3..]);
      } else if suffix != "" {
        assert s[2] != '"';
      }
    } else {
      EscapeIsNonEmpty(value, PythonLike);
      assert s[1] == Escape(value, PythonLike)[0];
    }
  }

  lemma {:induction false} JsReadsBody(value: string, suffix: string)
    ensures JsString(Escape(value, PythonLike) + "\"" + suffix) == Some((value, suffix))
  {
    var end := "\"" + suffix;
    if value == "" {
      assert Escape(value, PythonLike) + "\"" + suffix == end && end[1..] == suffix;
    } else {
      var e := EscapeChar(value[0], PythonLike);
      var tail := Escape(value[1..], PythonLike) + "\"" + suffix;
      assert Escape(value, PythonLike) + "\"" + suffix == e + tail;
      PythonLikeReadsChar(value[0], tail);
      JsReadsBody(value[1..], suffix);
      assert [value[0]] + value[1..] == value;
    }
  }

  /** JavaScript reads every emitted literal back, whatever text follows. */
  lemma JsRoundTrip(value: string, suffix: string)
    ensures LexJs(Quoted(value, PythonLike) + suffix) == Some((value, suffix))
  {
    var s := Quoted(value, PythonLike) + suffix;
    assert s[1..] == Escape(value, PythonLike) + "\"" + suffix;
    JsReadsBody(value, suffix);
  }

  lemma {:induction false} RustReadsBody(value: string, suffix: string)
    ensures RustString(Escape(value, Rust) + "\"" + suffix) == if HasC1(value) then None else Some((value, suffix))
  {
    var end := "\"" + suffix;
    if value == "" {
      assert Escape(value, Rust) + "\"" + suffix == end && end[1..] == suffix;
    } else {
      var e := EscapeChar(value[0], Rust);
      var tail := Escape(value[1..], Rust) + "\"" + suffix;
      assert Escape(value, Rust) + "\"" + suffix == e + tail;
      RustReadsChar(value[0], tail);
      RustReadsBody(value[1..], suffix);
      assert [value[0]] + value[1..] == value;
      assert HasC1(value) <==> IsC1(value[0]) || HasC1(value[1..]) by {
        if i :| 0 <= i < |value| && IsC1(value[i]) {
          assert i > 0 ==> value[1..][i - 1] == value[i];
        }
        if i :| 0 <= i < |value[1..]| && IsC1(value[1..][i]) {
          assert value[i + 1] == value[1..][i];
        }
      }
    }
  }

  /** Rust reads an emitted literal back exactly when the string has no control above ASCII; otherwise
      the literal is not a valid token. */
  lemma RustRoundTrip(value: string, suffix: string)
    ensures LexRust(Quoted(value, Rust) + suffix) == if HasC1(value) then None else Some((value, suffix))
  {
    var s := Quoted(value, Rust) + suffix;
    assert s[1..] == Escape(value, Rust) + "\"" + suffix;
    RustReadsBody(value, suffix);
  }

  // Characters that Rust's default lints deny in literals

  /** The embeddings, overrides and isolates that change the direction of text. */
  predicate IsTextFlow(c: char) {
    '\U{202A}' <= c <= '\U{202E}' || '\U{2066}' <= c <= '\U{2069}'
  }

  predicate HasTextFlow(s: string) {
    exists i :: 0 <= i < |s| && IsTextFlow(s[i])
  }

  lemma TextFlowConcat(a: string, b: string)
    ensures HasTextFlow(a + b) <==> HasTextFlow(a) || HasTextFlow(b)
  {
    var s := a + b;
    if i :| 0 <= i < |a| && IsTextFlow(a[i]) {
      assert IsTextFlow(s[i]);
    }
    if i :| 0 <= i < |b| && IsTextFlow(b[i]) {
      assert IsTextFlow(s[|a| + i]);
    }
  }

  lemma EscapedTextFlow(c: char)
    ensures HasTextFlow(EscapeChar(c, Rust)) <==> IsTextFlow(c)
  {
    EscapeForms(c);
    if IsTextFlow(c) {
      assert EscapeChar(c, Rust)[0] == c;
    } else if IsControl(c) && !PlainEscape(c) && c != '\0' {
      TwoHexDigits(c as int);
    }
  }

  lemma {:induction false} EscapeKeepsTextFlow(value: string)
    ensures HasTextFlow(Escape(value, Rust)) <==> HasTextFlow(value)
  {
    if value != "" {
      assert value == [value[0]] + value[1..];
      EscapedTextFlow(value[0]);
      EscapeKeepsTextFlow(value[1..]);
      TextFlowConcat([value[0]], value[1..]);
      TextFlowConcat(EscapeChar(value[0], Rust), Escape(value[1..], Rust));
      assert HasTextFlow([value[0]]) <==> IsTextFlow(value[0]) by {
        assert [value[0]][0] == value[0];
      }
    }
  }

  /** The escaper leaves these characters as they are. */
  lemma QuotedKeepsTextFlow(value: string)
    ensures HasTextFlow(Quoted(value, Rust)) <==> HasTextFlow(value)
  {
    EscapeKeepsTextFlow(value);
    TextFlowConcat("\"" + Escape(value, Rust), "\"");
    TextFlowConcat("\"", Escape(value, Rust));
  }

  // What an escaped text looks like

  /** What a line of source had better not contain. */
  predicate BreaksLines(c: char) {
    c < ' ' || 127 <= c as int < 160 || c == '\U{2028}' || c == '\U{2029}'
  }

  predicate OneLine(s: string) {
    forall i :: 0 <= i < |s| ==> !BreaksLines(s[i])
  }

  lemma OneLineConcat(a: string, b: string)
    requires OneLine(a) && OneLine(b)
    ensures OneLine(a + b)
  {
  }

  lemma {:induction false} HexIsOneLine(n: nat, width: nat)
    ensures OneLine(Hex(n, width))
    decreases n, width
  {
    if !(n < 16 && width <= 1) {
      HexIsOneLine(n / 16, if width == 0 then 0 else width - 1);
    }
  }

  lemma EscapedCharIsOneLine(c: char, dialect: Dialect)
    ensures OneLine(EscapeChar(c, dialect))
    ensures EscapeChar(c, dialect) != "" && (|EscapeChar(c, dialect)| == 1 <==> !NeedsEscape(c))
  {
    HexIsOneLine(c as int, 1);
    HexIsOneLine(c as int, 2);
    HexIsOneLine(c as int, 4);
    HexIsOneLine(c as int, 8);
  }

  /** An escaped text has no control, no line separator and no paragraph separator: the literal is on one line. */
  lemma {:induction false} EscapedIsOneLine(value: string, dialect: Dialect)
    ensures OneLine(Escape(value, dialect)) && OneLine(Quoted(value, dialect))
  {
    if value != "" {
      EscapedCharIsOneLine(value[0], dialect);
      EscapedIsOneLine(value[1..], dialect);
      OneLineConcat(EscapeChar(value[0], dialect), Escape(value[1..], dialect));
    }
    OneLineConcat("\"", Escape(value, dialect));
    OneLineConcat("\"" + Escape(value, dialect), "\"");
  }

  predicate NeedsEscape(c: char) {
    BreaksLines(c) || c == '\\' || c == '"'
  }

  lemma {:induction false} EscapeGrows(value: string, dialect: Dialect)
    ensures |Escape(value, dialect)| >= |value|
    ensures (exists i :: 0 <= i < |value| && NeedsEscape(value[i])) ==> |Escape(value, dialect)| > |value|
    ensures !(exists i :: 0 <= i < |value| && NeedsEscape(value[i])) ==> Escape(value, dialect) == value
  {
    if value != "" {
      EscapedCharIsOneLine(value[0], dialect);
      EscapeGrows(value[1..], dialect);
      assert forall i :: 0 <= i < |value| - 1 ==> value[1..][i] == value[i + 1];
      if i :| 0 <= i < |value| && NeedsEscape(value[i]) {
        assert i > 0 ==> NeedsEscape(value[1..][i - 1]);
      } else {
        assert !NeedsEscape(value[0]) && EscapeChar(value[0], dialect) == [value[0]];
        assert forall j :: 0 <= j < |value[1..]| ==> !NeedsEscape(value[1..][j]);
      }
    }
  }

  /** A text is changed exactly if something in it needs an escape. */
  lemma EscapeIsNeededExactly(value: string, dialect: Dialect)
    ensures Escape(value, dialect) == value <==> forall i :: 0 <= i < |value| ==> !NeedsEscape(value[i])
  {
    EscapeGrows(value, dialect);
  }
}
