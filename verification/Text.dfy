/** String operations the generators and the generated code share: decimals, joining, splitting, trimming. */
module Text {
  import opened Wrappers

  predicate IsDigit(c: char) {
    '0' <= c <= '9'
  }

  predicate AllDigits(s: string) {
    forall i :: 0 <= i < |s| ==> IsDigit(s[i])
  }

  function DigitChar(d: nat): char
    requires d < 10
  {
    '0' + d as char
  }

  /** Decimal notation. */
  function Decimal(n: nat): string {
    if n < 10 then [DigitChar(n)] else Decimal(n / 10) + [DigitChar(n % 10)]
  }

  function NumberOf(s: string): nat
    requires AllDigits(s)
  {
    if s == "" then 0 else NumberOf(s[..|s| - 1]) * 10 + (s[|s| - 1] as int - '0' as int)
  }

  lemma {:induction false} NumberOfDecimal(n: nat)
    ensures Decimal(n) != "" && AllDigits(Decimal(n)) && NumberOf(Decimal(n)) == n
  {
    if n >= 10 {
      NumberOfDecimal(n / 10);
      var s := Decimal(n);
      assert s[..|s| - 1] == Decimal(n / 10);
    }
  }

  /** A number written in digits is its decimal notation behind zeros. */
  lemma {:induction false} DigitsAreDecimal(s: string) returns (zeros: nat)
    requires s != "" && AllDigits(s)
    ensures zeros < |s| && s[zeros..] == Decimal(NumberOf(s)) && forall i :: 0 <= i < zeros ==> s[i] == '0'
  {
    zeros := 0;
    var before, last := s[..|s| - 1], s[|s| - 1];
    assert s == before + [last];
    if before == "" {
      assert NumberOf(before) == 0;
    } else {
      zeros := DigitsAreDecimal(before);
      if NumberOf(before) == 0 {
        assert before[zeros..] == "0";
        zeros := zeros + 1;
        assert s[zeros..] == [last];
      } else {
        assert s[zeros..] == before[zeros..] + [last];
      }
    }
  }

  function Join(parts: seq<string>, sep: string): string {
    if parts == [] then ""
    else if |parts| == 1 then parts[0]
    else parts[0] + sep + Join(parts[1..], sep)
  }

  function Split(s: string, sep: char): (parts: seq<string>)
    ensures |parts| > 0
  {
    if s == "" then [""]
    else
      var rest := Split(s[1..], sep);
      if s[0] == sep then [""] + rest else [[s[0]] + rest[0]] + rest[1..]
  }

  lemma {:induction false} SplitAtSeparator(part: string, sep: char, rest: string)
    requires sep !in part
    ensures Split(part, sep) == [part]
    ensures Split(part + [sep] + rest, sep) == [part] + Split(rest, sep)
  {
    var s := part + [sep] + rest;
    if part == "" {
      assert s[1..] == rest;
    } else {
      assert s[1..] == part[1..] + [sep] + rest;
      SplitAtSeparator(part[1..], sep, rest);
      assert part == [part[0]] + part[1..];
    }
  }

  lemma {:induction false} SplitInvertsJoin(parts: seq<string>, sep: char)
    requires parts != [] && forall i :: 0 <= i < |parts| ==> sep !in parts[i]
    ensures Split(Join(parts, [sep]), sep) == parts
  {
    if |parts| == 1 {
      SplitAtSeparator(parts[0], sep, "");
    } else {
      SplitAtSeparator(parts[0], sep, Join(parts[1..], [sep]));
      SplitInvertsJoin(parts[1..], sep);
      assert [parts[0]] + parts[1..] == parts;
    }
  }

  function TrimStart(s: string, drop: char -> bool): string {
    if s != "" && drop(s[0]) then TrimStart(s[1..], drop) else s
  }

  function TrimEnd(s: string, drop: char -> bool): string {
    if s != "" && drop(s[|s| - 1]) then TrimEnd(s[..|s| - 1], drop) else s
  }

  function Trim(s: string, drop: char -> bool): string {
    TrimEnd(TrimStart(s, drop), drop)
  }

  predicate KeepsAll(s: string, drop: char -> bool) {
    forall i :: 0 <= i < |s| ==> !drop(s[i])
  }

  lemma TrimKeeps(s: string, drop: char -> bool)
    requires KeepsAll(s, drop)
    ensures Trim(s, drop) == s
  {
  }

  lemma TrimBrackets(open: char, s: string, close: char, drop: char -> bool)
    requires drop(open) && drop(close) && KeepsAll(s, drop)
    ensures Trim([open] + s + [close], drop) == s
  {
    var t := [open] + s + [close];
    assert t[1..] == s + [close];
    assert (s + [close])[..|s|] == s;
    if s == "" {
      assert s + [close] == [close] && [close][1..] == "";
      assert TrimStart([close], drop) == TrimStart("", drop) == "";
      assert TrimStart(t, drop) == TrimStart([close], drop);
    } else {
      assert TrimStart(t, drop) == s + [close];
      assert TrimEnd(s + [close], drop) == TrimEnd(s, drop);
    }
  }

  /** ASCII white space. */
  predicate IsSpace(c: char) {
    c == ' ' || '\t' <= c <= '\r'
  }
}
