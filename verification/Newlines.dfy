/** String defaults as the parser reads them: surrounding quotes stripped, line endings normalized. */
module Newlines {
  import opened Wrappers
  import opened Text
  import opened Literals

  /** `str::replace`: non-overlapping occurrences, from the left. */
  function Replace(s: string, pattern: string, replacement: string): string
    requires pattern != ""
    decreases |s|
  {
    if s == "" then ""
    else if pattern <= s then replacement + Replace(s[|pattern|..], pattern, replacement)
    else [s[0]] + Replace(s[1..], pattern, replacement)
  }

  function Normalize(s: string): string {
    Replace(Replace(s, "\r\n", "\n"), "\r", "\n")
  }

  predicate IsQuote(c: char) {
    c == '"'
  }

  function StripQuotes(s: string): string {
    Trim(s, IsQuote)
  }

  /** The value of a `string_literal` token used as a default. */
  function StringDefault(token: string): string {
    Normalize(StripQuotes(token))
  }

  /** One scan over the text: a carriage return, with the line feed behind it if there is one, is a
      line feed. */
  function Scan(s: string): string
    decreases |s|
  {
    if s == "" then ""
    else if s[0] == '\r' then "\n" + Scan(if |s| > 1 && s[1] == '\n' then s[2..] else s[1..])
    else [s[0]] + Scan(s[1..])
  }

  lemma BeginsWithReturn(s: string)
    requires s != ""
    ensures "\r" <= s <==> s[0] == '\r'
  {
    if s[0] == '\r' {
      assert s[..1] == "\r";
    } else {
      assert "\r"[0] == '\r';
    }
  }

  lemma {:induction false} NormalizeIsOneScan(s: string)
    ensures Normalize(s) == Scan(s)
    decreases |s|
  {
    if s != "" {
      var once := Replace(s, "\r\n", "\n");
      if "\r\n" <= s {
        assert once == "\n" + Replace(s[2..], "\r\n", "\n");
        assert once[1..] == Replace(s[2..], "\r\n", "\n");
        NormalizeIsOneScan(s[2..]);
      } else {
        assert once == [s[0]] + Replace(s[1..], "\r\n", "\n");
        assert once[1..] == Replace(s[1..], "\r\n", "\n");
        assert once[0] == s[0];
        BeginsWithReturn(once);
        assert s[0] == '\r' && |s| > 1 && s[1] == '\n' ==> "\r\n" <= s by {
          assert |s| > 1 ==> s[..2] == [s[0], s[1]];
        }
        NormalizeIsOneScan(s[1..]);
      }
    }
  }

  lemma {:induction false} ScanLeavesNoReturn(s: string)
    ensures '\r' !in Scan(s)
    decreases |s|
  {
    if s != "" {
      ScanLeavesNoReturn(if s[0] == '\r' && |s| > 1 && s[1] == '\n' then s[2..] else s[1..]);
    }
  }

  lemma {:induction false} ScanKeeps(s: string)
    requires '\r' !in s
    ensures Scan(s) == s
  {
    if s != "" {
      ScanKeeps(s[1..]);
    }
  }

  /** Normalized text has no carriage return, and it is left alone exactly when it had none before. */
  lemma NormalizeIsStable(s: string)
    ensures '\r' !in Normalize(s)
    ensures Normalize(Normalize(s)) == Normalize(s)
    ensures Normalize(s) == s <==> '\r' !in s
  {
    NormalizeIsOneScan(s);
    NormalizeIsOneScan(Normalize(s));
    ScanLeavesNoReturn(s);
    ScanKeeps(Scan(s));
    if '\r' !in s {
      ScanKeeps(s);
    }
  }

  predicate LineBreakFree(line: string) {
    '\r' !in line && '\n' !in line
  }

  lemma {:induction false} ScanLine(line: string, rest: string)
    requires '\r' !in line
    ensures Scan(line + rest) == line + Scan(rest)
  {
    if line == "" {
      assert line + rest == rest;
    } else {
      assert (line + rest)[1..] == line[1..] + rest;
      ScanLine(line[1..], rest);
    }
  }

  predicate IsLineEnding(sep: string) {
    sep == "\n" || sep == "\r\n" || sep == "\r"
  }

  lemma ScanLineEnding(sep: string, rest: string)
    requires IsLineEnding(sep) && (sep == "\r" && rest != "" ==> rest[0] != '\n')
    ensures Scan(sep + rest) == "\n" + Scan(rest)
  {
    var s := sep + rest;
    assert s[|sep|..] == rest;
    if sep == "\r\n" {
      assert s[0] == '\r' && s[1] == '\n';
    }
  }

  lemma {:induction false} JoinStart(lines: seq<string>)
    requires forall i :: 0 <= i < |lines| ==> LineBreakFree(lines[i])
    ensures Join(lines, "\r") != "" ==> Join(lines, "\r")[0] != '\n'
  {
    if lines != [] {
      assert LineBreakFree(lines[0]);
      assert lines[0] != "" ==> lines[0][0] != '\n';
    }
  }

  lemma JoinStep(lines: seq<string>, sep: string)
    requires |lines| > 1
    ensures Join(lines, sep) == lines[0] + (sep + Join(lines[1..], sep))
  {
  }

  lemma ScanLineThenRest(line: string, sep: string, rest: string)
    requires LineBreakFree(line) && IsLineEnding(sep) && (sep == "\r" && rest != "" ==> rest[0] != '\n')
    ensures Scan(line + (sep + rest)) == line + ("\n" + Scan(rest))
  {
    ScanLineEnding(sep, rest);
    ScanLine(line, sep + rest);
  }

  lemma {:induction false} ScanLines(lines: seq<string>, sep: string)
    requires IsLineEnding(sep) && forall i :: 0 <= i < |lines| ==> LineBreakFree(lines[i])
    ensures Scan(Join(lines, sep)) == Join(lines, "\n")
    decreases |lines|
  {
    if |lines| == 1 {
      ScanKeeps(lines[0]);
    } else if |lines| > 1 {
      var tail := lines[1..];
      JoinStart(tail);
      ScanLines(tail, sep);
      ScanLineThenRest(lines[0], sep, Join(tail, sep));
      JoinStep(lines, sep);
      JoinStep(lines, "\n");
    }
  }

  function StringToken(lines: seq<string>, sep: string): string {
    "\"" + Join(lines, sep) + "\""
  }

  lemma {:induction false} JoinHasNoQuote(lines: seq<string>, sep: string)
    requires '"' !in sep && forall i :: 0 <= i < |lines| ==> '"' !in lines[i]
    ensures '"' !in Join(lines, sep)
  {
    if |lines| > 1 {
      JoinHasNoQuote(lines[1..], sep);
    }
  }

  /** A default written over several lines means the same text whether the file uses LF, CRLF or CR. */
  lemma LineEndingsDoNotMatter(lines: seq<string>, sep: string)
    requires IsLineEnding(sep)
    requires forall i :: 0 <= i < |lines| ==> LineBreakFree(lines[i]) && '"' !in lines[i]
    ensures StringDefault(StringToken(lines, sep)) == Join(lines, "\n")
  {
    var body := Join(lines, sep);
    JoinHasNoQuote(lines, sep);
    TrimBrackets('"', body, '"', IsQuote);
    assert StringToken(lines, sep) == ['"'] + body + ['"'];
    NormalizeIsOneScan(body);
    ScanLines(lines, sep);
  }

  /** End to end: however the file breaks its lines, all three generated programs read the same default. */
  lemma SameDefaultEverywhere(lines: seq<string>, sep: string, suffix: string)
    requires IsLineEnding(sep)
    requires forall i :: 0 <= i < |lines| ==> LineBreakFree(lines[i]) && '"' !in lines[i]
    requires suffix != "" ==> suffix[0] != '"'
    ensures var value := StringDefault(StringToken(lines, sep));
      && LexPython(Quoted(value, PythonLike) + suffix) == Some((Join(lines, "\n"), suffix))
      && LexJs(Quoted(value, PythonLike) + suffix) == Some((Join(lines, "\n"), suffix))
      && (LexRust(Quoted(value, Rust) + suffix) == Some((Join(lines, "\n"), suffix))
          <==> !HasC1(Join(lines, "\n")))
  {
    LineEndingsDoNotMatter(lines, sep);
    var value := Join(lines, "\n");
    PythonRoundTrip(value, suffix);
    JsRoundTrip(value, suffix);
    RustRoundTrip(value, suffix);
  }
}
