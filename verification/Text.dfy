/** The string operations of Python that the parsers and printers rely on. */
module Text {
  import opened Basics

  // ----- split and join --------------------------------------------------------------------

  /** s.split(c) */
  function Split(s: string, c: char): (r: seq<string>)
    ensures r != []
  {
    if s == [] then [[]]
    else
      var rest := Split(s[1..], c);
      if s[0] == c then [[]] + rest else [[s[0]] + rest[0]] + rest[1..]
  }

  /** sep.join(parts) */
  function Join(parts: seq<string>, sep: string): string {
    if parts == [] then ""
    else if |parts| == 1 then parts[0]
    else parts[0] + sep + Join(parts[1..], sep)
  }

  lemma {:induction false} JoinSplit(s: string, c: char)
    ensures Join(Split(s, c), [c]) == s
  {
    if s != [] {
      JoinSplit(s[1..], c);
      var rest := Split(s[1..], c);
      if s[0] == c {
        assert ([[]] + rest)[1..] == rest;
        assert [c] + s[1..] == s;
      } else {
        var r := [[s[0]] + rest[0]] + rest[1..];
        assert r[1..] == rest[1..];
        assert [s[0]] + s[1..] == s;
        if |rest| > 1 {
          assert ([s[0]] + rest[0]) + [c] + Join(rest[1..], [c]) == [s[0]] + (rest[0] + [c] + Join(rest[1..], [c]));
        }
      }
    }
  }

  lemma {:induction false} SplitHead(a: string, c: char, b: string)
    requires c !in a
    ensures Split(a + [c] + b, c) == [a] + Split(b, c)
  {
    if a == [] {
      assert a + [c] + b == [c] + b;
      assert ([c] + b)[1..] == b;
    } else {
      assert (a + [c] + b)[1..] == a[1..] + [c] + b;
      SplitHead(a[1..], c, b);
      assert [a[0]] + a[1..] == a;
    }
  }

  lemma {:induction false} SplitNone(s: string, c: char)
    requires c !in s
    ensures Split(s, c) == [s]
  {
    if s != [] {
      SplitNone(s[1..], c);
      assert [s[0]] + s[1..] == s;
    }
  }

  lemma {:induction false} SplitJoin(parts: seq<string>, c: char)
    requires parts != [] && forall p :: p in parts ==> c !in p
    ensures Split(Join(parts, [c]), c) == parts
  {
    if |parts| == 1 {
      SplitNone(parts[0], c);
    } else {
      assert parts[0] in parts && forall p :: p in parts[1..] ==> p in parts;
      SplitJoin(parts[1..], c);
      SplitHead(parts[0], c, Join(parts[1..], [c]));
      assert [parts[0]] + parts[1..] == parts;
    }
  }

  lemma {:induction false} SplitLast(s: string, c: char)
    ensures Split(s + [c], c) == Split(s, c) + [[]]
  {
    if s == [] {
      assert ([c])[1..] == [];
    } else {
      assert (s + [c])[1..] == s[1..] + [c];
      SplitLast(s[1..], c);
    }
  }

  // ----- white space and line ends ---------------------------------------------------------

  /** str.isspace, character by character. */
  predicate Whitespace(c: char) {
    || '\t' <= c <= '\r' || '\U{1c}' <= c <= ' ' || c == '\U{85}' || c == '\U{a0}' || c == '\U{1680}'
    || '\U{2000}' <= c <= '\U{200a}' || c == '\U{2028}' || c == '\U{2029}' || c == '\U{202f}'
    || c == '\U{205f}' || c == '\U{3000}'
  }

  /** Where str.splitlines ends a line. */
  predicate LineEnd(c: char) {
    || '\n' <= c <= '\r' || '\U{1c}' <= c <= '\U{1e}' || c == '\U{85}' || c == '\U{2028}' || c == '\U{2029}'
  }

  predicate OneLine(s: string) { forall i :: 0 <= i < |s| ==> !LineEnd(s[i]) }

  function LStrip(s: string): string {
    if s != [] && Whitespace(s[0]) then LStrip(s[1..]) else s
  }

  function RStrip(s: string): string {
    if s != [] && Whitespace(s[|s| - 1]) then RStrip(s[..|s| - 1]) else s
  }

  function Strip(s: string): string { RStrip(LStrip(s)) }

  /** s.rstrip("\n") */
  function RStripNewlines(s: string): string {
    if s != [] && s[|s| - 1] == '\n' then RStripNewlines(s[..|s| - 1]) else s
  }

  lemma {:induction false} RStripNewlinesDropsParts(s: string)
    ensures Split(RStripNewlines(s), '\n') <= Split(s, '\n')
    ensures RStripNewlines(s) == [] || RStripNewlines(s)[|RStripNewlines(s)| - 1] != '\n'
  {
    if s != [] && s[|s| - 1] == '\n' {
      RStripNewlinesDropsParts(s[..|s| - 1]);
      SplitLast(s[..|s| - 1], '\n');
      assert s[..|s| - 1] + ['\n'] == s;
    }
  }

  /** s.splitlines() */
  function SplitLines(s: string): (r: seq<string>)
    ensures s != [] ==> r != []
    decreases |s|
  {
    if s == [] then []
    else if s[0] == '\r' && |s| > 1 && s[1] == '\n' then [[]] + SplitLines(s[2..])
    else if LineEnd(s[0]) then [[]] + SplitLines(s[1..])
    else if |s| == 1 then [s]
    else
      var rest := SplitLines(s[1..]);
      [[s[0]] + rest[0]] + rest[1..]
  }

  lemma {:induction false} LinesAreLines(s: string)
    ensures forall l :: l in SplitLines(s) ==> OneLine(l)
    decreases |s|
  {
    if s != [] {
      if s[0] == '\r' && |s| > 1 && s[1] == '\n' {
        LinesAreLines(s[2..]);
      } else {
        LinesAreLines(s[1..]);
        var rest := SplitLines(s[1..]);
        if |s| > 1 {
          assert rest[0] in rest;
          assert forall l :: l in rest[1..] ==> l in rest;
        }
      }
    }
  }

  /** s.rstrip("/") */
  function RStripSlashes(s: string): string {
    if s != [] && s[|s| - 1] == '/' then RStripSlashes(s[..|s| - 1]) else s
  }

  /** Each line followed by a newline. */
  function Unlines(lines: seq<string>): string {
    if lines == [] then "" else lines[0] + "\n" + Unlines(lines[1..])
  }

  lemma {:induction false} SplitLinesHead(line: string, rest: string)
    requires OneLine(line)
    ensures SplitLines(line + "\n" + rest) == [line] + SplitLines(rest)
  {
    var s := line + "\n" + rest;
    if line == [] {
      assert s == ['\n'] + rest;
      assert s[1..] == rest;
    } else {
      assert s[1..] == line[1..] + "\n" + rest;
      SplitLinesHead(line[1..], rest);
      assert s[0] == line[0] && !LineEnd(line[0]);
      assert [line[0]] + line[1..] == line;
    }
  }

  lemma {:induction false} SplitLinesNone(s: string)
    requires OneLine(s) && s != []
    ensures SplitLines(s) == [s]
  {
    if |s| > 1 {
      SplitLinesNone(s[1..]);
      assert [s[0]] + s[1..] == s;
    }
  }

  lemma {:induction false} SplitUnlines(lines: seq<string>)
    requires forall l :: l in lines ==> OneLine(l)
    ensures SplitLines(Unlines(lines)) == lines
  {
    if lines != [] {
      assert forall l :: l in lines[1..] ==> l in lines;
      SplitUnlines(lines[1..]);
      SplitLinesHead(lines[0], Unlines(lines[1..]));
    }
  }

  lemma {:induction false} UnlinesAppend(a: seq<string>, b: seq<string>)
    ensures Unlines(a + b) == Unlines(a) + Unlines(b)
  {
    if a == [] {
      assert a + b == b;
    } else {
      assert (a + b)[1..] == a[1..] + b;
      UnlinesAppend(a[1..], b);
      assert a[0] + "\n" + (Unlines(a[1..]) + Unlines(b)) == (a[0] + "\n" + Unlines(a[1..])) + Unlines(b);
    }
  }

  lemma {:induction false} UnlinesIsJoin(lines: seq<string>)
    requires lines != []
    ensures Unlines(lines) == Join(lines, "\n") + "\n"
  {
    if |lines| == 1 {
      assert lines[0] + "\n" + "" == lines[0] + "\n";
    } else {
      UnlinesIsJoin(lines[1..]);
      assert lines[0] + "\n" + (Join(lines[1..], "\n") + "\n") == (lines[0] + "\n" + Join(lines[1..], "\n")) + "\n";
    }
  }

  // ----- decimal numbers -------------------------------------------------------------------

  predicate Digit(c: char) { '0' <= c <= '9' }

  function DigitChar(d: nat): char
    requires d < 10
  {
    ('0' as int + d) as char
  }

  /** str(n) */
  function Decimal(n: nat): (r: string)
    ensures r != [] && forall i :: 0 <= i < |r| ==> Digit(r[i])
  {
    if n < 10 then [DigitChar(n)] else Decimal(n / 10) + [DigitChar(n % 10)]
  }

  function DecimalValue(s: string): nat
    requires forall i :: 0 <= i < |s| ==> Digit(s[i])
  {
    if s == [] then 0 else assert Digit(s[|s| - 1]); 10 * DecimalValue(s[..|s| - 1]) + (s[|s| - 1] as int - '0' as int)
  }

  lemma {:induction false} DecimalRoundTrip(n: nat)
    ensures DecimalValue(Decimal(n)) == n
  {
    if n < 10 {
      assert Decimal(n)[..0] == [];
    } else {
      DecimalRoundTrip(n / 10);
      assert Decimal(n)[..|Decimal(n)| - 1] == Decimal(n / 10);
    }
  }

  /** Digits with single underscores between them, as int() accepts them. */
  predicate IntDigits(s: string) {
    && s != [] && Digit(s[0]) && Digit(s[|s| - 1])
    && (forall i :: 0 <= i < |s| ==> Digit(s[i]) || s[i] == '_')
    && (forall i :: 0 < i < |s| ==> s[i] != '_' || s[i - 1] != '_')
  }

  function DigitsValue(s: string): nat
    requires forall i :: 0 <= i < |s| ==> Digit(s[i]) || s[i] == '_'
  {
    if s == [] then 0
    else if s[|s| - 1] == '_' then DigitsValue(s[..|s| - 1])
    else assert Digit(s[|s| - 1]); 10 * DigitsValue(s[..|s| - 1]) + (s[|s| - 1] as int - '0' as int)
  }

  /** int(s), or None where it raises ValueError. */
  function PyInt(s: string): Option<int> {
    var signed := s != [] && (s[0] == '+' || s[0] == '-');
    var digits := if signed then s[1..] else s;
    if !IntDigits(digits) then None
    else Some(if signed && s[0] == '-' then 0 - DigitsValue(digits) as int else DigitsValue(digits) as int)
  }

  lemma {:induction false} DigitsValueIsDecimalValue(s: string)
    requires forall i :: 0 <= i < |s| ==> Digit(s[i])
    ensures DigitsValue(s) == DecimalValue(s)
  {
    if s != [] {
      DigitsValueIsDecimalValue(s[..|s| - 1]);
    }
  }

  lemma PyIntOfDecimal(n: nat)
    ensures PyInt(Decimal(n)) == Some(n)
  {
    DecimalRoundTrip(n);
    DigitsValueIsDecimalValue(Decimal(n));
  }
}
