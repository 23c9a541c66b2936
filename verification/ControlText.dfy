/** Reading a control stanza (prvaptmirror/debparse.py, _parse_control_text) and writing a field
    (prvaptmirror/indexer.py, _format_field). */
module ControlText {
  import opened Basics
  import opened Text

  datatype ParseError = OrphanContinuation | MissingColon

  type Fields = map<string, string>

  // ----- reading ---------------------------------------------------------------------------

  /** The field being read: its name, and the lines of its value so far. */
  datatype Open = NoField | Field(name: string, lines: seq<string>)

  function FieldValue(lines: seq<string>): string { RStripNewlines(Join(lines, "\n")) }

  function Flush(open: Open, fields: Fields): Fields {
    match open
    case NoField => fields
    case Field(name, lines) => fields[name := FieldValue(lines)]
  }

  /** What a continuation line contributes: a lone dot stands for an empty line. */
  function Continued(line: string): string
    requires line != []
  {
    if line[1..] == "." then "" else line[1..]
  }

  predicate Continues(line: string) { line != [] && (line[0] == ' ' || line[0] == '\t') }

  /** str.find */
  function IndexOf(s: string, c: char): (k: int)
    ensures -1 <= k < |s|
    ensures k >= 0 ==> s[k] == c && c !in s[..k]
    ensures k < 0 ==> c !in s
  {
    if s == [] then -1
    else if s[0] == c then 0
    else
      var k := IndexOf(s[1..], c);
      assert s == [s[0]] + s[1..];
      if k < 0 then -1 else assert s[..k + 1] == [s[0]] + s[1..][..k]; k + 1
  }

  function OpenField(line: string): Open
    requires ':' in line
  {
    var k := IndexOf(line, ':');
    Field(Strip(line[..k]), [LStrip(line[k + 1..])])
  }

  function ParseLines(lines: seq<string>, open: Open, fields: Fields): Result<Fields, ParseError> {
    if lines == [] then Ok(Flush(open, fields))
    else if lines[0] == "" then ParseLines(lines[1..], open, fields)
    else if Continues(lines[0]) then
      if open.NoField? then Err(OrphanContinuation)
      else ParseLines(lines[1..], open.(lines := open.lines + [Continued(lines[0])]), fields)
    else if ':' !in lines[0] then Err(MissingColon)
    else ParseLines(lines[1..], OpenField(lines[0]), Flush(open, fields))
  }

  function Parsed(text: string): Result<Fields, ParseError> { ParseLines(SplitLines(text), NoField, map[]) }

  method ParseControlText(text: string) returns (r: Result<Fields, ParseError>)
    ensures r == Parsed(text)
  {
    var lines := SplitLines(text);
    var result: Fields := map[];
    var current: Open := NoField;
    var i := 0;
    while i < |lines|
      invariant 0 <= i <= |lines|
      invariant Parsed(text) == ParseLines(lines[i..], current, result)
    {
      var line := lines[i];
      assert lines[i..][0] == line && lines[i..][1..] == lines[i + 1..];
      if line == "" {
      } else if Continues(line) {
        if current.NoField? {
          return Err(OrphanContinuation);
        }
        current := current.(lines := current.lines + [Continued(line)]);
      } else {
        result := Flush(current, result);
        if ':' !in line {
          return Err(MissingColon);
        }
        current := OpenField(line);
      }
      i := i + 1;
    }
    return Ok(Flush(current, result));
  }

  // ----- what it accepts and what it returns -----------------------------------------------

  /** A line that is neither empty nor a continuation. */
  predicate Heads(line: string) { line != "" && line[0] != ' ' && line[0] != '\t' }

  ghost predicate Legible(lines: seq<string>, started: bool) {
    forall i :: 0 <= i < |lines| && lines[i] != "" ==>
      if Heads(lines[i]) then ':' in lines[i] else started || exists j :: 0 <= j < i && Heads(lines[j])
  }

  lemma {:induction false} ParseLinesIff(lines: seq<string>, open: Open, fields: Fields)
    ensures ParseLines(lines, open, fields).Ok? <==> Legible(lines, open.Field?)
  {
    if lines != [] {
      var line, rest := lines[0], lines[1..];
      assert forall i :: 0 < i < |lines| ==> lines[i] == rest[i - 1];
      if line == "" {
        ParseLinesIff(rest, open, fields);
      } else if Continues(line) {
        if open.Field? {
          ParseLinesIff(rest, open.(lines := open.lines + [Continued(line)]), fields);
        }
      } else if ':' in line {
        ParseLinesIff(rest, OpenField(line), Flush(open, fields));
      }
      LegibleShift(lines, open.Field?);
    }
  }

  /** Dropping the first line. */
  lemma LegibleShift(lines: seq<string>, started: bool)
    requires lines != []
    ensures Legible(lines, started) <==>
            && (lines[0] == "" || (if Heads(lines[0]) then ':' in lines[0] else started))
            && Legible(lines[1..], started || Heads(lines[0]))
  {
    var rest := lines[1..];
    assert forall i :: 0 < i < |lines| ==> lines[i] == rest[i - 1];
    forall i | 0 < i < |lines| && lines[i] != ""
      ensures (exists j :: 0 <= j < i && Heads(lines[j])) <==>
              Heads(lines[0]) || exists j :: 0 <= j < i - 1 && Heads(rest[j])
    {
      if j :| 0 <= j < i && Heads(lines[j]) {
        if j > 0 {
          assert Heads(rest[j - 1]);
        }
      }
      if j :| 0 <= j < i - 1 && Heads(rest[j]) {
        assert Heads(lines[j + 1]);
      }
    }
    assert Legible(rest, started || Heads(lines[0])) ==> forall i :: 0 < i < |lines| && lines[i] != "" ==>
      if Heads(lines[i]) then ':' in lines[i] else started || exists j :: 0 <= j < i && Heads(lines[j]);
    if Legible(lines, started) {
      forall i | 0 <= i < |rest| && rest[i] != ""
        ensures if Heads(rest[i]) then ':' in rest[i]
                else started || Heads(lines[0]) || exists j :: 0 <= j < i && Heads(rest[j])
      {
        assert lines[i + 1] == rest[i];
      }
    }
  }

  /** A text is accepted exactly if every line that heads a field has a colon and every continuation
      line has a head somewhere before it. */
  lemma ParsedIff(text: string)
    ensures Parsed(text).Ok? <==> Legible(SplitLines(text), false)
  {
    ParseLinesIff(SplitLines(text), NoField, map[]);
  }

  /** The parser in the middle of its work. */
  lemma {:induction false} Midway(before: seq<string>, more: seq<string>, open: Open, fields: Fields)
    returns (o: Open, f: Fields)
    requires ParseLines(before + more, open, fields).Ok?
    ensures ParseLines(more, o, f) == ParseLines(before + more, open, fields)
  {
    if before == [] {
      assert before + more == more;
      return open, fields;
    }
    var line := before[0];
    assert (before + more)[1..] == before[1..] + more;
    if line == "" {
      o, f := Midway(before[1..], more, open, fields);
    } else if Continues(line) {
      o, f := Midway(before[1..], more, open.(lines := open.lines + [Continued(line)]), fields);
    } else {
      o, f := Midway(before[1..], more, OpenField(line), Flush(open, fields));
    }
  }

  /** Reading continuation lines. */
  lemma {:induction false} ParseContinuations(conts: seq<string>, more: seq<string>, open: Open, fields: Fields,
                                              parts: seq<string>)
    requires |parts| == |conts| && open.Field?
    requires forall k :: 0 <= k < |conts| ==> Continues(conts[k]) && parts[k] == Continued(conts[k])
    ensures ParseLines(conts + more, open, fields) == ParseLines(more, open.(lines := open.lines + parts), fields)
  {
    if conts == [] {
      assert conts + more == more && open.lines + parts == open.lines;
    } else {
      var open' := open.(lines := open.lines + [Continued(conts[0])]);
      assert (conts + more)[1..] == conts[1..] + more;
      ParseContinuations(conts[1..], more, open', fields, parts[1..]);
      assert open'.lines + parts[1..] == open.lines + parts;
    }
  }

  /** The line heads the field n: it has that name before its first colon, and after the colon, without
      leading white space, the first line of its value. */
  ghost predicate HeadsField(line: string, n: string, first: string) {
    Heads(line) && exists c :: 0 <= c < |line| && line[c] == ':' && ':' !in line[..c] &&
                               n == Strip(line[..c]) && first == LStrip(line[c + 1..])
  }

  lemma HeadOpensField(line: string, n: string, first: string)
    requires HeadsField(line, n, first)
    ensures ':' in line && !Continues(line) && OpenField(line) == Field(n, [first])
  {
    var c :| 0 <= c < |line| && line[c] == ':' && ':' !in line[..c] &&
             n == Strip(line[..c]) && first == LStrip(line[c + 1..]);
    FirstColon(line, c);
  }

  lemma FirstColon(line: string, c: nat)
    requires c < |line| && line[c] == ':' && ':' !in line[..c]
    ensures IndexOf(line, ':') == c
  {
    assert line == line[..c] + [':'] + line[c + 1..];
    IndexOfHead(line[..c], ':', line[c + 1..]);
  }

  /** A field is not touched by later fields of other names. */
  lemma {:induction false} LaterFieldsKeep(lines: seq<string>, open: Open, fields: Fields, n: string)
    requires ParseLines(lines, open, fields).Ok? && n in fields && (open.Field? ==> open.name != n)
    requires forall l, first :: l in lines ==> !HeadsField(l, n, first)
    ensures n in ParseLines(lines, open, fields).value && ParseLines(lines, open, fields).value[n] == fields[n]
  {
    if lines != [] {
      var line, rest := lines[0], lines[1..];
      assert line in lines && forall l :: l in rest ==> l in lines;
      if line == "" {
        LaterFieldsKeep(rest, open, fields, n);
      } else if Continues(line) {
        LaterFieldsKeep(rest, open.(lines := open.lines + [Continued(line)]), fields, n);
      } else {
        assert HeadsField(line, OpenField(line).name, OpenField(line).lines[0]);
        LaterFieldsKeep(rest, OpenField(line), Flush(open, fields), n);
      }
    }
  }

  /** What the parser returns for a field n: a line heads it, the next ones continue it, and no line
      after these heads a field of that name.  Its value is the rest of the first line, then each
      continuation line without its first character, or nothing where only a dot is left, joined by
      newlines, which are taken off at the end. */
  lemma FieldIsRead(text: string, before: seq<string>, head: string, conts: seq<string>, after: seq<string>,
                    n: string, first: string, parts: seq<string>)
    requires Parsed(text).Ok? && SplitLines(text) == before + ([head] + (conts + after))
    requires HeadsField(head, n, first) && |parts| == |conts|
    requires forall k :: 0 <= k < |conts| ==>
               && conts[k] != "" && (conts[k][0] == ' ' || conts[k][0] == '\t')
               && parts[k] == if conts[k][1..] == "." then "" else conts[k][1..]
    requires after != [] ==> Heads(after[0])
    requires forall l, v :: l in after ==> !HeadsField(l, n, v)
    ensures n in Parsed(text).value
    ensures Parsed(text).value[n] == RStripNewlines(Join([first] + parts, "\n"))
  {
    var o, f := Midway(before, [head] + (conts + after), NoField, map[]);
    HeadOpensField(head, n, first);
    ParseOpening(head, conts + after, o, f);
    var full, fields := Field(n, [first] + parts), Flush(o, f);
    ParseContinuations(conts, after, Field(n, [first]), fields, parts);
    if after != [] {
      var l := after[0];
      assert l in after && forall x :: x in after[1..] ==> x in after;
      assert HeadsField(l, OpenField(l).name, OpenField(l).lines[0]);
      LaterFieldsKeep(after[1..], OpenField(l), Flush(full, fields), n);
    }
  }

  // ----- writing ---------------------------------------------------------------------------

  /** value.replace("\r\n", "\n").replace("\r", "\n") */
  function UnixNewlines(s: string): string
    decreases |s|
  {
    if s == [] then []
    else if s[0] == '\r' && |s| > 1 && s[1] == '\n' then ['\n'] + UnixNewlines(s[2..])
    else [if s[0] == '\r' then '\n' else s[0]] + UnixNewlines(s[1..])
  }

  function PaddedLine(part: string): string {
    if part == "" then " ." else if part[0] == ' ' then part else " " + part
  }

  function PaddedLines(parts: seq<string>): seq<string> {
    if parts == [] then [] else [PaddedLine(parts[0])] + PaddedLines(parts[1..])
  }

  function FieldLines(name: string, value: string): seq<string> {
    var parts := Split(UnixNewlines(value), '\n');
    [name + ": " + parts[0]] + PaddedLines(parts[1..])
  }

  /** What is written for a value: its first line after the name, then a line for each other, indented
      unless it is already, a dot standing for an empty one. */
  lemma {:induction false} FieldLinesAre(name: string, value: string, parts: seq<string>, i: nat)
    requires parts == Split(UnixNewlines(value), '\n') && i < |parts|
    ensures |FieldLines(name, value)| == |parts|
    ensures FieldLines(name, value)[i] ==
            if i == 0 then name + ": " + parts[0]
            else if parts[i] == "" then " ." else if parts[i][0] == ' ' then parts[i] else " " + parts[i]
  {
    PaddedLinesAt(parts[1..], if i == 0 then 0 else i - 1);
  }

  lemma {:induction false} PaddedLinesAt(parts: seq<string>, i: nat)
    ensures |PaddedLines(parts)| == |parts|
    ensures i < |parts| ==>
              var part := parts[i];
              PaddedLines(parts)[i] == if part == "" then " ." else if part[0] == ' ' then part else " " + part
  {
    if parts != [] {
      PaddedLinesAt(parts[1..], if i == 0 then 0 else i - 1);
    }
  }

  /** Each way of ending a line becomes a newline and nothing else changes. */
  lemma {:induction false} UnixNewlinesAre(a: string, b: string)
    requires '\r' !in a
    ensures UnixNewlines(a) == a
    ensures UnixNewlines(a + "\r\n" + b) == a + "\n" + UnixNewlines(b)
    ensures b == "" || b[0] != '\n' ==> UnixNewlines(a + "\r" + b) == a + "\n" + UnixNewlines(b)
  {
    if a == [] {
      assert a + "\r\n" + b == "\r\n" + b && ("\r\n" + b)[2..] == b;
      assert a + "\r" + b == "\r" + b && ("\r" + b)[1..] == b;
    } else {
      UnixNewlinesAre(a[1..], b);
      assert (a + "\r\n" + b)[1..] == a[1..] + "\r\n" + b;
      assert (a + "\r" + b)[1..] == a[1..] + "\r" + b;
      assert [a[0]] + a[1..] == a;
    }
  }

  lemma {:induction false} PaddedLinesSnoc(parts: seq<string>, p: string)
    ensures PaddedLines(parts + [p]) == PaddedLines(parts) + [PaddedLine(p)]
  {
    if parts == [] {
      assert parts + [p] == [p] && ([p])[1..] == [];
    } else {
      assert (parts + [p])[1..] == parts[1..] + [p];
      PaddedLinesSnoc(parts[1..], p);
    }
  }

  method FormatField(name: string, value: string) returns (text: string)
    ensures text == Join(FieldLines(name, value), "\n")
  {
    var parts := Split(UnixNewlines(value), '\n');
    if |parts| == 1 {
      return name + ": " + parts[0];
    }
    var lines := [name + ": " + parts[0]];
    var i := 1;
    while i < |parts|
      invariant 1 <= i <= |parts|
      invariant lines == [name + ": " + parts[0]] + PaddedLines(parts[1..i])
    {
      assert parts[1..i + 1] == parts[1..i] + [parts[i]];
      PaddedLinesSnoc(parts[1..i], parts[i]);
      if parts[i] == "" {
        lines := lines + [" ."];
      } else if parts[i][0] == ' ' {
        lines := lines + [parts[i]];
      } else {
        lines := lines + [" " + parts[i]];
      }
      i := i + 1;
    }
    assert parts[1..|parts|] == parts[1..];
    return Join(lines, "\n");
  }

  // ----- what a parsed value looks like ----------------------------------------------------

  /** The lines of a value as the parser leaves them. */
  predicate ParsedLines(lines: seq<string>) {
    && lines != []
    && (forall l :: l in lines ==> OneLine(l))
    && (lines[0] != [] ==> !Whitespace(lines[0][0]))
    && (forall i :: 0 < i < |lines| ==> lines[i] != ".")
  }

  predicate ParsedValue(v: string) {
    && ParsedLines(Split(v, '\n'))
    && (v != [] ==> v[|v| - 1] != '\n')
  }

  lemma {:induction false} LStripFacts(s: string)
    ensures LStrip(s) != [] ==> !Whitespace(LStrip(s)[0])
    ensures OneLine(s) ==> OneLine(LStrip(s))
  {
    if s != [] && Whitespace(s[0]) {
      LStripFacts(s[1..]);
    }
  }

  lemma FieldValueIsParsedValue(lines: seq<string>)
    requires ParsedLines(lines)
    ensures ParsedValue(FieldValue(lines))
  {
    var s := Join(lines, "\n");
    forall l | l in lines ensures '\n' !in l {
      assert OneLine(l);
    }
    SplitJoin(lines, '\n');
    RStripNewlinesDropsParts(s);
    var parts := Split(FieldValue(lines), '\n');
    assert parts <= lines;
    assert forall l :: l in parts ==> l in lines;
  }

  ghost predicate AllParsed(fields: Fields) { forall n :: n in fields ==> ParsedValue(fields[n]) }

  ghost predicate OpenParsed(open: Open) { open.Field? ==> ParsedLines(open.lines) }

  lemma FlushParsed(open: Open, fields: Fields)
    requires OpenParsed(open) && AllParsed(fields)
    ensures AllParsed(Flush(open, fields))
  {
    if open.Field? {
      FieldValueIsParsedValue(open.lines);
    }
  }

  lemma OpenFieldParsed(line: string)
    requires OneLine(line) && ':' in line
    ensures OpenParsed(OpenField(line))
  {
    LStripFacts(line[IndexOf(line, ':') + 1..]);
  }

  lemma ContinuedParsed(lines: seq<string>, line: string)
    requires ParsedLines(lines) && OneLine(line) && Continues(line)
    ensures ParsedLines(lines + [Continued(line)])
  {}

  /** Every value the parser returns, for whatever text, is a parsed value. */
  lemma {:induction false} ParseLinesGivesParsedValues(lines: seq<string>, open: Open, fields: Fields)
    requires forall l :: l in lines ==> OneLine(l)
    requires OpenParsed(open) && AllParsed(fields) && ParseLines(lines, open, fields).Ok?
    ensures AllParsed(ParseLines(lines, open, fields).value)
  {
    FlushParsed(open, fields);
    if lines != [] {
      var line, rest := lines[0], lines[1..];
      assert OneLine(line) && forall l :: l in rest ==> l in lines;
      if line == "" {
        ParseLinesGivesParsedValues(rest, open, fields);
      } else if Continues(line) {
        ContinuedParsed(open.lines, line);
        ParseLinesGivesParsedValues(rest, open.(lines := open.lines + [Continued(line)]), fields);
      } else {
        OpenFieldParsed(line);
        ParseLinesGivesParsedValues(rest, OpenField(line), Flush(open, fields));
      }
    }
  }

  lemma ParserGivesParsedValues(text: string, name: string)
    requires Parsed(text).Ok? && name in Parsed(text).value
    ensures ParsedValue(Parsed(text).value[name])
  {
    LinesAreLines(text);
    ParseLinesGivesParsedValues(SplitLines(text), NoField, map[]);
  }

  // ----- reading back what was written -----------------------------------------------------

  /** What one continuation line of a value becomes when it is written and read again. */
  function Reread(part: string): string { Continued(PaddedLine(part)) }

  function RereadAll(parts: seq<string>): seq<string> {
    if parts == [] then [] else [Reread(parts[0])] + RereadAll(parts[1..])
  }

  /** What a value becomes when it is written and read again. */
  function RereadValue(v: string): string {
    var parts := Split(v, '\n');
    FieldValue([parts[0]] + RereadAll(parts[1..]))
  }

  predicate SpaceLed(part: string) { part != [] && part[0] == ' ' }

  /** No continuation line starts with a space: the exact condition for a value to survive. */
  predicate Survives(v: string) {
    forall i :: 0 < i < |Split(v, '\n')| ==> !SpaceLed(Split(v, '\n')[i])
  }

  function Width(parts: seq<string>): nat {
    if parts == [] then 0 else |parts[0]| + 1 + Width(parts[1..])
  }

  lemma {:induction false} JoinWidth(parts: seq<string>)
    requires parts != []
    ensures |Join(parts, "\n")| == Width(parts) - 1
  {
    if |parts| > 1 {
      JoinWidth(parts[1..]);
    }
  }

  /** Written and read again, a line stays or, if it starts with a space, shrinks. */
  lemma RereadLine(p: string)
    requires p != "."
    ensures !SpaceLed(p) ==> Reread(p) == p
    ensures SpaceLed(p) ==> |Reread(p)| < |p|
  {
    if !SpaceLed(p) && p != "" {
      assert PaddedLine(p)[1..] == p;
    }
  }

  lemma {:induction false} RereadAllFacts(parts: seq<string>)
    requires forall p :: p in parts ==> p != "."
    ensures Width(RereadAll(parts)) <= Width(parts)
    ensures (forall p :: p in parts ==> !SpaceLed(p)) ==> RereadAll(parts) == parts
    ensures (exists p :: p in parts && SpaceLed(p)) ==> Width(RereadAll(parts)) < Width(parts)
  {
    if parts != [] {
      assert parts == [parts[0]] + parts[1..];
      assert parts[0] in parts && forall p :: p in parts[1..] ==> p in parts;
      RereadLine(parts[0]);
      RereadAllFacts(parts[1..]);
      assert RereadAll(parts)[1..] == RereadAll(parts[1..]);
    }
  }

  lemma {:induction false} RStripNewlinesShrinks(s: string)
    ensures |RStripNewlines(s)| <= |s|
    ensures (s == [] || s[|s| - 1] != '\n') ==> RStripNewlines(s) == s
  {
    if s != [] && s[|s| - 1] == '\n' {
      RStripNewlinesShrinks(s[..|s| - 1]);
    }
  }

  /** A parsed value survives writing and reading exactly when none of its continuation lines
      starts with a space; a verbatim line (section 5.6.13 of Debian Policy) loses one. */
  lemma RereadValueIff(v: string)
    requires ParsedValue(v)
    ensures RereadValue(v) == v <==> Survives(v)
  {
    var parts := Split(v, '\n');
    JoinSplit(v, '\n');
    var tail := parts[1..];
    forall p | p in tail ensures p != "." {
      var i :| 0 <= i < |tail| && tail[i] == p;
      assert parts[i + 1] == p;
    }
    RereadAllFacts(tail);
    var reread := [parts[0]] + RereadAll(tail);
    RStripNewlinesShrinks(v);
    assert [parts[0]] + tail == parts;
    if Survives(v) {
      assert forall p :: p in tail ==> !SpaceLed(p);
    } else {
      var i :| 0 < i < |parts| && SpaceLed(parts[i]);
      assert tail[i - 1] in tail;
      JoinWidth(parts);
      JoinWidth(reread);
      assert reread[1..] == RereadAll(tail);
      RStripNewlinesShrinks(Join(reread, "\n"));
    }
  }

  /** The parser itself makes values that do not survive: a verbatim line of a description. */
  lemma VerbatimLineHappens() returns (text: string)
    ensures Parsed(text).Ok? && "D" in Parsed(text).value
    ensures RereadValue(Parsed(text).value["D"]) != Parsed(text).value["D"]
  {
    text := "D: a\n  b";
    VerbatimText();
    ParserGivesParsedValues(text, "D");
    var v := "a\n b";
    assert v == Join(["a", " b"], "\n");
    SplitJoin(["a", " b"], '\n');
    assert SpaceLed(Split(v, '\n')[1]);
    RereadValueIff(v);
  }

  lemma VerbatimText()
    ensures Parsed("D: a\n  b") == Ok(map["D" := "a\n b"])
  {
    var lines := ["D: a", "  b"];
    assert SplitLines("D: a\n  b") == lines by {
      SplitLinesHead("D: a", "  b");
      assert "D: a\n  b" == "D: a" + "\n" + "  b";
      SplitLinesNone("  b");
    }
    VerbatimField();
    var open := Field("D", ["a"]);
    assert lines[1..] == ["  b"];
    ParseOpening("D: a", ["  b"], NoField, map[]);
    VerbatimContinuation(open);
  }

  lemma VerbatimField()
    ensures ':' in "D: a" && OpenField("D: a") == Field("D", ["a"])
  {
    assert "D: a"[1] == ':' && IndexOf("D: a", ':') == 1;
    assert "D: a"[..1] == "D" && "D: a"[2..] == " a";
  }

  lemma VerbatimContinuation(open: Open)
    requires open == Field("D", ["a"])
    ensures ParseLines(["  b"], open, map[]) == Ok(map["D" := "a\n b"])
  {
    assert Continued("  b") == " b";
    assert FieldValue(["a", " b"]) == "a\n b";
    assert ParseLines(["  b"], open, map[]) == ParseLines([], Field("D", ["a", " b"]), map[]);
  }

  // ----- a stanza --------------------------------------------------------------------------

  predicate FieldName(s: string) {
    s != [] && forall i :: 0 <= i < |s| ==> s[i] != ':' && !Whitespace(s[i])
  }

  lemma {:induction false} ParsedValueHasUnixNewlines(v: string)
    requires forall i :: 0 <= i < |v| ==> v[i] != '\r'
    ensures UnixNewlines(v) == v
  {
    if v != [] {
      ParsedValueHasUnixNewlines(v[1..]);
      assert [v[0]] + v[1..] == v;
    }
  }

  lemma {:induction false} SplitCovers(s: string, c: char, i: nat)
    requires i < |s| && s[i] != c
    ensures exists p :: p in Split(s, c) && s[i] in p
  {
    var rest := Split(s[1..], c);
    if i == 0 {
      assert s[0] in Split(s, c)[0];
    } else {
      SplitCovers(s[1..], c, i - 1);
      var p :| p in rest && s[i] in p;
      if s[0] == c {
        assert p in Split(s, c);
      } else if p == rest[0] {
        assert s[i] in Split(s, c)[0];
      } else {
        assert p in rest[1..];
        assert p in Split(s, c);
      }
    }
  }

  lemma NoCarriageReturn(v: string)
    requires ParsedValue(v)
    ensures UnixNewlines(v) == v
  {
    forall i | 0 <= i < |v| ensures v[i] != '\r' {
      if v[i] != '\n' {
        SplitCovers(v, '\n', i);
        var p :| p in Split(v, '\n') && v[i] in p;
        assert OneLine(p);
      }
    }
    ParsedValueHasUnixNewlines(v);
  }

  lemma {:induction false} LStripNone(s: string)
    requires s != [] ==> !Whitespace(s[0])
    ensures LStrip(s) == s
  {}

  lemma StripName(s: string)
    requires FieldName(s)
    ensures Strip(s) == s
  {}

  lemma {:induction false} IndexOfHead(a: string, c: char, b: string)
    requires c !in a
    ensures IndexOf(a + [c] + b, c) == |a|
  {
    if a != [] {
      assert (a + [c] + b)[1..] == a[1..] + [c] + b;
      IndexOfHead(a[1..], c, b);
    }
  }

  /** The first line of a field opens it again. */
  lemma OpenFieldLine(name: string, first: string)
    requires FieldName(name) && (first != [] ==> !Whitespace(first[0]))
    ensures var line := name + ": " + first;
            line != "" && !Continues(line) && ':' in line && OpenField(line) == Field(name, [first])
  {
    var line := name + ": " + first;
    var k := IndexOf(line, ':');
    assert line[|name|] == ':';
    assert line == name + [':'] + (" " + first);
    assert ':' !in name;
    IndexOfHead(name, ':', " " + first);
    assert line[..k] == name;
    assert line[k + 1..] == " " + first;
    assert (" " + first)[1..] == first;
    LStripNone(first);
    StripName(name);
    assert !Whitespace(line[0]) by { assert line[0] == name[0]; }
  }

  /** The continuation lines extend it. */
  lemma {:induction false} ParsePadded(parts: seq<string>, rest: seq<string>, name: string, lines: seq<string>,
                                       fields: Fields)
    ensures ParseLines(PaddedLines(parts) + rest, Field(name, lines), fields) ==
            ParseLines(rest, Field(name, lines + RereadAll(parts)), fields)
  {
    if parts == [] {
      assert PaddedLines(parts) + rest == rest;
      assert lines + [] == lines;
    } else {
      var line := PaddedLine(parts[0]);
      assert Continues(line);
      assert (PaddedLines(parts) + rest)[0] == line;
      assert (PaddedLines(parts) + rest)[1..] == PaddedLines(parts[1..]) + rest;
      ParsePadded(parts[1..], rest, name, lines + [Reread(parts[0])], fields);
      assert lines + [Reread(parts[0])] + RereadAll(parts[1..]) == lines + RereadAll(parts);
    }
  }

  /** Reading one written field. */
  lemma ParseField(name: string, value: string, rest: seq<string>, open: Open, fields: Fields)
    requires FieldName(name) && ParsedValue(value)
    ensures var parts := Split(value, '\n');
            ParseLines(FieldLines(name, value) + rest, open, fields) ==
            ParseLines(rest, Field(name, [parts[0]] + RereadAll(parts[1..])), Flush(open, fields))
  {
    NoCarriageReturn(value);
    var parts := Split(value, '\n');
    OpenFieldLine(name, parts[0]);
    var more := PaddedLines(parts[1..]) + rest;
    assert FieldLines(name, value) + rest == [name + ": " + parts[0]] + more;
    ParseOpening(name + ": " + parts[0], more, open, fields);
    ParsePadded(parts[1..], rest, name, [parts[0]], Flush(open, fields));
  }

  lemma ParseOpening(line: string, more: seq<string>, open: Open, fields: Fields)
    requires line != "" && !Continues(line) && ':' in line
    ensures ParseLines([line] + more, open, fields) == ParseLines(more, OpenField(line), Flush(open, fields))
  {}

  /** A stanza: the lines of its fields, one after the other. */
  function StanzaLines(pairs: seq<(string, string)>): seq<string> {
    if pairs == [] then [] else FieldLines(pairs[0].0, pairs[0].1) + StanzaLines(pairs[1..])
  }

  function AsRead(pairs: seq<(string, string)>, fields: Fields): Fields {
    if pairs == [] then fields else AsRead(pairs[1..], fields[pairs[0].0 := RereadValue(pairs[0].1)])
  }

  predicate Writable(pairs: seq<(string, string)>) {
    forall p :: p in pairs ==> FieldName(p.0) && ParsedValue(p.1)
  }

  /** Parsing the lines of a stanza gives each field its reread value. */
  lemma {:induction false} ParseStanza(pairs: seq<(string, string)>, open: Open, fields: Fields)
    requires Writable(pairs)
    ensures ParseLines(StanzaLines(pairs), open, fields) == Ok(AsRead(pairs, Flush(open, fields)))
  {
    if pairs != [] {
      assert pairs[0] in pairs && forall p :: p in pairs[1..] ==> p in pairs;
      var parts := Split(pairs[0].1, '\n');
      ParseField(pairs[0].0, pairs[0].1, StanzaLines(pairs[1..]), open, fields);
      ParseStanza(pairs[1..], Field(pairs[0].0, [parts[0]] + RereadAll(parts[1..])), Flush(open, fields));
    }
  }

  /** No written line is empty or breaks in two. */
  lemma {:induction false} StanzaLinesAreSolid(pairs: seq<(string, string)>)
    requires Writable(pairs) && forall p :: p in pairs ==> OneLine(p.0)
    ensures forall l :: l in StanzaLines(pairs) ==> l != "" && OneLine(l)
  {
    if pairs != [] {
      assert pairs[0] in pairs && forall p :: p in pairs[1..] ==> p in pairs;
      StanzaLinesAreSolid(pairs[1..]);
      var parts := Split(pairs[0].1, '\n');
      NoCarriageReturn(pairs[0].1);
      assert parts[0] in parts && OneLine(parts[0]);
      assert forall p :: p in parts[1..] ==> p in parts;
      PaddedLinesAreSolid(parts[1..]);
    }
  }

  lemma {:induction false} PaddedLinesAreSolid(parts: seq<string>)
    requires forall p :: p in parts ==> OneLine(p)
    ensures forall l :: l in PaddedLines(parts) ==> l != "" && OneLine(l)
  {
    if parts != [] {
      assert parts[0] in parts && forall p :: p in parts[1..] ==> p in parts;
      PaddedLinesAreSolid(parts[1..]);
    }
  }
}
