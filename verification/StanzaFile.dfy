/** A file of stanzas: fields in order, one after the other, stanzas separated by empty lines. */
module StanzaFile {
  import opened Basics
  import opened Text
  import opened ControlText

  type Pairs = seq<(string, string)>

  // ----- writing ---------------------------------------------------------------------------

  function FieldTexts(pairs: Pairs): seq<string> {
    if pairs == [] then [] else [Join(FieldLines(pairs[0].0, pairs[0].1), "\n")] + FieldTexts(pairs[1..])
  }

  function StanzaText(pairs: Pairs): string { Join(FieldTexts(pairs), "\n") }

  function StanzaTexts(stanzas: seq<Pairs>): seq<string> {
    if stanzas == [] then [] else [StanzaText(stanzas[0])] + StanzaTexts(stanzas[1..])
  }

  function FileText(stanzas: seq<Pairs>): string {
    if stanzas == [] then "" else Join(StanzaTexts(stanzas), "\n\n") + "\n"
  }

  lemma {:induction false} FieldTextsAppend(a: Pairs, b: Pairs)
    ensures FieldTexts(a + b) == FieldTexts(a) + FieldTexts(b)
  {
    if a == [] {
      assert a + b == b;
    } else {
      assert (a + b)[1..] == a[1..] + b;
      FieldTextsAppend(a[1..], b);
    }
  }

  lemma {:induction false} StanzaTextsSnoc(stanzas: seq<Pairs>, pairs: Pairs)
    ensures StanzaTexts(stanzas + [pairs]) == StanzaTexts(stanzas) + [StanzaText(pairs)]
  {
    if stanzas == [] {
      assert stanzas + [pairs] == [pairs] && ([pairs])[1..] == [];
    } else {
      assert (stanzas + [pairs])[1..] == stanzas[1..] + [pairs];
      StanzaTextsSnoc(stanzas[1..], pairs);
    }
  }

  /** A value of one line is written as it is. */
  lemma OneLineField(name: string, v: string)
    requires OneLine(v) && ParsedValue(v)
    ensures FieldLines(name, v) == [name + ": " + v]
  {
    NoCarriageReturn(v);
    SplitNone(v, '\n');
  }

  // ----- reading ---------------------------------------------------------------------------

  /** The stanzas of a list of lines: its runs of non-empty lines. */
  function Stanzas(lines: seq<string>): (r: seq<seq<string>>)
    ensures lines != [] && lines[0] != "" ==> r != []
  {
    if lines == [] then []
    else if lines[0] == "" then Stanzas(lines[1..])
    else if |lines| == 1 || lines[1] == "" then [[lines[0]]] + Stanzas(lines[1..])
    else
      var rest := Stanzas(lines[1..]);
      [[lines[0]] + rest[0]] + rest[1..]
  }

  lemma {:induction false} StanzasHead(s: seq<string>, rest: seq<string>)
    requires s != [] && (forall l :: l in s ==> l != "") && (rest != [] ==> rest[0] == "")
    ensures Stanzas(s + rest) == [s] + Stanzas(rest)
  {
    var lines := s + rest;
    if |s| == 1 {
      assert lines[1..] == rest;
      assert s == [lines[0]] && s[0] in s;
      if rest != [] {
        assert lines[1] == rest[0] == "";
      }
    } else {
      assert lines[1..] == s[1..] + rest;
      assert lines[1] == s[1] && s[1] in s;
      assert forall l :: l in s[1..] ==> l in s;
      StanzasHead(s[1..], rest);
      assert ([s[1..]] + Stanzas(rest))[1..] == Stanzas(rest);
      assert lines[0] == s[0] && s[0] in s;
      assert [s[0]] + s[1..] == s;
    }
  }

  // ----- the two together ------------------------------------------------------------------

  /** Fields that can be written one per line start and read again. */
  predicate Solid(pairs: Pairs) {
    pairs != [] && Writable(pairs) && forall p :: p in pairs ==> OneLine(p.0)
  }

  /** The lines of the whole file. */
  function AllLines(stanzas: seq<Pairs>): seq<string> {
    if stanzas == [] then []
    else StanzaLines(stanzas[0]) + (if |stanzas| == 1 then [] else [""] + AllLines(stanzas[1..]))
  }

  lemma {:induction false} TextIsLines(pairs: Pairs)
    requires pairs != []
    ensures StanzaText(pairs) + "\n" == Unlines(StanzaLines(pairs))
  {
    var first := FieldLines(pairs[0].0, pairs[0].1);
    UnlinesIsJoin(first);
    UnlinesAppend(first, StanzaLines(pairs[1..]));
    if |pairs| == 1 {
      assert StanzaLines(pairs[1..]) == [];
      assert Unlines(first) + "" == Unlines(first);
    } else {
      TextIsLines(pairs[1..]);
      var a, b := Join(first, "\n"), StanzaText(pairs[1..]);
      assert FieldTexts(pairs)[1..] == FieldTexts(pairs[1..]);
      assert (a + "\n" + b) + "\n" == (a + "\n") + (b + "\n");
    }
  }

  lemma {:induction false} FileIsLines(stanzas: seq<Pairs>)
    requires forall p :: p in stanzas ==> p != []
    ensures FileText(stanzas) == Unlines(AllLines(stanzas))
  {
    if stanzas != [] {
      assert stanzas[0] in stanzas && forall p :: p in stanzas[1..] ==> p in stanzas;
      var lines := StanzaLines(stanzas[0]);
      TextIsLines(stanzas[0]);
      if |stanzas| == 1 {
        assert lines + [] == lines;
      } else {
        FileIsLines(stanzas[1..]);
        SeparateTexts(StanzaText(stanzas[0]), StanzaTexts(stanzas[1..]));
        assert StanzaTexts(stanzas) == [StanzaText(stanzas[0])] + StanzaTexts(stanzas[1..]);
        SeparateLines(lines, AllLines(stanzas[1..]));
      }
    }
  }

  lemma SeparateTexts(a: string, texts: seq<string>)
    requires texts != []
    ensures Join([a] + texts, "\n\n") + "\n" == (a + "\n") + "\n" + (Join(texts, "\n\n") + "\n")
  {}

  lemma SeparateLines(lines: seq<string>, more: seq<string>)
    ensures Unlines(lines + ([""] + more)) == Unlines(lines) + "\n" + Unlines(more)
  {
    UnlinesAppend(lines, [""] + more);
    assert ([""] + more)[1..] == more;
    assert "" + "\n" + Unlines(more) == "\n" + Unlines(more);
    assert Unlines(lines) + ("\n" + Unlines(more)) == Unlines(lines) + "\n" + Unlines(more);
  }

  lemma {:induction false} StanzaLinesExist(pairs: Pairs)
    requires pairs != []
    ensures StanzaLines(pairs) != []
  {}

  lemma {:induction false} AllLinesFacts(stanzas: seq<Pairs>)
    requires forall p :: p in stanzas ==> Solid(p)
    ensures forall l :: l in AllLines(stanzas) ==> OneLine(l)
    ensures |Stanzas(AllLines(stanzas))| == |stanzas|
    ensures forall i :: 0 <= i < |stanzas| ==> Stanzas(AllLines(stanzas))[i] == StanzaLines(stanzas[i])
  {
    if stanzas != [] {
      assert stanzas[0] in stanzas && forall p :: p in stanzas[1..] ==> p in stanzas;
      StanzaLinesAreSolid(stanzas[0]);
      StanzaLinesExist(stanzas[0]);
      AllLinesFacts(stanzas[1..]);
      var rest := if |stanzas| == 1 then [] else [""] + AllLines(stanzas[1..]);
      StanzasHead(StanzaLines(stanzas[0]), rest);
      if |stanzas| > 1 {
        assert rest[1..] == AllLines(stanzas[1..]);
      }
    }
  }

  /** Cutting the written file at its empty lines gives back the stanzas, and parsing the text of
      each gives its fields as reread. */
  lemma FileReadsBack(stanzas: seq<Pairs>)
    requires forall p :: p in stanzas ==> Solid(p)
    ensures var cut := Stanzas(SplitLines(FileText(stanzas)));
            && |cut| == |stanzas|
            && forall i :: 0 <= i < |cut| ==> Parsed(Unlines(cut[i])) == Ok(AsRead(stanzas[i], map[]))
  {
    FileIsLines(stanzas);
    AllLinesFacts(stanzas);
    SplitUnlines(AllLines(stanzas));
    forall i | 0 <= i < |stanzas|
      ensures Parsed(Unlines(StanzaLines(stanzas[i]))) == Ok(AsRead(stanzas[i], map[]))
    {
      assert stanzas[i] in stanzas;
      StanzaLinesAreSolid(stanzas[i]);
      SplitUnlines(StanzaLines(stanzas[i]));
      ParseStanza(stanzas[i], NoField, map[]);
    }
  }
}
