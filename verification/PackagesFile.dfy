/** The Packages index (prvaptmirror/indexer.py, render_packages), and what a reader gets back when
    it cuts the file at empty lines and parses each stanza. */
module PackagesFile {
  import opened Basics
  import opened Text
  import opened ControlText
  import opened StanzaFile
  import PoolPath
  import Settings

  /** Fields taken from the control file, in the order they are written. */
  const CONTROL_FIELDS: seq<string> := [
    "Package", "Version", "Architecture", "Maintainer", "Installed-Size", "Depends", "Pre-Depends",
    "Recommends", "Suggests", "Conflicts", "Breaks", "Replaces", "Provides", "Enhances", "Section",
    "Priority", "Homepage", "Description", "Multi-Arch", "Built-Using", "Source"]

  /** Fields taken from the row, written after them. */
  const FILE_FIELDS: seq<string> := ["Filename", "Size", "MD5sum", "SHA1", "SHA256"]

  datatype PackageRow = PackageRow(
    name: string, version: string, arch: string, filename: string, size: nat,
    md5: string, sha1: string, sha256: string, control: Fields)

  // ----- what a row prints -----------------------------------------------------------------

  function Value(row: PackageRow, name: string): string {
    if name in row.control then row.control[name] else ""
  }

  /** The non-empty control fields, in the order of names. */
  function ControlPairs(row: PackageRow, names: seq<string>): Pairs {
    if names == [] then []
    else (if Value(row, names[0]) == "" then [] else [(names[0], Value(row, names[0]))]) + ControlPairs(row, names[1..])
  }

  /** The fields that come from the row itself. */
  function FilePairs(row: PackageRow): Pairs {
    [("Filename", row.filename), ("Size", Decimal(row.size)), ("MD5sum", row.md5), ("SHA1", row.sha1),
     ("SHA256", row.sha256)]
  }

  function RowPairs(row: PackageRow, names: seq<string>): Pairs { ControlPairs(row, names) + FilePairs(row) }

  function AllPairs(rows: seq<PackageRow>, names: seq<string>): seq<Pairs> {
    if rows == [] then [] else [RowPairs(rows[0], names)] + AllPairs(rows[1..], names)
  }

  /** Control values as the parser returns them; single-line values in the row. */
  predicate WellFormed(row: PackageRow) {
    && (forall n :: n in row.control ==> ParsedValue(row.control[n]))
    && (forall v :: v in [row.filename, row.md5, row.sha1, row.sha256] ==> OneLine(v) && ParsedValue(v))
  }

  lemma FilePairsAreParsed(row: PackageRow)
    requires WellFormed(row)
    ensures forall p :: p in FilePairs(row) ==> OneLine(p.1) && ParsedValue(p.1)
  {
    var four := [row.filename, row.md5, row.sha1, row.sha256];
    assert four[0] in four && four[1] in four && four[2] in four && four[3] in four;
    PlainIsParsed(Decimal(row.size));
  }

  // ----- the order of the rows -------------------------------------------------------------

  /** Python's order on strings. */
  predicate StringLe(a: string, b: string) {
    a == [] || (b != [] && (a[0] < b[0] || (a[0] == b[0] && StringLe(a[1..], b[1..]))))
  }

  lemma {:induction false} StringLeIsOrder(a: string, b: string, c: string)
    ensures StringLe(a, a)
    ensures StringLe(a, b) || StringLe(b, a)
    ensures StringLe(a, b) && StringLe(b, a) ==> a == b
    ensures StringLe(a, b) && StringLe(b, c) ==> StringLe(a, c)
    decreases |a| + |b| + |c|
  {
    if a != [] {
      assert [a[0]] + a[1..] == a;
      if b != [] {
        assert [b[0]] + b[1..] == b;
        StringLeIsOrder(a[1..], b[1..], if c == [] then [] else c[1..]);
      } else {
        StringLeIsOrder(a[1..], [], []);
      }
    }
  }

  /** sort_key: name, then Debian version, then architecture.  rank stands for the order of Debian
      versions; versions that compare equal have the same rank. */
  predicate RowLe(rank: string -> real, a: PackageRow, b: PackageRow) {
    if a.name != b.name then StringLe(a.name, b.name)
    else if rank(a.version) != rank(b.version) then rank(a.version) < rank(b.version)
    else StringLe(a.arch, b.arch)
  }

  lemma RowLeIsPreorder(rank: string -> real, a: PackageRow, b: PackageRow, c: PackageRow)
    ensures RowLe(rank, a, b) || RowLe(rank, b, a)
    ensures RowLe(rank, a, b) && RowLe(rank, b, c) ==> RowLe(rank, a, c)
  {
    StringLeIsOrder(a.name, b.name, c.name);
    StringLeIsOrder(b.name, c.name, a.name);
    StringLeIsOrder(a.arch, b.arch, c.arch);
  }

  /** a is a prefix of b, or smaller at the first character in which they differ. */
  ghost predicate Alphabetical(a: string, b: string) {
    a <= b || exists k :: 0 <= k < |a| && k < |b| && a[..k] == b[..k] && a[k] < b[k]
  }

  lemma {:induction false} StringLeIsAlphabetical(a: string, b: string)
    ensures StringLe(a, b) <==> Alphabetical(a, b)
  {
    if a != [] && b != [] && a[0] == b[0] {
      StringLeIsAlphabetical(a[1..], b[1..]);
      assert [a[0]] + a[1..] == a && [b[0]] + b[1..] == b;
      if k :| 0 <= k < |a[1..]| && k < |b[1..]| && a[1..][..k] == b[1..][..k] && a[1..][k] < b[1..][k] {
        assert a[..k + 1] == [a[0]] + a[1..][..k] && b[..k + 1] == [b[0]] + b[1..][..k];
        assert a[k + 1] < b[k + 1];
      }
      if k :| 0 <= k < |a| && k < |b| && a[..k] == b[..k] && a[k] < b[k] {
        assert k > 0;
        assert a[1..][..k - 1] == a[..k][1..] && b[1..][..k - 1] == b[..k][1..];
        assert a[1..][k - 1] < b[1..][k - 1];
      }
    } else if a != [] && b != [] {
      assert a[..0] == b[..0];
      assert forall k :: 0 < k <= |a| && k <= |b| ==> a[..k][0] == a[0] && b[..k][0] == b[0];
    }
  }

  /** By name, then by Debian version, then by architecture. */
  ghost predicate Follows(rank: string -> real, a: PackageRow, b: PackageRow) {
    if a.name != b.name then Alphabetical(a.name, b.name)
    else rank(a.version) < rank(b.version) || (rank(a.version) == rank(b.version) && Alphabetical(a.arch, b.arch))
  }

  function Insert(rank: string -> real, row: PackageRow, rows: seq<PackageRow>): seq<PackageRow> {
    if rows == [] then [row]
    else if RowLe(rank, row, rows[0]) then [row] + rows
    else [rows[0]] + Insert(rank, row, rows[1..])
  }

  /** sorted(rows, key=sort_key); equal keys keep their order. */
  function Sorted(rank: string -> real, rows: seq<PackageRow>): seq<PackageRow> {
    if rows == [] then [] else Insert(rank, rows[0], Sorted(rank, rows[1..]))
  }

  ghost predicate InOrder(rank: string -> real, rows: seq<PackageRow>) {
    forall i, j :: 0 <= i < j < |rows| ==> RowLe(rank, rows[i], rows[j])
  }

  lemma {:induction false} InsertKeepsAll(rank: string -> real, row: PackageRow, rows: seq<PackageRow>)
    ensures multiset(Insert(rank, row, rows)) == multiset(rows) + multiset{row}
  {
    if rows != [] {
      assert rows == [rows[0]] + rows[1..];
      if !RowLe(rank, row, rows[0]) {
        InsertKeepsAll(rank, row, rows[1..]);
      }
    }
  }

  lemma {:induction false} InsertKeepsOrder(rank: string -> real, row: PackageRow, rows: seq<PackageRow>)
    requires InOrder(rank, rows)
    ensures InOrder(rank, Insert(rank, row, rows))
  {
    if rows != [] {
      if RowLe(rank, row, rows[0]) {
        forall j | 0 <= j < |rows| ensures RowLe(rank, row, rows[j]) {
          RowLeIsPreorder(rank, row, rows[0], rows[j]);
        }
      } else {
        RowLeIsPreorder(rank, row, rows[0], row);
        InsertKeepsOrder(rank, row, rows[1..]);
        InsertKeepsAll(rank, row, rows[1..]);
        var r := Insert(rank, row, rows[1..]);
        forall j | 0 <= j < |r| ensures RowLe(rank, rows[0], r[j]) {
          assert r[j] in multiset(r);
          assert r[j] in multiset(rows[1..]) || r[j] == row;
        }
      }
    }
  }

  lemma {:induction false} SortedFacts(rank: string -> real, rows: seq<PackageRow>)
    ensures InOrder(rank, Sorted(rank, rows))
    ensures multiset(Sorted(rank, rows)) == multiset(rows)
  {
    if rows != [] {
      SortedFacts(rank, rows[1..]);
      InsertKeepsOrder(rank, rows[0], Sorted(rank, rows[1..]));
      InsertKeepsAll(rank, rows[0], Sorted(rank, rows[1..]));
      assert rows == [rows[0]] + rows[1..];
    }
  }

  // ----- render_packages -------------------------------------------------------------------

  lemma {:induction false} ControlPairsSnoc(row: PackageRow, names: seq<string>, n: string)
    ensures ControlPairs(row, names + [n]) ==
            ControlPairs(row, names) + (if Value(row, n) == "" then [] else [(n, Value(row, n))])
  {
    if names == [] {
      assert names + [n] == [n] && ([n])[1..] == [];
    } else {
      assert (names + [n])[1..] == names[1..] + [n];
      ControlPairsSnoc(row, names[1..], n);
    }
  }

  lemma {:induction false} AllPairsSnoc(rows: seq<PackageRow>, names: seq<string>, row: PackageRow)
    ensures AllPairs(rows + [row], names) == AllPairs(rows, names) + [RowPairs(row, names)]
  {
    if rows == [] {
      assert rows + [row] == [row] && ([row])[1..] == [];
    } else {
      assert (rows + [row])[1..] == rows[1..] + [row];
      AllPairsSnoc(rows[1..], names, row);
    }
  }

  /** The control part of the inner loop. */
  method RenderControl(row: PackageRow, names: seq<string>) returns (lines: seq<string>)
    ensures lines == FieldTexts(ControlPairs(row, names))
  {
    lines := [];
    for i := 0 to |names|
      invariant lines == FieldTexts(ControlPairs(row, names[..i]))
    {
      assert names[..i + 1] == names[..i] + [names[i]];
      ControlPairsSnoc(row, names[..i], names[i]);
      var value := Value(row, names[i]);
      if value != "" {
        var text := FormatField(names[i], value);
        FieldTextsAppend(ControlPairs(row, names[..i]), [(names[i], value)]);
        assert FieldTexts([(names[i], value)]) == [text];
        lines := lines + [text];
      } else {
        assert ControlPairs(row, names[..i]) + [] == ControlPairs(row, names[..i]);
      }
    }
    assert names[..|names|] == names;
  }

  lemma {:induction false} PlainTexts(pairs: Pairs)
    requires forall p :: p in pairs ==> OneLine(p.1) && ParsedValue(p.1)
    ensures |FieldTexts(pairs)| == |pairs|
    ensures forall i :: 0 <= i < |pairs| ==> FieldTexts(pairs)[i] == pairs[i].0 + ": " + pairs[i].1
  {
    if pairs != [] {
      assert pairs[0] in pairs && forall p :: p in pairs[1..] ==> p in pairs;
      OneLineField(pairs[0].0, pairs[0].1);
      PlainTexts(pairs[1..]);
    }
  }

  /** The lines of the file fields. */
  function FileLines(row: PackageRow): seq<string> {
    ["Filename" + ": " + row.filename, "Size" + ": " + Decimal(row.size), "MD5sum" + ": " + row.md5,
     "SHA1" + ": " + row.sha1, "SHA256" + ": " + row.sha256]
  }

  lemma FileLinesAreTexts(row: PackageRow)
    requires WellFormed(row)
    ensures FileLines(row) == FieldTexts(FilePairs(row))
  {
    FilePairsAreParsed(row);
    PlainTexts(FilePairs(row));
  }

  /** One turn of the outer loop. */
  method RenderStanza(row: PackageRow, names: seq<string>) returns (stanza: string)
    requires WellFormed(row)
    ensures stanza == StanzaText(RowPairs(row, names))
  {
    var lines := RenderControl(row, names);
    FileLinesAreTexts(row);
    FieldTextsAppend(ControlPairs(row, names), FilePairs(row));
    stanza := Join(lines + FileLines(row), "\n");
  }

  lemma SortedMembers(rank: string -> real, rows: seq<PackageRow>)
    ensures |Sorted(rank, rows)| == |rows|
    ensures forall r :: r in Sorted(rank, rows) ==> r in rows
  {
    var s := Sorted(rank, rows);
    SortedFacts(rank, rows);
    assert |s| == |multiset(s)| == |multiset(rows)| == |rows|;
    forall r | r in s ensures r in rows {
      assert r in multiset(s) && r in multiset(rows);
    }
  }

  // ----- the round trip --------------------------------------------------------------------

  /** Names that can head a field. */
  predicate GoodNames(names: seq<string>) {
    && (forall n :: n in names ==> FieldName(n) && OneLine(n))
    && (forall i, j :: 0 <= i < j < |names| ==> names[i] != names[j])
  }

  /** Without repeated names, reading keeps every pair and adds nothing. */
  lemma {:induction false} AsReadFacts(pairs: Pairs, fields: Fields, n: string)
    requires forall i, j :: 0 <= i < j < |pairs| ==> pairs[i].0 != pairs[j].0
    ensures var r := AsRead(pairs, fields);
            && (n in r <==> n in fields || exists p :: p in pairs && p.0 == n)
            && (forall p :: p in pairs && p.0 == n ==> r[n] == RereadValue(p.1))
            && (n in fields && (forall p :: p in pairs ==> p.0 != n) ==> r[n] == fields[n])
  {
    if pairs != [] {
      var rest := pairs[1..];
      assert pairs == [pairs[0]] + rest;
      assert forall p :: p in rest ==> p.0 != pairs[0].0;
      AsReadFacts(rest, fields[pairs[0].0 := RereadValue(pairs[0].1)], n);
    }
  }

  lemma {:induction false} ControlPairsFacts(row: PackageRow, names: seq<string>)
    requires GoodNames(names)
    ensures forall p :: p in ControlPairs(row, names) <==> p.0 in names && p.1 == Value(row, p.0) && p.1 != ""
    ensures forall i, j :: 0 <= i < j < |ControlPairs(row, names)| ==>
              ControlPairs(row, names)[i].0 != ControlPairs(row, names)[j].0
  {
    if names != [] {
      var rest := names[1..];
      assert names == [names[0]] + rest;
      assert forall i :: 0 <= i < |rest| ==> rest[i] == names[i + 1];
      assert GoodNames(rest);
      ControlPairsFacts(row, rest);
      forall j | 0 <= j < |ControlPairs(row, rest)| ensures ControlPairs(row, rest)[j].0 != names[0] {
        assert ControlPairs(row, rest)[j] in ControlPairs(row, rest);
      }
    }
  }

  lemma NamesAlone(names: seq<string>)
    requires GoodNames(names + FILE_FIELDS)
    ensures GoodNames(names)
    ensures forall n :: n in FILE_FIELDS ==> FieldName(n) && OneLine(n) && n !in names
  {
    var all := names + FILE_FIELDS;
    assert forall n :: n in names || n in FILE_FIELDS ==> n in all;
    assert forall i :: 0 <= i < |names| ==> all[i] == names[i];
    assert forall i :: 0 <= i < |FILE_FIELDS| ==> all[|names| + i] == FILE_FIELDS[i];
  }

  lemma FilePairNames(row: PackageRow)
    ensures |FilePairs(row)| == |FILE_FIELDS|
    ensures forall i :: 0 <= i < |FILE_FIELDS| ==> FilePairs(row)[i].0 == FILE_FIELDS[i]
  {}

  lemma RowPairsAreSolid(row: PackageRow, names: seq<string>)
    requires GoodNames(names + FILE_FIELDS) && WellFormed(row)
    ensures Solid(RowPairs(row, names))
  {
    NamesAlone(names);
    ControlPairsFacts(row, names);
    FilePairNames(row);
    FilePairsAreParsed(row);
    forall p | p in RowPairs(row, names) ensures FieldName(p.0) && OneLine(p.0) && ParsedValue(p.1) {
      if p in ControlPairs(row, names) {
        assert p.0 in row.control;
      } else {
        var i :| 0 <= i < |FilePairs(row)| && FilePairs(row)[i] == p;
        assert p.0 == FILE_FIELDS[i];
      }
    }
  }

  lemma RowPairsAreDistinct(row: PackageRow, names: seq<string>)
    requires GoodNames(names + FILE_FIELDS)
    ensures forall i, j :: 0 <= i < j < |RowPairs(row, names)| ==>
              RowPairs(row, names)[i].0 != RowPairs(row, names)[j].0
  {
    var pairs, k := RowPairs(row, names), |ControlPairs(row, names)|;
    var all := names + FILE_FIELDS;
    NamesAlone(names);
    ControlPairsFacts(row, names);
    FilePairNames(row);
    forall i, j | 0 <= i < j < |pairs| ensures pairs[i].0 != pairs[j].0 {
      if i < k <= j {
        assert pairs[i] in ControlPairs(row, names);
        assert pairs[j].0 == FILE_FIELDS[j - k];
      } else if k <= i {
        assert pairs[i].0 == all[|names| + (i - k)] && pairs[j].0 == all[|names| + (j - k)];
      }
    }
  }

  /** What parsing the stanza of a row gives: its non-empty control fields and its file fields and
      no others.  File fields come back as they were, a control field exactly when it survives. */
  ghost predicate ReadsBack(row: PackageRow, names: seq<string>, r: Result<Fields, ParseError>) {
    && r.Ok?
    && (forall n :: n in r.value <==>
          || (n in names && n in row.control && row.control[n] != "")
          || n in ["Filename", "Size", "MD5sum", "SHA1", "SHA256"])
    && "Filename" in r.value && r.value["Filename"] == row.filename
    && "Size" in r.value && r.value["Size"] == Decimal(row.size)
    && "MD5sum" in r.value && r.value["MD5sum"] == row.md5
    && "SHA1" in r.value && r.value["SHA1"] == row.sha1
    && "SHA256" in r.value && r.value["SHA256"] == row.sha256
    && (forall n :: n in names && n in row.control && row.control[n] != "" ==>
          n in r.value && (r.value[n] == row.control[n] <==> Survives(row.control[n])))
  }

  /** The text has one stanza per row, ordered by name, version and architecture, and each parses back
      to the fields of its row. */
  ghost predicate Represents(rank: string -> real, rows: seq<PackageRow>, names: seq<string>, text: string,
                             inOrder: seq<PackageRow>)
  {
    && multiset(inOrder) == multiset(rows)
    && (forall i, j :: 0 <= i < j < |inOrder| ==> Follows(rank, inOrder[i], inOrder[j]))
    && var cut := Stanzas(SplitLines(text));
       |cut| == |inOrder| && forall i :: 0 <= i < |cut| ==> ReadsBack(inOrder[i], names, Parsed(Unlines(cut[i])))
  }

  lemma OneLineSurvives(v: string)
    requires OneLine(v) && ParsedValue(v)
    ensures RereadValue(v) == v
  {
    SplitNone(v, '\n');
    RereadValueIff(v);
  }

  /** The names that come back. */
  lemma RowNames(row: PackageRow, names: seq<string>, n: string)
    requires GoodNames(names + FILE_FIELDS)
    ensures n in AsRead(RowPairs(row, names), map[]) <==> (n in names && Value(row, n) != "") || n in FILE_FIELDS
  {
    var pairs := RowPairs(row, names);
    RowPairsAreDistinct(row, names);
    NamesAlone(names);
    FilePairNames(row);
    ControlPairsFacts(row, names);
    AsReadFacts(pairs, map[], n);
    if n in names && Value(row, n) != "" {
      assert (n, Value(row, n)) in ControlPairs(row, names);
      assert (n, Value(row, n)) in pairs;
    } else if n in FILE_FIELDS {
      var i :| 0 <= i < |FILE_FIELDS| && FILE_FIELDS[i] == n;
      assert FilePairs(row)[i] in pairs;
    } else {
      forall p | p in pairs ensures p.0 != n {
        if p !in ControlPairs(row, names) {
          var i :| 0 <= i < |FilePairs(row)| && FilePairs(row)[i] == p;
          assert p.0 == FILE_FIELDS[i];
        }
      }
    }
  }

  lemma FileFieldReadsBack(row: PackageRow, names: seq<string>, i: nat, n: string, v: string)
    requires GoodNames(names + FILE_FIELDS) && WellFormed(row)
    requires i < |FilePairs(row)| && FilePairs(row)[i] == (n, v)
    ensures var r := AsRead(RowPairs(row, names), map[]); n in r && r[n] == v
  {
    var p := FilePairs(row)[i];
    RowPairsAreDistinct(row, names);
    FilePairsAreParsed(row);
    assert p in FilePairs(row) && p in RowPairs(row, names);
    AsReadFacts(RowPairs(row, names), map[], n);
    OneLineSurvives(v);
  }

  lemma RowReadsBack(row: PackageRow, names: seq<string>)
    requires GoodNames(names + FILE_FIELDS) && WellFormed(row)
    ensures ReadsBack(row, names, Ok(AsRead(RowPairs(row, names), map[])))
  {
    var pairs := RowPairs(row, names);
    var r := AsRead(pairs, map[]);
    RowPairsAreDistinct(row, names);
    NamesAlone(names);
    ControlPairsFacts(row, names);
    FileFieldReadsBack(row, names, 0, "Filename", row.filename);
    FileFieldReadsBack(row, names, 1, "Size", Decimal(row.size));
    FileFieldReadsBack(row, names, 2, "MD5sum", row.md5);
    FileFieldReadsBack(row, names, 3, "SHA1", row.sha1);
    FileFieldReadsBack(row, names, 4, "SHA256", row.sha256);
    forall n | n in names && Value(row, n) != ""
      ensures n in r && (r[n] == Value(row, n) <==> Survives(Value(row, n)))
    {
      assert (n, Value(row, n)) in ControlPairs(row, names);
      assert (n, Value(row, n)) in pairs;
      AsReadFacts(pairs, map[], n);
      RereadValueIff(Value(row, n));
    }
    forall n ensures n in r <==> (n in names && Value(row, n) != "") || n in FILE_FIELDS {
      RowNames(row, names, n);
    }
  }

  lemma {:induction false} AllPairsFacts(rows: seq<PackageRow>, names: seq<string>)
    ensures |AllPairs(rows, names)| == |rows|
    ensures forall i :: 0 <= i < |rows| ==> AllPairs(rows, names)[i] == RowPairs(rows[i], names)
  {
    if rows != [] {
      AllPairsFacts(rows[1..], names);
    }
  }

  /** The round trip: the rendered file, cut at its empty lines, has one stanza per row, in sorted
      order, and each stanza parses back to the fields of its row. */
  lemma RoundTrip(rank: string -> real, rows: seq<PackageRow>, names: seq<string>)
    requires GoodNames(names + FILE_FIELDS) && forall r :: r in rows ==> WellFormed(r)
    ensures Represents(rank, rows, names, FileText(AllPairs(Sorted(rank, rows), names)), Sorted(rank, rows))
  {
    var s := Sorted(rank, rows);
    SortedFacts(rank, rows);
    SortedMembers(rank, rows);
    forall i, j | 0 <= i < j < |s| ensures Follows(rank, s[i], s[j]) {
      assert RowLe(rank, s[i], s[j]);
      StringLeIsAlphabetical(s[i].name, s[j].name);
      StringLeIsAlphabetical(s[i].arch, s[j].arch);
    }
    AllPairsFacts(s, names);
    var all := AllPairs(s, names);
    forall p | p in all ensures Solid(p) {
      var i :| 0 <= i < |all| && all[i] == p;
      assert s[i] in s;
      RowPairsAreSolid(s[i], names);
    }
    FileReadsBack(all);
    forall i | 0 <= i < |s| ensures ReadsBack(s[i], names, Ok(AsRead(all[i], map[]))) {
      assert s[i] in s;
      RowReadsBack(s[i], names);
    }
  }

  /** The loop over the sorted rows. */
  method RenderSorted(rows: seq<PackageRow>, names: seq<string>) returns (text: string)
    requires rows != [] && forall r :: r in rows ==> WellFormed(r)
    ensures text == FileText(AllPairs(rows, names))
  {
    var stanzas: seq<string> := [];
    for i := 0 to |rows|
      invariant stanzas == StanzaTexts(AllPairs(rows[..i], names))
    {
      var stanza := RenderStanza(rows[i], names);
      assert rows[..i + 1] == rows[..i] + [rows[i]];
      AllPairsSnoc(rows[..i], names, rows[i]);
      StanzaTextsSnoc(AllPairs(rows[..i], names), RowPairs(rows[i], names));
      stanzas := stanzas + [stanza];
    }
    assert rows[..|rows|] == rows;
    text := Join(stanzas, "\n\n") + "\n";
  }

  method RenderPackages(rank: string -> real, rows: seq<PackageRow>, names: seq<string>)
    returns (text: string, ghost inOrder: seq<PackageRow>)
    requires forall r :: r in rows ==> WellFormed(r)
    ensures text == FileText(AllPairs(inOrder, names)) && inOrder == Sorted(rank, rows)
    ensures GoodNames(names + FILE_FIELDS) ==> Represents(rank, rows, names, text, inOrder)
  {
    var sorted := Sorted(rank, rows);
    inOrder := sorted;
    SortedMembers(rank, rows);
    if GoodNames(names + FILE_FIELDS) {
      RoundTrip(rank, rows, names);
    }
    if rows == [] {
      return "", inOrder;
    }
    text := RenderSorted(sorted, names);
  }

  // ----- the field names of the source -----------------------------------------------------

  /** Length, first and last character tell the names apart. */
  function FieldIndex(s: string): int
    requires s != []
  {
    var n, a, z := |s|, s[0], s[|s| - 1];
    if n == 4 then (if z == 'e' then 22 else 24)
    else if n == 6 then (if a == 'B' then 10 else if a == 'M' then 23 else if z == 'e' then 20 else 25)
    else if n == 7 then (if a == 'P' then 0 else if a == 'V' then 1 else if a == 'D' then 5 else 14)
    else if n == 8 then (if a == 'S' then 8 else if a == 'R' then 11 else if a == 'E' then 13
                         else if a == 'H' then 16 else if a == 'F' then 21 else if z == 's' then 12 else 15)
    else if n == 9 then 9
    else if n == 10 then (if a == 'R' then 7 else if z == 'r' then 3 else 18)
    else if n == 11 then (if a == 'P' then 6 else if a == 'D' then 17 else 19)
    else if n == 12 then 2
    else 4
  }

  lemma ControlFieldIndex(i: nat)
    requires i < |CONTROL_FIELDS|
    ensures CONTROL_FIELDS[i] != [] && FieldIndex(CONTROL_FIELDS[i]) == i
  {}

  lemma FileFieldIndex(i: nat)
    requires i < |FILE_FIELDS|
    ensures FILE_FIELDS[i] != [] && FieldIndex(FILE_FIELDS[i]) == 21 + i
  {}

  predicate NameChar(c: char) { 'A' <= c <= 'Z' || 'a' <= c <= 'z' || Digit(c) || c == '-' }

  lemma ControlFieldChars(i: nat, k: nat)
    requires i < |CONTROL_FIELDS| && k < |CONTROL_FIELDS[i]|
    ensures NameChar(CONTROL_FIELDS[i][k])
  {}

  lemma FileFieldChars(i: nat, k: nat)
    requires i < |FILE_FIELDS| && k < |FILE_FIELDS[i]|
    ensures NameChar(FILE_FIELDS[i][k])
  {}

  /** So the round trip holds for the fields the source writes, whatever a package manager goes by among
      them. */
  lemma SourceFieldsAreGood()
    ensures GoodNames(CONTROL_FIELDS + FILE_FIELDS)
    ensures forall n :: n in ["Package", "Version", "Architecture", "Depends", "Pre-Depends"] ==> n in CONTROL_FIELDS
    ensures forall n :: n in ["Conflicts", "Breaks", "Replaces", "Provides", "Multi-Arch"] ==> n in CONTROL_FIELDS
    ensures forall n :: n in ["Recommends", "Suggests", "Enhances", "Source", "Built-Using"] ==> n in CONTROL_FIELDS
    ensures forall n :: n in ["Maintainer", "Installed-Size", "Section", "Priority", "Homepage", "Description"] ==>
              n in CONTROL_FIELDS
  {
    var f := CONTROL_FIELDS;
    assert [f[0], f[1], f[2], f[5], f[6]] == ["Package", "Version", "Architecture", "Depends", "Pre-Depends"];
    assert [f[9], f[10], f[11], f[12], f[18]] == ["Conflicts", "Breaks", "Replaces", "Provides", "Multi-Arch"];
    assert [f[7], f[8], f[13], f[20], f[19]] == ["Recommends", "Suggests", "Enhances", "Source", "Built-Using"];
    assert [f[3], f[4], f[14], f[15], f[16], f[17]]
        == ["Maintainer", "Installed-Size", "Section", "Priority", "Homepage", "Description"];
    var all, c := CONTROL_FIELDS + FILE_FIELDS, |CONTROL_FIELDS|;
    forall i | 0 <= i < |all|
      ensures all[i] != [] && FieldIndex(all[i]) == i
      ensures forall k :: 0 <= k < |all[i]| ==> NameChar(all[i][k])
    {
      if i < c {
        ControlFieldIndex(i);
        forall k | 0 <= k < |all[i]| ensures NameChar(all[i][k]) {
          ControlFieldChars(i, k);
        }
      } else {
        FileFieldIndex(i - c);
        forall k | 0 <= k < |all[i]| ensures NameChar(all[i][k]) {
          FileFieldChars(i - c, k);
        }
      }
    }
  }

  // ----- the rows of the source ------------------------------------------------------------

  /** Printable ASCII without spaces. */
  predicate Plain(s: string) { forall i :: 0 <= i < |s| ==> '!' <= s[i] <= '~' }

  lemma PlainIsParsed(s: string)
    requires Plain(s) && s != "."
    ensures OneLine(s) && ParsedValue(s)
  {
    SplitNone(s, '\n');
  }

  lemma PoolPathIsPlain(component: string, n: PoolPath.Nva)
    requires Settings.RepoNameOk(component) && PoolPath.ValidNva(n)
    ensures Plain(PoolPath.PoolRelative(component, n)) && |PoolPath.PoolRelative(component, n)| > 1
  {}

  /** The round trip applies to every row that parse_deb and the placement can produce: control
      values come from the parser, except that the package name may be lower-cased; the file name
      is the pool path of an accepted package; digests are hexadecimal. */
  lemma SourceRowsAreWellFormed(row: PackageRow, text: string, component: string, n: PoolPath.Nva)
    requires Parsed(text).Ok?
    requires forall k :: k in row.control ==>
               (k in Parsed(text).value && row.control[k] == Parsed(text).value[k]) || row.control[k] == n.name
    requires Settings.RepoNameOk(component) && PoolPath.ValidNva(n)
    requires row.filename == PoolPath.PoolRelative(component, n)
    requires forall s :: s in [row.md5, row.sha1, row.sha256] ==> Plain(s) && |s| > 1
    ensures WellFormed(row)
  {
    forall k | k in row.control ensures ParsedValue(row.control[k]) {
      if row.control[k] == n.name {
        NameIsParsed(n);
      } else {
        ParserGivesParsedValues(text, k);
      }
    }
    PoolPathIsPlain(component, n);
    assert row.md5 in [row.md5, row.sha1, row.sha256] && row.sha1 in [row.md5, row.sha1, row.sha256]
        && row.sha256 in [row.md5, row.sha1, row.sha256];
    forall v | v in [row.filename, row.md5, row.sha1, row.sha256] ensures OneLine(v) && ParsedValue(v) {
      PlainIsParsed(v);
    }
  }

  lemma NameIsParsed(n: PoolPath.Nva)
    requires PoolPath.ValidNva(n)
    ensures ParsedValue(n.name)
  {
    assert forall i :: 0 <= i < |n.name| ==> PoolPath.NameChar(n.name[i]);
    PlainIsParsed(n.name);
  }
}
