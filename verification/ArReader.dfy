/** The ar reader of prvaptmirror/debparse.py, and the writer of the repository's package builder
    (tests/deb_builder.py). */
module ArReader {
  import opened Basics
  import opened Text
  import opened ArFraming

  // ----- header fields ---------------------------------------------------------------------

  predicate AsciiSpace(c: char) { c == ' ' || '\t' <= c <= '\r' }

  function StripBytes(s: Bytes): Bytes
    decreases |s|
  {
    if s != [] && AsciiSpace(s[0]) then StripBytes(s[1..])
    else if s != [] && AsciiSpace(s[|s| - 1]) then StripBytes(s[..|s| - 1])
    else s
  }

  function AsciiOrReplacement(c: char): char { if c < '\U{80}' then c else '\U{fffd}' }

  function DecodeAscii(s: Bytes): string { seq(|s|, i requires 0 <= i < |s| => AsciiOrReplacement(s[i])) }

  function HeaderName(hdr: Bytes): string
    requires |hdr| == 60
  {
    RStripSlashes(Strip(DecodeAscii(hdr[..16])))
  }

  function HeaderSize(hdr: Bytes): Option<int>
    requires |hdr| == 60
  {
    var field := StripBytes(hdr[48..58]);
    PyInt(if field == [] then "0" else field)
  }

  // ----- the format ------------------------------------------------------------------------

  function ParseHeader(hdr: Bytes): Header {
    if |hdr| != 60 then Header(false, "", None)
    else Header(hdr[58..60] == "`\n", HeaderName(hdr), HeaderSize(hdr))
  }

  function KindOf(name: string): Kind {
    if "debian-binary" <= name then DebianBinary
    else if "control.tar" <= name then ControlTar
    else Other
  }

  const MAX_CONTROL_ARCHIVE_BYTES: nat := 16777216

  function Limit(kind: Kind): nat { if kind.DebianBinary? then 16 else MAX_CONTROL_ARCHIVE_BYTES }

  function Deb(): Format {
    Format("!<arch>\n", (h: Bytes) => ParseHeader(h), (n: string) => KindOf(n), (k: Kind) => Limit(k))
  }

  method ReadArMembers(file: Bytes) returns (r: Result<seq<Member>, ArError>)
    ensures match Entries(Deb(), file)
            case Err(e) => r == Err(e)
            case Ok(entries) => r == Ok(Members(entries))
  {
    r := ReadMembers(Deb(), file);
  }

  // ----- the writer ------------------------------------------------------------------------

  function Spaces(n: nat): Bytes { seq(n, _ => ' ') }

  /** s.ljust(n) */
  function LJust(s: Bytes, n: nat): (r: Bytes)
    ensures |s| <= n ==> |r| == n
  {
    if |s| >= n then s else s + Spaces(n - |s|)
  }

  function HeaderMiddle(date: Bytes): Bytes { LJust(date, 12) + LJust("0", 6) + LJust("0", 6) + LJust("100644", 8) }

  /** _ar_header */
  function ArHeader(name: string, date: Bytes, size: nat): Bytes {
    LJust(name + "/", 16) + HeaderMiddle(date) + LJust(Decimal(size), 10) + "`\n"
  }

  lemma {:induction false} RStripSpaces(s: string, n: nat)
    requires s != [] ==> !Whitespace(s[|s| - 1])
    ensures RStrip(s + Spaces(n)) == s
  {
    if n > 0 {
      assert (s + Spaces(n))[..|s| + n - 1] == s + Spaces(n - 1);
      RStripSpaces(s, n - 1);
    } else {
      assert s + Spaces(0) == s;
    }
  }

  lemma {:induction false} StripBytesSpaces(s: Bytes, n: nat)
    requires s != [] && !AsciiSpace(s[0]) && !AsciiSpace(s[|s| - 1])
    ensures StripBytes(s + Spaces(n)) == s
  {
    if n > 0 {
      assert (s + Spaces(n))[..|s| + n - 1] == s + Spaces(n - 1);
      StripBytesSpaces(s, n - 1);
    } else {
      assert s + Spaces(0) == s;
    }
  }

  lemma NameFieldReads(name: string)
    requires |name| <= 15 && (forall i :: 0 <= i < |name| ==> name[i] < '\U{80}')
    requires name != [] ==> !Whitespace(name[0]) && name[|name| - 1] != '/'
    ensures |LJust(name + "/", 16)| == 16
    ensures RStripSlashes(Strip(DecodeAscii(LJust(name + "/", 16)))) == name
  {
    var s := name + "/";
    var field := LJust(s, 16);
    assert field == s + Spaces(16 - |s|);
    assert DecodeAscii(field) == field;
    assert LStrip(field) == field;
    RStripSpaces(s, 16 - |s|);
    assert s[..|s| - 1] == name;
  }

  lemma SizeFieldReads(n: nat)
    requires |Decimal(n)| <= 10
    ensures |LJust(Decimal(n), 10)| == 10
    ensures StripBytes(LJust(Decimal(n), 10)) == Decimal(n)
  {
    assert LJust(Decimal(n), 10) == Decimal(n) + Spaces(10 - |Decimal(n)|);
    StripBytesSpaces(Decimal(n), 10 - |Decimal(n)|);
  }

  lemma HeaderParts(a: Bytes, b: Bytes, c: Bytes, d: Bytes)
    requires |a| == 16 && |b| == 32 && |c| == 10 && |d| == 2
    ensures var h := a + b + c + d;
            |h| == 60 && h[..16] == a && h[48..58] == c && h[58..60] == d
  {}

  /** A written header is read back. */
  lemma HeaderReads(name: string, date: Bytes, size: nat)
    requires |name| <= 15 && |date| <= 12 && |Decimal(size)| <= 10
    requires forall i :: 0 <= i < |name| ==> name[i] < '\U{80}'
    requires name != [] ==> !Whitespace(name[0]) && name[|name| - 1] != '/'
    ensures |ArHeader(name, date, size)| == 60
    ensures ParseHeader(ArHeader(name, date, size)) == Header(true, name, Some(size))
  {
    NameFieldReads(name);
    SizeFieldReads(size);
    PyIntOfDecimal(size);
    HeaderParts(LJust(name + "/", 16), HeaderMiddle(date), LJust(Decimal(size), 10), "`\n");
  }

  datatype Source = Source(name: string, date: Bytes, data: Bytes)

  function Framing(m: Source): Framed { Framed(ArHeader(m.name, m.date, |m.data|), m.name, m.data) }

  function Framings(ms: seq<Source>): seq<Framed> { seq(|ms|, i requires 0 <= i < |ms| => Framing(ms[i])) }

  /** Names and sizes that fit their header fields, and metadata within its limits: 16 bytes for the
      format version, 16 MiB for the control archive. */
  predicate Fits(m: Source) {
    && |m.name| <= 15 && |m.date| <= 12 && |Decimal(|m.data|)| <= 10
    && (forall i :: 0 <= i < |m.name| ==> m.name[i] < '\U{80}')
    && (m.name != [] ==> !Whitespace(m.name[0]) && m.name[|m.name| - 1] != '/')
    && ("debian-binary" <= m.name ==> |m.data| <= 16)
    && ("control.tar" <= m.name ==> |m.data| <= 16 * 1024 * 1024)
  }

  /** The two names that mark metadata. */
  predicate Metadata(name: string) { "debian-binary" <= name || "control.tar" <= name }

  predicate SameMetadata(a: string, b: string) {
    ("debian-binary" <= a && "debian-binary" <= b) || ("control.tar" <= a && "control.tar" <= b)
  }

  lemma KindsAre(a: string, b: string)
    ensures KindOf(a).Other? <==> !Metadata(a)
    ensures Metadata(a) ==> (KindOf(a) == KindOf(b) <==> SameMetadata(a, b))
  {
    if "debian-binary" <= a {
      assert a[0] == 'd';
    } else if "control.tar" <= a {
      assert a[0] == 'c';
    }
    if "debian-binary" <= b {
      assert b[0] == 'd';
    } else if "control.tar" <= b {
      assert b[0] == 'c';
    }
  }

  lemma FitsIsHeaded(m: Source)
    requires Fits(m)
    ensures Headed(Deb(), Framing(m))
  {
    KindsAre(m.name, m.name);
    HeaderReads(m.name, m.date, |m.data|);
  }

  /** Reading what the writer emits returns the same members in the same order. */
  lemma WriterRoundTrip(ms: seq<Source>)
    requires |ms| <= 128 && forall m :: m in ms ==> Fits(m)
    requires forall i, j :: 0 <= i < j < |ms| ==> !SameMetadata(ms[i].name, ms[j].name)
    ensures var r := Entries(Deb(), ArFile(Deb(), Framings(ms)));
            && r.Ok? && |r.value| == |ms|
            && forall i :: 0 <= i < |ms| ==>
                 var m := ms[i];
                 r.value[i] == Entry(Member(m.name, if Metadata(m.name) then Some(m.data) else None), |m.data|)
  {
    var fs, f := Framings(ms), Deb();
    forall m | m in fs ensures Headed(f, m) {
      var i :| 0 <= i < |fs| && fs[i] == m;
      FitsIsHeaded(ms[i]);
    }
    forall i, j | 0 <= i < j < |ms|
      ensures KindOf(ms[i].name).Other? || KindOf(ms[i].name) != KindOf(ms[j].name)
    {
      KindsAre(ms[i].name, ms[j].name);
    }
    WrittenReadsBack(f, fs);
    EntriesOfIndex(f, fs);
    forall i | 0 <= i < |ms| ensures KindOf(ms[i].name).Other? <==> !Metadata(ms[i].name) {
      KindsAre(ms[i].name, ms[i].name);
    }
  }

  /** At this offset of the file there is a header of 60 bytes that ends in the closing bytes, the bytes
      of the member and a pad to an even size; metadata is within its limit and returned byte by byte,
      of everything else only the name is. */
  ghost predicate MemberAt(file: Bytes, o: nat, e: Entry) {
    && o + 60 + e.size + e.size % 2 <= |file|
    && file[o + 58..o + 60] == "`\n"
    && e.member.data == (if Metadata(e.member.name) then Some(file[o + 60..o + 60 + e.size]) else None)
    && ("debian-binary" <= e.member.name ==> e.size <= 16)
    && ("control.tar" <= e.member.name ==> e.size <= 16 * 1024 * 1024)
  }

  lemma EntryIsMember(file: Bytes, o: nat, e: Entry)
    requires EntryAt(Deb(), file, o, e)
    ensures MemberAt(file, o, e)
  {
    KindsAre(e.member.name, e.member.name);
    assert file[o..o + 60][58..60] == file[o + 58..o + 60];
  }

  /** Whatever file is accepted starts with the magic and has at most 128 members, one after the other to
      the end of the file, and of each kind of metadata at most one. */
  lemma AcceptedDeb(file: Bytes, entries: seq<Entry>) returns (at: seq<nat>)
    requires Entries(Deb(), file) == Ok(entries)
    ensures "!<arch>\n" <= file && |entries| <= 128
    ensures |at| == |entries| + 1 && at[0] == 8 && at[|entries|] == |file|
    ensures forall i :: 0 <= i < |entries| ==>
              at[i + 1] == at[i] + 60 + entries[i].size + entries[i].size % 2 && MemberAt(file, at[i], entries[i])
    ensures forall i, j :: 0 <= i < j < |entries| ==> !SameMetadata(entries[i].member.name, entries[j].member.name)
  {
    var f := Deb();
    AcceptedIsAccounted(f, file);
    at := Offsets(f, file, entries);
    forall i | 0 <= i < |entries| ensures MemberAt(file, at[i], entries[i]) {
      EntryIsMember(file, at[i], entries[i]);
    }
    forall i, j | 0 <= i < j < |entries|
      ensures !SameMetadata(entries[i].member.name, entries[j].member.name)
    {
      AccountedEntries(f, file, entries, j);
      KindsAre(entries[j].member.name, entries[i].member.name);
    }
  }

  lemma {:induction false} Offsets(f: Format, file: Bytes, entries: seq<Entry>) returns (at: seq<nat>)
    requires Accounted(f, file, entries)
    ensures |entries| <= MAX_AR_MEMBERS && |at| == |entries| + 1
    ensures at[0] == |f.magic| && at[|entries|] == End(f, entries)
    ensures forall i :: 0 <= i < |entries| ==>
              && at[i + 1] == at[i] + 60 + entries[i].size + entries[i].size % 2
              && EntryAt(f, file, at[i], entries[i])
  {
    if entries == [] {
      return [|f.magic|];
    }
    var n := |entries| - 1;
    var front := Offsets(f, file, entries[..n]);
    at := front + [End(f, entries)];
  }
}
