/** The framing of an ar archive: headers of 60 bytes, bodies, pads to an even size.  How a header
    is read is a parameter here; ArReader supplies the one of prvaptmirror/debparse.py.  A byte is
    a character below 256. */
module ArFraming {
  import opened Basics

  type Bytes = string

  datatype ArError = BadMagic | ShortHeader | BadHeader | BadSize | Truncated | DuplicateKind | TooLarge

  /** What the reader returns for a member: metadata members come with their bytes. */
  datatype Member = Member(name: string, data: Option<Bytes>)

  /** The same with the size the header announced. */
  datatype Entry = Entry(member: Member, size: nat)

  /** The header fields the reader looks at. */
  datatype Header = Header(closed: bool, name: string, size: Option<int>)

  datatype Kind = DebianBinary | ControlTar | Other

  datatype Format = Format(magic: Bytes, parse: Bytes -> Header, kindOf: string -> Kind, limit: Kind -> nat)

  const MAX_AR_MEMBERS: nat := 128

  predicate HasKind(f: Format, entries: seq<Entry>, kind: Kind) {
    exists i :: 0 <= i < |entries| && f.kindOf(entries[i].member.name) == kind
  }

  function Padded(size: nat): nat { size + size % 2 }

  /** The member at pos, given the members before it. */
  function ReadEntry(f: Format, file: Bytes, pos: nat, before: seq<Entry>): (r: Result<Entry, ArError>)
    requires pos < |file|
    ensures r.Ok? ==> pos + 60 + Padded(r.value.size) <= |file|
  {
    if |file| - pos < 60 then Err(ShortHeader)
    else
      var hdr := f.parse(file[pos..pos + 60]);
      if !hdr.closed || |before| >= MAX_AR_MEMBERS then Err(BadHeader)
      else if hdr.size.None? then Err(BadSize)
      else if hdr.size.value < 0 || pos + 60 + Padded(hdr.size.value) > |file| then Err(Truncated)
      else
        var kind := f.kindOf(hdr.name);
        if kind.Other? then Ok(Entry(Member(hdr.name, None), hdr.size.value))
        else if HasKind(f, before, kind) then Err(DuplicateKind)
        else if hdr.size.value > f.limit(kind) then Err(TooLarge)
        else Ok(Entry(Member(hdr.name, Some(file[pos + 60..pos + 60 + hdr.size.value])), hdr.size.value))
  }

  function ReadFrom(f: Format, file: Bytes, pos: nat, before: seq<Entry>): Result<seq<Entry>, ArError>
    requires pos <= |file|
    decreases |file| - pos
  {
    if pos == |file| then Ok(before)
    else
      match ReadEntry(f, file, pos, before)
      case Err(e) => Err(e)
      case Ok(entry) => ReadFrom(f, file, pos + 60 + Padded(entry.size), before + [entry])
  }

  function Entries(f: Format, file: Bytes): Result<seq<Entry>, ArError> {
    if !(f.magic <= file) then Err(BadMagic) else ReadFrom(f, file, |f.magic|, [])
  }

  function Members(entries: seq<Entry>): seq<Member> {
    seq(|entries|, i requires 0 <= i < |entries| => entries[i].member)
  }

  /** The loop of _read_ar_members. */
  method ReadMembers(f: Format, file: Bytes) returns (r: Result<seq<Member>, ArError>)
    ensures match Entries(f, file)
            case Err(e) => r == Err(e)
            case Ok(entries) => r == Ok(Members(entries))
  {
    if !(f.magic <= file) {
      return Err(BadMagic);
    }
    var members: seq<Member> := [];
    var kinds: set<Kind> := {};
    var pos := |f.magic|;
    ghost var entries: seq<Entry> := [];
    while pos < |file|
      invariant |f.magic| <= pos <= |file|
      invariant Entries(f, file) == ReadFrom(f, file, pos, entries)
      invariant members == Members(entries)
      invariant forall k :: k in kinds <==> !k.Other? && HasKind(f, entries, k)
    {
      if |file| - pos < 60 {
        return Err(ShortHeader);
      }
      var hdr := f.parse(file[pos..pos + 60]);
      if !hdr.closed || |members| >= MAX_AR_MEMBERS {
        return Err(BadHeader);
      }
      if hdr.size.None? {
        return Err(BadSize);
      }
      var size := hdr.size.value;
      if size < 0 || pos + 60 + size + size % 2 > |file| {
        return Err(Truncated);
      }
      var kind := f.kindOf(hdr.name);
      var member := Member(hdr.name, None);
      if !kind.Other? {
        if kind in kinds {
          return Err(DuplicateKind);
        }
        kinds := kinds + {kind};
        if size > f.limit(kind) {
          return Err(TooLarge);
        }
        member := Member(hdr.name, Some(file[pos + 60..pos + 60 + size]));
      }
      members := members + [member];
      HasKindSnoc(f, entries, Entry(member, size));
      entries := entries + [Entry(member, size)];
      pos := pos + 60 + size + size % 2;
    }
    return Ok(members);
  }

  lemma HasKindSnoc(f: Format, entries: seq<Entry>, e: Entry)
    ensures forall k :: HasKind(f, entries + [e], k) <==> HasKind(f, entries, k) || f.kindOf(e.member.name) == k
  {
    forall k ensures HasKind(f, entries + [e], k) <==> HasKind(f, entries, k) || f.kindOf(e.member.name) == k {
      assert (entries + [e])[|entries|] == e;
      if HasKind(f, entries, k) {
        var i :| 0 <= i < |entries| && f.kindOf(entries[i].member.name) == k;
        assert (entries + [e])[i] == entries[i];
      }
    }
  }

  // ----- acceptance accounts for every byte ------------------------------------------------

  /** Where the members end. */
  function End(f: Format, entries: seq<Entry>): nat {
    if entries == [] then |f.magic| else End(f, entries[..|entries| - 1]) + 60 + Padded(entries[|entries| - 1].size)
  }

  /** The entry is what the header at this offset says. */
  ghost predicate EntryAt(f: Format, file: Bytes, o: nat, e: Entry) {
    && o + 60 + Padded(e.size) <= |file|
    && f.parse(file[o..o + 60]) == Header(true, e.member.name, Some(e.size))
    && e.member.data == (if f.kindOf(e.member.name).Other? then None else Some(file[o + 60..o + 60 + e.size]))
    && (f.kindOf(e.member.name).Other? || e.size <= f.limit(f.kindOf(e.member.name)))
  }

  /** Each entry sits where the one before it ends, and no metadata kind comes twice. */
  ghost predicate Accounted(f: Format, file: Bytes, entries: seq<Entry>) {
    entries == [] ||
    var before, e := entries[..|entries| - 1], entries[|entries| - 1];
    && Accounted(f, file, before)
    && |before| < MAX_AR_MEMBERS
    && EntryAt(f, file, End(f, before), e)
    && (f.kindOf(e.member.name).Other? || !HasKind(f, before, f.kindOf(e.member.name)))
  }

  lemma AccountedSnoc(f: Format, file: Bytes, before: seq<Entry>, e: Entry)
    requires Accounted(f, file, before) && End(f, before) < |file|
    requires ReadEntry(f, file, End(f, before), before) == Ok(e)
    ensures Accounted(f, file, before + [e]) && End(f, before + [e]) == End(f, before) + 60 + Padded(e.size)
  {}

  lemma {:induction false} ReadFromAccounts(f: Format, file: Bytes, pos: nat, before: seq<Entry>)
    requires pos <= |file| && pos == End(f, before) && Accounted(f, file, before)
    requires ReadFrom(f, file, pos, before).Ok?
    ensures var entries := ReadFrom(f, file, pos, before).value;
            Accounted(f, file, entries) && End(f, entries) == |file|
    decreases |file| - pos
  {
    if pos < |file| {
      var e := ReadEntry(f, file, pos, before).value;
      AccountedSnoc(f, file, before, e);
      ReadFromAccounts(f, file, pos + 60 + Padded(e.size), before + [e]);
    }
  }

  /** An accepted file is the magic and its members' headers, bodies and pads, to the last byte. */
  lemma AcceptedIsAccounted(f: Format, file: Bytes)
    requires Entries(f, file).Ok?
    ensures var entries := Entries(f, file).value;
            f.magic <= file && Accounted(f, file, entries) && End(f, entries) == |file|
  {
    ReadFromAccounts(f, file, |f.magic|, []);
  }

  /** Entry by entry: at most 128, each at its place, at most one metadata member of each kind. */
  lemma {:induction false} AccountedEntries(f: Format, file: Bytes, entries: seq<Entry>, i: nat)
    requires Accounted(f, file, entries) && i < |entries|
    ensures |entries| <= MAX_AR_MEMBERS
    ensures EntryAt(f, file, End(f, entries[..i]), entries[i])
    ensures forall j :: 0 <= j < i ==>
              || f.kindOf(entries[i].member.name).Other?
              || f.kindOf(entries[j].member.name) != f.kindOf(entries[i].member.name)
  {
    var before := entries[..|entries| - 1];
    if i < |before| {
      AccountedEntries(f, file, before, i);
      assert before[..i] == entries[..i];
    }
  }

  // ----- writing ---------------------------------------------------------------------------

  /** A member with the header somebody wrote for it. */
  datatype Framed = Framed(header: Bytes, name: string, data: Bytes)

  function MemberBytes(m: Framed): Bytes {
    m.header + m.data + (if |m.data| % 2 == 1 then "\n" else "")
  }

  function Bodies(ms: seq<Framed>): Bytes { if ms == [] then [] else MemberBytes(ms[0]) + Bodies(ms[1..]) }

  function ArFile(f: Format, ms: seq<Framed>): Bytes { f.magic + Bodies(ms) }

  /** The header says what it should, and the member is within its limit. */
  predicate Headed(f: Format, m: Framed) {
    && |m.header| == 60 && f.parse(m.header) == Header(true, m.name, Some(|m.data|))
    && (f.kindOf(m.name).Other? || |m.data| <= f.limit(f.kindOf(m.name)))
  }

  predicate Archivable(f: Format, ms: seq<Framed>) {
    && |ms| <= MAX_AR_MEMBERS
    && (forall m :: m in ms ==> Headed(f, m))
    && (forall i, j :: 0 <= i < j < |ms| ==>
          f.kindOf(ms[i].name).Other? || f.kindOf(ms[i].name) != f.kindOf(ms[j].name))
  }

  function EntryOf(f: Format, m: Framed): Entry {
    Entry(Member(m.name, if f.kindOf(m.name).Other? then None else Some(m.data)), |m.data|)
  }

  function EntriesOf(f: Format, ms: seq<Framed>): seq<Entry> {
    if ms == [] then [] else EntriesOf(f, ms[..|ms| - 1]) + [EntryOf(f, ms[|ms| - 1])]
  }

  lemma {:induction false} EntriesOfIndex(f: Format, ms: seq<Framed>)
    ensures |EntriesOf(f, ms)| == |ms|
    ensures forall i :: 0 <= i < |ms| ==> EntriesOf(f, ms)[i] == EntryOf(f, ms[i])
  {
    if ms != [] {
      EntriesOfIndex(f, ms[..|ms| - 1]);
    }
  }

  /** Reading the next member of a written file. */
  lemma MemberReads(f: Format, front: Bytes, m: Framed, back: Bytes, before: seq<Entry>)
    requires Headed(f, m) && |before| < MAX_AR_MEMBERS
    requires f.kindOf(m.name).Other? || !HasKind(f, before, f.kindOf(m.name))
    ensures |MemberBytes(m)| == 60 + Padded(|m.data|)
    ensures ReadEntry(f, front + MemberBytes(m) + back, |front|, before) == Ok(EntryOf(f, m))
  {
    var file, pos := front + MemberBytes(m) + back, |front|;
    assert file[pos..pos + 60] == m.header;
    assert file[pos + 60..pos + 60 + |m.data|] == m.data;
  }

  lemma {:induction false} BodiesRead(f: Format, front: Bytes, ms: seq<Framed>, done: seq<Framed>)
    requires Archivable(f, done + ms)
    ensures ReadFrom(f, front + Bodies(ms), |front|, EntriesOf(f, done)) == Ok(EntriesOf(f, done + ms))
    decreases |ms|
  {
    if ms == [] {
      assert done + ms == done;
      assert front + Bodies(ms) == front;
    } else {
      var m, rest := ms[0], Bodies(ms[1..]);
      NextIsReadable(f, done, ms);
      MemberReads(f, front, m, rest, EntriesOf(f, done));
      assert (done + [m])[..|done|] == done;
      assert (done + [m]) + ms[1..] == done + ms;
      assert (front + MemberBytes(m)) + rest == front + Bodies(ms);
      BodiesRead(f, front + MemberBytes(m), ms[1..], done + [m]);
    }
  }

  lemma NextIsReadable(f: Format, done: seq<Framed>, ms: seq<Framed>)
    requires Archivable(f, done + ms) && ms != []
    ensures Headed(f, ms[0]) && |EntriesOf(f, done)| < MAX_AR_MEMBERS
    ensures f.kindOf(ms[0].name).Other? || !HasKind(f, EntriesOf(f, done), f.kindOf(ms[0].name))
  {
    var all := done + ms;
    assert all[|done|] == ms[0];
    assert forall i :: 0 <= i < |done| ==> all[i] == done[i];
    EntriesOfIndex(f, done);
  }

  /** Reading a written file returns the members that were written, in the same order. */
  lemma WrittenReadsBack(f: Format, ms: seq<Framed>)
    requires Archivable(f, ms)
    ensures Entries(f, ArFile(f, ms)) == Ok(EntriesOf(f, ms))
  {
    assert [] + ms == ms;
    BodiesRead(f, f.magic, ms, []);
  }
}
