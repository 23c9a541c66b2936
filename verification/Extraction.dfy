/** Unpacking the archive of a backup into an empty directory (_extract_archive of
    prvaptmirror/maintenance.py). */
module Extraction {
  import opened Basics
  import opened Text
  import opened PoolPath
  import opened RepositoryState

  type Parts = seq<string>

  datatype Kind = Folder | Regular | Special

  /** A member of the archive: its name as it is spelt, and as PurePosixPath takes it apart. */
  datatype Member = Member(name: string, absolute: bool, parts: Parts, kind: Kind, sha: Digest)

  /** The directory so far: the names seen, the folders, the package files, and the key files. */
  datatype Unpacked = Unpacked(seen: set<string>, folders: set<Parts>, pool: map<File, Digest>,
                               keys: map<Parts, Digest>)

  const NOTHING := Unpacked({}, {}, map[], map[])

  // ----- package files ---------------------------------------------------------------------

  /** The file at a path relative to repo/. */
  function FileAt(path: string): File {
    var segments, owner := Split(path, '/'), Owner(path);
    if owner.Some? && owner.value.name != [] && |segments| > 1 &&
       PoolRelative(segments[1], owner.value) == path
    then PoolFile(segments[1], owner.value)
    else Stray(path)
  }

  lemma FileAtIsThere(path: string)
    ensures var f := FileAt(path); (f.PoolFile? ==> f.nva.name != []) && FileText(f) == path
  {}

  /** So distinct paths are distinct files, and a package file is recognised. */
  lemma FileAtInjective(path: string, other: string)
    requires FileAt(path) == FileAt(other)
    ensures path == other
  {
    FileAtIsThere(path);
    FileAtIsThere(other);
  }

  lemma SecondSegment(first: string, second: string, rest: string)
    requires '/' !in first && '/' !in second
    ensures var s := Split(first + ['/'] + (second + ['/'] + rest), '/'); |s| > 1 && s[1] == second
  {
    SplitHead(first, '/', second + ['/'] + rest);
    SplitHead(second, '/', rest);
  }

  lemma ComponentOfPath(component: string, n: Nva)
    requires n.name != [] && '/' !in component
    ensures var s := Split(PoolRelative(component, n), '/'); |s| > 1 && s[1] == component
  {
    var below := PoolPrefix(n.name) + "/" + n.name + "/" + DebName(n);
    assert BelowComponent(n) == ['/'] + below;
    assert PoolRelative(component, n) == "pool" + ['/'] + (component + ['/'] + below);
    SecondSegment("pool", component, below);
  }

  lemma FileAtPackage(component: string, n: Nva)
    requires ValidNva(n) && '/' !in component
    ensures FileAt(PoolRelative(component, n)) == PoolFile(component, n)
  {
    OwnerOfPoolRelative(component, n);
    ComponentOfPath(component, n);
    PackageAt(PoolRelative(component, n), component, n);
  }

  lemma PackageAt(path: string, component: string, n: Nva)
    requires Owner(path) == Some(n) && n.name != [] && PoolRelative(component, n) == path
    requires |Split(path, '/')| > 1 && Split(path, '/')[1] == component
    ensures FileAt(path) == PoolFile(component, n)
  {}

  // ----- paths -----------------------------------------------------------------------------

  predicate InPool(parts: Parts) { ["repo", "pool"] <= parts }

  predicate Allowed(parts: Parts) { InPool(parts) || ["gnupg"] <= parts || parts == ["secret-key"] }

  predicate Admissible(m: Member) { !m.absolute && ".." !in m.parts && Allowed(m.parts) && !m.kind.Special? }

  /** Where the file system ends up when it walks these parts from a directory. */
  function Walk(from: Parts, parts: Parts): Parts {
    if parts == [] then from
    else if parts[|parts| - 1] == ".." then
      var w := Walk(from, parts[..|parts| - 1]);
      if w == [] then [] else w[..|w| - 1]
    else Walk(from, parts[..|parts| - 1]) + [parts[|parts| - 1]]
  }

  lemma {:induction false} WalkStaysBelow(from: Parts, parts: Parts)
    requires ".." !in parts
    ensures Walk(from, parts) == from + parts
  {
    if parts == [] {
      assert from + parts == from;
    } else {
      var front := parts[..|parts| - 1];
      assert parts == front + [parts[|parts| - 1]];
      WalkStaysBelow(from, front);
      assert from + front + [parts[|parts| - 1]] == from + parts;
    }
  }

  /** An accepted member lands below the staged directory, in the pool, the key directory or the
      secret; without the check for dots it need not. */
  lemma AdmissibleStaysBelow(staged: Parts, m: Member)
    requires Admissible(m)
    ensures var at := Walk(staged, m.parts);
            || staged + ["repo", "pool"] <= at
            || staged + ["gnupg"] <= at
            || at == staged + ["secret-key"]
  {
    WalkStaysBelow(staged, m.parts);
  }

  lemma DotsLeadOut(staged: Parts)
    requires staged != []
    ensures var parts := ["gnupg", "..", ".."]; Allowed(parts) && Walk(staged, parts) == staged[..|staged| - 1]
  {
    var parts := ["gnupg", "..", ".."];
    assert parts[..2] == ["gnupg", ".."] && parts[..2][..1] == ["gnupg"] && ["gnupg"][..0] == [];
    assert Walk(staged, ["gnupg"]) == staged + ["gnupg"];
    assert Walk(staged, parts[..2]) == staged;
  }

  // ----- unpacking -------------------------------------------------------------------------

  /** Relative to repo/. */
  function PoolText(parts: Parts): string
    requires parts != []
  {
    Join(parts[1..], "/")
  }

  predicate IsFile(u: Unpacked, parts: Parts) {
    if InPool(parts) then FileAt(PoolText(parts)) in u.pool else parts in u.keys
  }

  predicate UnderFile(u: Unpacked, parts: Parts) { exists i :: 0 < i < |parts| && IsFile(u, parts[..i]) }

  /** One turn of the loop, or None where it raises: an unacceptable or repeated member, a folder where
      a file is, a file where anything is. */
  function AfterMember(u: Unpacked, m: Member): Option<Unpacked> {
    if !Admissible(m) || m.name in u.seen || UnderFile(u, m.parts) || IsFile(u, m.parts) then None
    else
      var above := u.folders + set i | 0 < i < |m.parts| :: m.parts[..i];
      var seen := u.seen + {m.name};
      if m.kind.Folder? then Some(u.(seen := seen, folders := above + {m.parts}))
      else if m.parts in u.folders then None
      else if InPool(m.parts)
      then Some(u.(seen := seen, folders := above, pool := u.pool[FileAt(PoolText(m.parts)) := m.sha]))
      else Some(u.(seen := seen, folders := above, keys := u.keys[m.parts := m.sha]))
  }

  function AfterMembers(members: seq<Member>): Option<Unpacked> {
    if members == [] then Some(NOTHING)
    else
      match AfterMembers(members[..|members| - 1])
      case None => None
      case Some(u) => AfterMember(u, members[|members| - 1])
  }

  /** What has to be there in the end; that the secret is not blank is up to its content. */
  predicate Keyed(u: Unpacked) { ["gnupg"] in u.folders && ["repo", "pool"] in u.folders && ["secret-key"] in u.keys }

  lemma {:induction false} FrontUnpacks(members: seq<Member>, i: nat)
    requires i <= |members| && AfterMembers(members).Some?
    ensures AfterMembers(members[..i]).Some?
  {
    if i < |members| {
      FrontUnpacks(members[..|members| - 1], i);
      assert members[..|members| - 1][..i] == members[..i];
    } else {
      assert members[..i] == members;
    }
  }

  /** The content under a path. */
  function ContentAt(u: Unpacked, parts: Parts): Option<Digest> {
    if !IsFile(u, parts) then None
    else if InPool(parts) then Some(u.pool[FileAt(PoolText(parts))])
    else Some(u.keys[parts])
  }

  /** One member adds itself and touches nothing else. */
  lemma MemberArrives(u: Unpacked, m: Member, v: Unpacked, parts: Parts)
    requires AfterMember(u, m) == Some(v)
    ensures ContentAt(u, parts).Some? ==> ContentAt(v, parts) == ContentAt(u, parts)
    ensures m.kind.Regular? ==> ContentAt(v, m.parts) == Some(m.sha)
  {}

  lemma LastUnpacks(members: seq<Member>) returns (u: Unpacked)
    requires members != [] && AfterMembers(members).Some?
    ensures var n := |members| - 1;
            AfterMembers(members[..n]) == Some(u) && AfterMember(u, members[n]) == AfterMembers(members)
  {
    u := AfterMembers(members[..|members| - 1]).value;
  }

  lemma ArrivesNext(u: Unpacked, m: Member, v: Unpacked, parts: Parts, sha: Digest)
    requires AfterMember(u, m) == Some(v)
    requires ContentAt(u, parts) == Some(sha) || (m.kind.Regular? && m.parts == parts && m.sha == sha)
    ensures ContentAt(v, parts) == Some(sha)
  {
    MemberArrives(u, m, v, parts);
  }

  /** Every file of the archive arrives under its own path, and nothing is written over it. */
  lemma {:induction false} MembersArrive(members: seq<Member>, i: nat)
    requires i < |members| && AfterMembers(members).Some? && members[i].kind.Regular?
    ensures ContentAt(AfterMembers(members).value, members[i].parts) == Some(members[i].sha)
  {
    var n, file := |members| - 1, members[i];
    var u := LastUnpacks(members);
    if i < n {
      MembersArrive(members[..n], i);
      assert ContentAt(u, file.parts) == Some(file.sha);
    }
    ArrivesNext(u, members[n], AfterMembers(members).value, file.parts, file.sha);
  }

  /** The member a package file comes from. */
  predicate Brings(m: Member, f: File, sha: Digest) {
    m.kind.Regular? && InPool(m.parts) && f == FileAt(PoolText(m.parts)) && m.sha == sha
  }

  lemma OneArrives(u: Unpacked, m: Member, v: Unpacked, f: File)
    requires AfterMember(u, m) == Some(v) && f in v.pool
    ensures (f in u.pool && u.pool[f] == v.pool[f]) || Brings(m, f, v.pool[f])
  {}

  /** No other package file is created: each is some member's. */
  lemma {:induction false} OnlyMembersArrive(members: seq<Member>, f: File)
    requires AfterMembers(members).Some? && f in AfterMembers(members).value.pool
    ensures exists m :: m in members && Brings(m, f, AfterMembers(members).value.pool[f])
  {
    var n := |members| - 1;
    var u, v := AfterMembers(members[..n]).value, AfterMembers(members).value;
    OneArrives(u, members[n], v, f);
    if Brings(members[n], f, v.pool[f]) {
      assert members[n] in members;
    } else {
      OnlyMembersArrive(members[..n], f);
      var m :| m in members[..n] && Brings(m, f, u.pool[f]);
      assert m in members;
    }
  }

  // ----- when an archive is accepted -------------------------------------------------------

  /** What a member has to be on its own: a folder or a regular file below the pool or the key
      directory, or the secret. */
  predicate Fits(m: Member) {
    && !m.absolute && ".." !in m.parts && (m.kind.Folder? || m.kind.Regular?)
    && (["repo", "pool"] <= m.parts || ["gnupg"] <= m.parts || m.parts == ["secret-key"])
  }

  /** What two members have to be to each other: of different names, and neither at or below the other
      if that is a file. */
  predicate Agrees(a: Member, b: Member) {
    && a.name != b.name
    && !(a.kind.Regular? && a.parts <= b.parts)
    && !(b.kind.Regular? && b.parts <= a.parts)
  }

  /** Parts of a path have no slash in them, unless the path is absolute. */
  predicate Slashless(parts: Parts) { forall p :: p in parts ==> '/' !in p }

  lemma PoolTextInjective(a: Parts, b: Parts)
    requires |a| > 1 && |b| > 1 && a[0] == b[0] && Slashless(a) && Slashless(b) && PoolText(a) == PoolText(b)
    ensures a == b
  {
    assert forall p :: p in a[1..] ==> p in a;
    assert forall p :: p in b[1..] ==> p in b;
    SplitJoin(a[1..], '/');
    SplitJoin(b[1..], '/');
    assert a == [a[0]] + a[1..] && b == [b[0]] + b[1..];
  }

  /** What the members so far have left: their names, their files, and their folders with all above. */
  ghost predicate LeftBy(members: seq<Member>, u: Unpacked) {
    && (forall m :: m in members ==> m.parts != [] && !m.kind.Special?)
    && (forall n :: n in u.seen <==> exists m :: m in members && m.name == n)
    && (forall p :: Slashless(p) ==> (IsFile(u, p) <==> exists m :: m in members && m.kind.Regular? && m.parts == p))
    && (forall p :: p in u.folders <==>
          p != [] && exists m :: m in members && (p < m.parts || (m.kind.Folder? && p == m.parts)))
  }

  /** A member is taken exactly if it fits and agrees with all before it. */
  lemma TakenIff(members: seq<Member>, u: Unpacked, m: Member)
    requires LeftBy(members, u) && (!m.absolute ==> Slashless(m.parts))
    ensures AfterMember(u, m).Some? <==> Fits(m) && forall a :: a in members ==> Agrees(a, m)
  {
    if Fits(m) {
      FilesInTheWay(members, u, m);
      if !(exists a :: a in members && a.kind.Regular? && a.parts <= m.parts) {
        FoldersInTheWay(members, u, m);
      }
    }
  }

  lemma FilesInTheWay(members: seq<Member>, u: Unpacked, m: Member)
    requires LeftBy(members, u) && Slashless(m.parts) && m.parts != []
    ensures UnderFile(u, m.parts) || IsFile(u, m.parts) <==>
            exists a :: a in members && a.kind.Regular? && a.parts <= m.parts
  {
    forall i | 0 < i < |m.parts| ensures Slashless(m.parts[..i]) {}
    if UnderFile(u, m.parts) || IsFile(u, m.parts) {
      var p :| p <= m.parts && Slashless(p) && IsFile(u, p);
      var a :| a in members && a.kind.Regular? && a.parts == p;
    }
    if a :| a in members && a.kind.Regular? && a.parts <= m.parts {
      FilesAbove(members, u, m, a);
    }
  }

  lemma FoldersInTheWay(members: seq<Member>, u: Unpacked, m: Member)
    requires LeftBy(members, u) && m.parts != [] && Fits(m)
    requires forall a :: a in members && a.kind.Regular? ==> !(a.parts <= m.parts)
    ensures m.parts in u.folders <==> exists a :: a in members && m.parts <= a.parts
  {
    if a :| a in members && m.parts <= a.parts {
      assert m.parts < a.parts || (a.kind.Folder? && m.parts == a.parts);
    }
  }

  lemma FilesAbove(members: seq<Member>, u: Unpacked, m: Member, a: Member)
    requires LeftBy(members, u) && Slashless(m.parts) && a in members && a.kind.Regular? && a.parts <= m.parts
    requires a.parts != []
    ensures UnderFile(u, m.parts) || IsFile(u, m.parts)
  {
    var i := |a.parts|;
    assert a.parts == m.parts[..i];
    assert Slashless(a.parts);
    assert IsFile(u, a.parts);
    if i == |m.parts| {
      assert a.parts == m.parts;
    } else {
      assert IsFile(u, m.parts[..i]);
    }
  }


  lemma NamesLeft(members: seq<Member>, u: Unpacked, m: Member, v: Unpacked)
    requires LeftBy(members, u) && AfterMember(u, m) == Some(v)
    ensures forall n :: n in v.seen <==> exists x :: x in members + [m] && x.name == n
  {}

  lemma FilesLeft(members: seq<Member>, u: Unpacked, m: Member, v: Unpacked, p: Parts)
    requires LeftBy(members, u) && AfterMember(u, m) == Some(v) && Slashless(m.parts) && Slashless(p)
    ensures IsFile(v, p) <==> exists x :: x in members + [m] && x.kind.Regular? && x.parts == p
  {
    assert m in members + [m];
    assert IsFile(v, p) <==> IsFile(u, p) || (m.kind.Regular? && m.parts == p) by {
      if m.kind.Regular? && InPool(m.parts) && InPool(p) && PoolText(p) != PoolText(m.parts) {
        if FileAt(PoolText(p)) == FileAt(PoolText(m.parts)) {
          FileAtInjective(PoolText(p), PoolText(m.parts));
        }
      } else if m.kind.Regular? && InPool(m.parts) && InPool(p) {
        PoolTextInjective(p, m.parts);
      }
    }
    if x :| x in members && x.kind.Regular? && x.parts == p {
      assert x in members + [m];
    }
  }

  lemma FoldersLeft(members: seq<Member>, u: Unpacked, m: Member, v: Unpacked, p: Parts)
    requires LeftBy(members, u) && AfterMember(u, m) == Some(v)
    ensures p in v.folders <==>
            p != [] && exists x :: x in members + [m] && (p < x.parts || (x.kind.Folder? && p == x.parts))
  {
    assert m in members + [m];
    assert p in v.folders <==>
           p in u.folders || (p != [] && (p < m.parts || (m.kind.Folder? && p == m.parts))) by {
      if p != [] && p < m.parts {
        assert p == m.parts[..|p|];
      }
    }
    if x :| x in members && (p < x.parts || (x.kind.Folder? && p == x.parts)) {
      assert x in members + [m];
    }
  }

  lemma LeftByStep(members: seq<Member>, u: Unpacked, m: Member, v: Unpacked)
    requires LeftBy(members, u) && AfterMember(u, m) == Some(v) && Slashless(m.parts)
    ensures LeftBy(members + [m], v)
  {
    NamesLeft(members, u, m, v);
    forall p | Slashless(p)
      ensures IsFile(v, p) <==> exists x :: x in members + [m] && x.kind.Regular? && x.parts == p
    {
      FilesLeft(members, u, m, v, p);
    }
    forall p
      ensures p in v.folders <==>
              p != [] && exists x :: x in members + [m] && (p < x.parts || (x.kind.Folder? && p == x.parts))
    {
      FoldersLeft(members, u, m, v, p);
    }
  }

  /** Any archive: it is accepted exactly if every member fits and every two agree. */
  lemma {:induction false} UnpacksIff(members: seq<Member>)
    requires forall m :: m in members && !m.absolute ==> Slashless(m.parts)
    ensures AfterMembers(members).Some? <==>
            && (forall m :: m in members ==> Fits(m))
            && (forall i, j :: 0 <= i < j < |members| ==> Agrees(members[i], members[j]))
    ensures AfterMembers(members).Some? ==> LeftBy(members, AfterMembers(members).value)
  {
    if members != [] {
      var front, last := members[..|members| - 1], members[|members| - 1];
      assert members == front + [last];
      UnpacksIff(front);
      if AfterMembers(front).Some? {
        var u := AfterMembers(front).value;
        TakenIff(front, u, last);
        AgreesWithAll(front, last);
        if AfterMember(u, last).Some? {
          LeftByStep(front, u, last, AfterMember(u, last).value);
        }
      } else {
        assert forall m :: m in front ==> m in members;
        assert forall i :: 0 <= i < |front| ==> front[i] == members[i];
      }
    }
  }

  lemma AgreesWithAll(front: seq<Member>, last: Member)
    ensures var all := front + [last];
            (forall i, j :: 0 <= i < j < |all| ==> Agrees(all[i], all[j])) <==>
            && (forall i, j :: 0 <= i < j < |front| ==> Agrees(front[i], front[j]))
            && (forall a :: a in front ==> Agrees(a, last))
  {
    var all := front + [last];
    if forall i, j :: 0 <= i < j < |all| ==> Agrees(all[i], all[j]) {
      forall i, j | 0 <= i < j < |front| ensures Agrees(front[i], front[j]) {
        assert Agrees(all[i], all[j]);
      }
      forall a | a in front ensures Agrees(a, last) {
        var i :| 0 <= i < |front| && front[i] == a;
        assert Agrees(all[i], all[|front|]);
      }
    }
  }
}
