/** What a backup archives (backup of prvaptmirror/maintenance.py): the pool, the key directory and the
    secret, member by member as tarfile.add lists them, and that a restore accepts it. */
module Backups {
  import opened Basics
  import opened Text
  import opened PoolPath
  import opened RepositoryState
  import opened Extraction

  /** A directory tree; the entries of a directory by name, in the order they are listed.  Anything that
      is neither a directory nor a regular file is Other: a socket, a link, a device. */
  datatype Node = Plain(sha: Digest) | Directory(entries: Entries) | Other
  datatype Entries = NoEntries | Entry(name: string, node: Node, more: Entries)

  /** What of a data directory goes into the archive. */
  datatype Data = Data(pool: Entries, keys: Entries, secret: Digest)

  // ----- trees -----------------------------------------------------------------------------

  predicate HasName(e: Entries, name: string) { e.Entry? && (e.name == name || HasName(e.more, name)) }

  /** What a file system sees to: no two entries of a directory have the same name, and names are not
      empty, have no slash and are not those of the directory itself and the one above. */
  predicate Sane(e: Entries) {
    e.Entry? ==>
      && e.name != "" && '/' !in e.name && e.name != "." && e.name != ".."
      && !HasName(e.more, e.name) && Sane(e.more)
      && (e.node.Directory? ==> Sane(e.node.entries))
  }

  /** What is under a path. */
  function Find(e: Entries, path: Parts): Option<Node> {
    if e.NoEntries? || path == [] then None
    else if e.name != path[0] then Find(e.more, path)
    else if |path| == 1 then Some(e.node)
    else if e.node.Directory? then Find(e.node.entries, path[1..])
    else None
  }

  lemma {:induction false} FindNeedsName(e: Entries, path: Parts)
    requires path != [] && !HasName(e, path[0])
    ensures Find(e, path) == None
  {
    if e.Entry? {
      FindNeedsName(e.more, path);
    }
  }

  // ----- archiving -------------------------------------------------------------------------

  /** The filter leaves the sockets of the key agent out: whatever has a name that starts with "S."
      below gnupg. */
  predicate LeftOut(parts: Parts) { |parts| > 1 && parts[0] == "gnupg" && "S." <= parts[|parts| - 1] }

  function MemberFor(parts: Parts, kind: Kind, sha: Digest): Member {
    Member(Join(parts, "/"), false, parts, kind, sha)
  }

  /** archive.add: a directory before what is in it; None where the filter raises. */
  function Listing(parts: Parts, node: Node): Option<seq<Member>>
    decreases node
  {
    if LeftOut(parts) then Some([])
    else
      match node
      case Other => None
      case Plain(sha) => Some([MemberFor(parts, Regular, sha)])
      case Directory(entries) =>
        match ListAll(parts, entries)
        case None => None
        case Some(ms) => Some([MemberFor(parts, Folder, "")] + ms)
  }

  function ListAll(parts: Parts, e: Entries): Option<seq<Member>>
    decreases e
  {
    match e
    case NoEntries => Some([])
    case Entry(name, node, more) =>
      match Listing(parts + [name], node)
      case None => None
      case Some(ms) =>
        match ListAll(parts, more)
        case None => None
        case Some(rest) => Some(ms + rest)
  }

  /** The members of the archive. */
  function Archived(d: Data): Option<seq<Member>> {
    match Listing(["repo", "pool"], Directory(d.pool))
    case None => None
    case Some(pool) =>
      match Listing(["gnupg"], Directory(d.keys))
      case None => None
      case Some(keys) => Some(pool + keys + [MemberFor(["secret-key"], Regular, d.secret)])
  }

  // ----- its members agree -----------------------------------------------------------------

  /** A member of a listing: below parts, named after its path. */
  predicate Below(parts: Parts, m: Member) {
    && parts <= m.parts && Slashless(m.parts) && ".." !in m.parts
    && m.name == Join(m.parts, "/") && !m.absolute && !m.kind.Special?
  }

  ghost predicate AllBelow(parts: Parts, ms: seq<Member>) { forall m :: m in ms ==> Below(parts, m) }

  ghost predicate AllAgree(ms: seq<Member>) { forall i, j :: 0 <= i < j < |ms| ==> Agrees(ms[i], ms[j]) }

  /** Members at different paths have different names; where neither path is part of the other, they
      agree whatever they are. */
  lemma DifferentPaths(a: Member, b: Member)
    requires Below([], a) && Below([], b) && a.parts != [] && b.parts != [] && a.parts != b.parts
    ensures a.name != b.name
    ensures !(a.parts <= b.parts) && !(b.parts <= a.parts) ==> Agrees(a, b)
    ensures a.kind.Folder? && !(b.parts <= a.parts) ==> Agrees(a, b)
  {
    SplitJoin(a.parts, '/');
    SplitJoin(b.parts, '/');
  }

  lemma AgreeTogether(xs: seq<Member>, ys: seq<Member>)
    requires AllAgree(xs) && AllAgree(ys) && forall x, y :: x in xs && y in ys ==> Agrees(x, y)
    ensures AllAgree(xs + ys)
  {
    var all := xs + ys;
    forall i, j | 0 <= i < j < |all| ensures Agrees(all[i], all[j]) {
      if j < |xs| {
        assert Agrees(xs[i], xs[j]);
      } else if i >= |xs| {
        assert Agrees(ys[i - |xs|], ys[j - |xs|]);
      } else {
        assert xs[i] in xs && ys[j - |xs|] in ys;
      }
    }
  }

  /** Two listings below paths that part at k. */
  lemma ApartAgree(p: Parts, xs: seq<Member>, q: Parts, ys: seq<Member>, k: nat)
    requires AllBelow(p, xs) && AllBelow(q, ys) && k < |p| && k < |q| && p[k] != q[k]
    ensures forall x, y :: x in xs && y in ys ==> Agrees(x, y)
  {
    forall x, y | x in xs && y in ys ensures Agrees(x, y) {
      assert x.parts[k] == p[k] && y.parts[k] == q[k];
      DifferentPaths(x, y);
    }
  }

  lemma {:induction false} ListingAgrees(parts: Parts, node: Node)
    requires parts != [] && Slashless(parts) && ".." !in parts && (node.Directory? ==> Sane(node.entries))
    ensures Listing(parts, node).Some? ==>
              AllBelow(parts, Listing(parts, node).value) && AllAgree(Listing(parts, node).value)
    decreases node
  {
    if !LeftOut(parts) && node.Directory? && ListAll(parts, node.entries).Some? {
      ListAllAgrees(parts, node.entries);
      var head, ms := MemberFor(parts, Folder, ""), ListAll(parts, node.entries).value;
      forall x, y | x in [head] && y in ms ensures Agrees(x, y) {
        DifferentPaths(head, y);
      }
      AgreeTogether([head], ms);
    }
  }

  lemma {:induction false} ListAllAgrees(parts: Parts, e: Entries)
    requires parts != [] && Slashless(parts) && ".." !in parts && Sane(e)
    ensures ListAll(parts, e).Some? ==>
              && AllBelow(parts, ListAll(parts, e).value) && AllAgree(ListAll(parts, e).value)
              && forall m :: m in ListAll(parts, e).value ==> |m.parts| > |parts| && HasName(e, m.parts[|parts|])
    decreases e
  {
    if e.Entry? && ListAll(parts, e).Some? {
      var at := parts + [e.name];
      ListingAgrees(at, e.node);
      ListAllAgrees(parts, e.more);
      var ms, rest := Listing(at, e.node).value, ListAll(parts, e.more).value;
      forall m | m in ms ensures m.parts[..|at|] == at {}
      forall m | m in ms ensures Below(parts, m) && m.parts[|parts|] == e.name {
        assert m.parts[|parts|] == at[|parts|];
      }
      forall x, y | x in ms && y in rest ensures Agrees(x, y) {
        assert y.parts[|parts|] != e.name;
        DifferentPaths(x, y);
      }
      AgreeTogether(ms, rest);
    }
  }

  /** What a backup archives is accepted: every member fits and every two agree. */
  lemma ArchiveAgrees(d: Data)
    requires Sane(d.pool) && Sane(d.keys) && Archived(d).Some?
    ensures (forall m :: m in Archived(d).value ==> Fits(m) && Slashless(m.parts)) && AllAgree(Archived(d).value)
  {
    ListingAgrees(["repo", "pool"], Directory(d.pool));
    ListingAgrees(["gnupg"], Directory(d.keys));
    var pool, keys := Listing(["repo", "pool"], Directory(d.pool)).value, Listing(["gnupg"], Directory(d.keys)).value;
    var secret := [MemberFor(["secret-key"], Regular, d.secret)];
    assert AllBelow(["secret-key"], secret);
    ApartAgree(["repo", "pool"], pool, ["gnupg"], keys, 0);
    ApartAgree(["repo", "pool"], pool, ["secret-key"], secret, 0);
    ApartAgree(["gnupg"], keys, ["secret-key"], secret, 0);
    AgreeTogether(pool, keys);
    AgreeTogether(pool + keys, secret);
  }

  // ----- when a backup raises --------------------------------------------------------------

  /** Below gnupg, some name on the path starts with "S.". */
  ghost predicate Dropped(parts: Parts, path: Parts)
    requires parts != []
  {
    parts[0] == "gnupg" && exists p :: p in path && "S." <= p
  }

  /** Going down one name. */
  lemma DroppedBelow(parts: Parts, path: Parts)
    requires parts != [] && path != []
    ensures Dropped(parts, path) <==> LeftOut(parts + [path[0]]) || Dropped(parts + [path[0]], path[1..])
  {
    var at := parts + [path[0]];
    assert at[0] == parts[0] && at[|at| - 1] == path[0];
    assert forall p :: p in path <==> p == path[0] || p in path[1..];
    if LeftOut(at) {
      assert path[0] in path && "S." <= path[0];
    }
  }

  /** A listing raises exactly if there is something else than files and directories that is not left
      out. */
  lemma {:induction false} ListAllRaises(parts: Parts, e: Entries)
    requires parts != [] && Sane(e)
    ensures ListAll(parts, e).None? <==> exists path :: Find(e, path) == Some(Other) && !Dropped(parts, path)
    decreases e
  {
    if e.Entry? {
      var at := parts + [e.name];
      ListAllRaises(parts, e.more);
      if e.node.Directory? {
        ListAllRaises(at, e.node.entries);
      }
      if path :| Find(e, path) == Some(Other) && !Dropped(parts, path) {
        DroppedBelow(parts, path);
        if path[0] != e.name {
          assert Find(e.more, path) == Some(Other);
        } else if |path| > 1 {
          assert Find(e.node.entries, path[1..]) == Some(Other) && !Dropped(at, path[1..]);
        }
      }
      if Listing(at, e.node).None? {
        if e.node.Other? {
          DroppedBelow(parts, [e.name]);
          assert Find(e, [e.name]) == Some(Other) && !Dropped(parts, [e.name]);
        } else {
          var path :| Find(e.node.entries, path) == Some(Other) && !Dropped(at, path);
          assert ([e.name] + path)[1..] == path;
          DroppedBelow(parts, [e.name] + path);
          assert Find(e, [e.name] + path) == Some(Other);
        }
      } else if ListAll(parts, e.more).None? {
        var path :| Find(e.more, path) == Some(Other) && !Dropped(parts, path);
        if path[0] == e.name {
          FindNeedsName(e.more, path);
        }
        assert Find(e, path) == Some(Other);
      }
    }
  }

  /** A backup is made exactly if there is nothing but files and directories in the pool and, sockets
      aside, in the key directory. */
  lemma ArchivedIff(d: Data)
    requires Sane(d.pool) && Sane(d.keys)
    ensures Archived(d).Some? <==>
            && (forall path :: Find(d.pool, path) != Some(Other))
            && (forall path :: Find(d.keys, path) == Some(Other) ==> exists p :: p in path && "S." <= p)
  {
    ListAllRaises(["repo", "pool"], d.pool);
    ListAllRaises(["gnupg"], d.keys);
  }

  // ----- what is in it ---------------------------------------------------------------------

  /** This file is among the members. */
  ghost predicate Carries(ms: seq<Member>, at: Parts, sha: Digest) {
    exists m :: m in ms && m.kind.Regular? && m.parts == at && m.sha == sha
  }

  lemma CarriesEither(xs: seq<Member>, ys: seq<Member>, at: Parts, sha: Digest)
    ensures Carries(xs + ys, at, sha) <==> Carries(xs, at, sha) || Carries(ys, at, sha)
  {
    assert forall m :: m in xs + ys <==> m in xs || m in ys;
  }

  lemma CarriesOneOfThree(xs: seq<Member>, ys: seq<Member>, zs: seq<Member>, at: Parts, sha: Digest)
    ensures Carries(xs + ys + zs, at, sha) <==> Carries(xs, at, sha) || Carries(ys, at, sha) || Carries(zs, at, sha)
  {
    CarriesEither(xs + ys, zs, at, sha);
    CarriesEither(xs, ys, at, sha);
  }

  /** The files of a listing are the files of the tree but those left out. */
  lemma {:induction false} ListAllCarries(parts: Parts, e: Entries, path: Parts, sha: Digest)
    requires parts != [] && Slashless(parts) && ".." !in parts && Sane(e) && path != [] && ListAll(parts, e).Some?
    ensures Carries(ListAll(parts, e).value, parts + path, sha) <==>
            Find(e, path) == Some(Plain(sha)) && !Dropped(parts, path)
    decreases e
  {
    if e.Entry? {
      var at := parts + [e.name];
      var ms, rest := Listing(at, e.node).value, ListAll(parts, e.more).value;
      ListAllAgrees(parts, e.more);
      ListingAgrees(at, e.node);
      ListAllCarries(parts, e.more, path, sha);
      CarriesEither(ms, rest, parts + path, sha);
      assert (parts + path)[|parts|] == path[0];
      if path[0] == e.name {
        FindNeedsName(e.more, path);
        EntryCarries(parts, e, path, sha);
      } else {
        assert forall m :: m in ms ==> m.parts[|parts|] == at[|parts|];
      }
    }
  }

  lemma {:induction false} EntryCarries(parts: Parts, e: Entries, path: Parts, sha: Digest)
    requires parts != [] && Slashless(parts) && ".." !in parts && Sane(e) && path != []
    requires e.Entry? && path[0] == e.name && Listing(parts + [e.name], e.node).Some?
    ensures Carries(Listing(parts + [e.name], e.node).value, parts + path, sha) <==>
            Find(e, path) == Some(Plain(sha)) && !Dropped(parts, path)
    decreases e, 0
  {
    var at := parts + [e.name];
    var ms := Listing(at, e.node).value;
    DroppedBelow(parts, path);
    assert parts + path == at + path[1..];
    if LeftOut(at) {
    } else if e.node.Plain? {
      assert ms == [MemberFor(at, Regular, e.node.sha)];
      if |path| == 1 {
        assert at + path[1..] == at;
        assert MemberFor(at, Regular, e.node.sha) in ms;
      }
    } else {
      var below := ListAll(at, e.node.entries).value;
      CarriesEither([MemberFor(at, Folder, "")], below, parts + path, sha);
      if |path| == 1 {
        ListAllAgrees(at, e.node.entries);
      } else {
        ListAllCarries(at, e.node.entries, path[1..], sha);
      }
    }
  }

  /** The path of a pool file, relative to repo/. */
  function BelowRepo(path: Parts): string { Join(["pool"] + path, "/") }

  /** These are the files of the tree below repo/pool. */
  ghost predicate Holds(e: Entries, pool: map<File, Digest>) {
    && (forall path, sha :: Find(e, path) == Some(Plain(sha)) ==>
          FileAt(BelowRepo(path)) in pool && pool[FileAt(BelowRepo(path))] == sha)
    && (forall f :: f in pool ==>
          exists path :: Find(e, path) == Some(Plain(pool[f])) && f == FileAt(BelowRepo(path)))
  }

  lemma SamePool(e: Entries, p: map<File, Digest>, q: map<File, Digest>)
    requires Holds(e, p) && Holds(e, q)
    ensures p == q
  {
    HoldsLess(e, p, q);
    HoldsLess(e, q, p);
  }

  lemma HoldsLess(e: Entries, p: map<File, Digest>, q: map<File, Digest>)
    requires Holds(e, p) && Holds(e, q)
    ensures forall f :: f in p ==> f in q && p[f] == q[f]
  {
    forall f | f in p ensures f in q && p[f] == q[f] {
      var path :| Find(e, path) == Some(Plain(p[f])) && f == FileAt(BelowRepo(path));
    }
  }

  /** Which files the archive has. */
  lemma ArchiveCarries(d: Data, path: Parts, sha: Digest)
    requires Sane(d.pool) && Sane(d.keys) && Archived(d).Some?
    ensures var ms := Archived(d).value;
            && (Carries(ms, ["repo", "pool"] + path, sha) <==> Find(d.pool, path) == Some(Plain(sha)))
            && (Carries(ms, ["gnupg"] + path, sha) <==>
                  Find(d.keys, path) == Some(Plain(sha)) && !exists p :: p in path && "S." <= p)
            && (Carries(ms, ["secret-key"], sha) <==> sha == d.secret)
            && MemberFor(["repo", "pool"], Folder, "") in ms && MemberFor(["gnupg"], Folder, "") in ms
  {
    var pool, keys := Listing(["repo", "pool"], Directory(d.pool)).value, Listing(["gnupg"], Directory(d.keys)).value;
    var secret := [MemberFor(["secret-key"], Regular, d.secret)];
    ListingAgrees(["repo", "pool"], Directory(d.pool));
    ListingAgrees(["gnupg"], Directory(d.keys));
    assert pool[0] == MemberFor(["repo", "pool"], Folder, "") && pool[0] in pool;
    assert keys[0] == MemberFor(["gnupg"], Folder, "") && keys[0] in keys;
    assert secret[0] in secret;
    var a, b, c := ["repo", "pool"] + path, ["gnupg"] + path, ["secret-key"];
    CarriesOneOfThree(pool, keys, secret, a, sha);
    CarriesOneOfThree(pool, keys, secret, b, sha);
    CarriesOneOfThree(pool, keys, secret, c, sha);
    assert a[0] == "repo" && b[0] == "gnupg";
    FolderCarries(["repo", "pool"], d.pool, path, sha);
    FolderCarries(["gnupg"], d.keys, path, sha);
  }

  lemma FolderCarries(parts: Parts, e: Entries, path: Parts, sha: Digest)
    requires parts != [] && Slashless(parts) && ".." !in parts && Sane(e) && !LeftOut(parts)
    requires Listing(parts, Directory(e)).Some?
    ensures Carries(Listing(parts, Directory(e)).value, parts + path, sha) <==>
            Find(e, path) == Some(Plain(sha)) && !Dropped(parts, path)
  {
    var ms := ListAll(parts, e).value;
    CarriesEither([MemberFor(parts, Folder, "")], ms, parts + path, sha);
    if path == [] {
      assert parts + path == parts;
      ListAllAgrees(parts, e);
    } else {
      ListAllCarries(parts, e, path, sha);
    }
  }

  lemma {:induction false} FindIsSlashless(e: Entries, path: Parts)
    requires Sane(e) && Find(e, path).Some?
    ensures path != [] && Slashless(path)
    decreases e
  {
    if e.name != path[0] {
      FindIsSlashless(e.more, path);
    } else if |path| > 1 {
      FindIsSlashless(e.node.entries, path[1..]);
    }
  }

  /** What arrives of an accepted archive, file by file. */
  lemma ArrivesIff(ms: seq<Member>, at: Parts, sha: Digest)
    requires AfterMembers(ms).Some? && Slashless(at) && forall m :: m in ms ==> Slashless(m.parts)
    ensures ContentAt(AfterMembers(ms).value, at) == Some(sha) <==> Carries(ms, at, sha)
  {
    UnpacksIff(ms);
    if ContentAt(AfterMembers(ms).value, at) == Some(sha) {
      var m :| m in ms && m.kind.Regular? && m.parts == at;
      var i :| 0 <= i < |ms| && ms[i] == m;
      MembersArrive(ms, i);
    }
    if Carries(ms, at, sha) {
      var m :| m in ms && m.kind.Regular? && m.parts == at && m.sha == sha;
      var i :| 0 <= i < |ms| && ms[i] == m;
      MembersArrive(ms, i);
    }
  }

  /** An archive that carries these files leaves this pool. */
  lemma PoolArrives(e: Entries, ms: seq<Member>)
    requires Sane(e) && AfterMembers(ms).Some? && forall m :: m in ms ==> Slashless(m.parts)
    requires forall path, sha :: Carries(ms, ["repo", "pool"] + path, sha) <==> Find(e, path) == Some(Plain(sha))
    ensures Holds(e, AfterMembers(ms).value.pool)
  {
    var u := AfterMembers(ms).value;
    forall path, sha | Find(e, path) == Some(Plain(sha))
      ensures FileAt(BelowRepo(path)) in u.pool && u.pool[FileAt(BelowRepo(path))] == sha
    {
      FindIsSlashless(e, path);
      assert Carries(ms, ["repo", "pool"] + path, sha);
      ArrivesIff(ms, ["repo", "pool"] + path, sha);
      PoolContent(u, path);
    }
    forall f | f in u.pool
      ensures exists path :: Find(e, path) == Some(Plain(u.pool[f])) && f == FileAt(BelowRepo(path))
    {
      var path := PoolSource(ms, f);
      assert Find(e, path) == Some(Plain(u.pool[f]));
    }
  }

  lemma PoolContent(u: Unpacked, path: Parts)
    ensures ContentAt(u, ["repo", "pool"] + path) ==
            if FileAt(BelowRepo(path)) in u.pool then Some(u.pool[FileAt(BelowRepo(path))]) else None
  {
    assert (["repo", "pool"] + path)[1..] == ["pool"] + path;
  }

  lemma PoolSource(ms: seq<Member>, f: File) returns (path: Parts)
    requires AfterMembers(ms).Some? && f in AfterMembers(ms).value.pool
    ensures f == FileAt(BelowRepo(path)) && Carries(ms, ["repo", "pool"] + path, AfterMembers(ms).value.pool[f])
  {
    OnlyMembersArrive(ms, f);
    var m :| m in ms && Brings(m, f, AfterMembers(ms).value.pool[f]);
    path := PathInPool(m.parts);
  }

  lemma PathInPool(parts: Parts) returns (path: Parts)
    requires InPool(parts)
    ensures parts == ["repo", "pool"] + path && PoolText(parts) == BelowRepo(path)
  {
    path := parts[2..];
    assert parts == ["repo", "pool"] + path;
    assert parts[1..] == ["pool"] + path;
  }

  /** Every backup is accepted by a restore, which unpacks exactly the pool that was archived, the key
      directory without sockets, and the secret. */
  lemma BackupUnpacks(d: Data, ms: seq<Member>)
    requires Sane(d.pool) && Sane(d.keys) && Archived(d) == Some(ms)
    ensures AfterMembers(ms).Some?
    ensures var u := AfterMembers(ms).value;
            && ["repo", "pool"] in u.folders && ["gnupg"] in u.folders
            && Holds(d.pool, u.pool)
            && ["secret-key"] in u.keys && u.keys[["secret-key"]] == d.secret
            && forall path, sha :: Slashless(path) ==>
                 (["gnupg"] + path in u.keys && u.keys[["gnupg"] + path] == sha <==>
                    Find(d.keys, path) == Some(Plain(sha)) && !exists p :: p in path && "S." <= p)
  {
    ArchiveAgrees(d);
    UnpacksIff(ms);
    forall path, sha
      ensures Carries(ms, ["repo", "pool"] + path, sha) <==> Find(d.pool, path) == Some(Plain(sha))
      ensures Carries(ms, ["gnupg"] + path, sha) <==>
              Find(d.keys, path) == Some(Plain(sha)) && !exists p :: p in path && "S." <= p
    {
      ArchiveCarries(d, path, sha);
    }
    ArchiveCarries(d, [], d.secret);
    PoolArrives(d.pool, ms);
    KeysArrive(ms, d.secret);
    FoldersArrive(ms, ["repo", "pool"]);
    FoldersArrive(ms, ["gnupg"]);
  }

  lemma KeysArrive(ms: seq<Member>, secret: Digest)
    requires AfterMembers(ms).Some? && Carries(ms, ["secret-key"], secret)
    requires forall m :: m in ms ==> Slashless(m.parts)
    ensures var u := AfterMembers(ms).value;
            && ["secret-key"] in u.keys && u.keys[["secret-key"]] == secret
            && forall path, sha :: Slashless(path) ==>
                 (["gnupg"] + path in u.keys && u.keys[["gnupg"] + path] == sha <==> Carries(ms, ["gnupg"] + path, sha))
  {
    ArrivesIff(ms, ["secret-key"], secret);
    var u := AfterMembers(ms).value;
    forall path, sha | Slashless(path)
      ensures ["gnupg"] + path in u.keys && u.keys[["gnupg"] + path] == sha <==> Carries(ms, ["gnupg"] + path, sha)
    {
      ArrivesIff(ms, ["gnupg"] + path, sha);
      KeyContent(u, path);
    }
  }

  lemma KeyContent(u: Unpacked, path: Parts)
    ensures ContentAt(u, ["gnupg"] + path) ==
            if ["gnupg"] + path in u.keys then Some(u.keys[["gnupg"] + path]) else None
  {
    assert (["gnupg"] + path)[0] == "gnupg";
  }

  lemma FoldersArrive(ms: seq<Member>, at: Parts)
    requires AfterMembers(ms).Some? && LeftBy(ms, AfterMembers(ms).value) && at != [] && MemberFor(at, Folder, "") in ms
    ensures at in AfterMembers(ms).value.folders
  {}
}
