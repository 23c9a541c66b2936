/** Offline restore (prvaptmirror/maintenance.py) as the writes it makes to the data directory and
    to the sibling it prepares.  Every write is journalled, so the journal lists the states a crash
    can leave behind; an exception may strike instead of any write. */
module Maintenance {
  import opened Basics
  import opened RepositoryState
  import opened Recovery
  import opened Locks
  import opened Extraction
  import Backups

  // ----- directories and archives ----------------------------------------------------------

  /** A data directory; a staged one has no database yet.  Lock files are inodes, as in Locks. */
  datatype Directory = Directory(
    db: Option<Database>, pool: map<File, Digest>, keys: map<Parts, Digest>, live: Slot, next: Slot,
    incoming: map<string, Digest>, quarantine: set<(File, Digest)>, lost: set<File>, locks: Names)

  const EMPTY_DIRECTORY := Directory(None, map[], map[], Absent, Absent, map[], {}, {}, map[])

  /** The directory as the application finds it. */
  function AsDisk(d: Directory): Disk
    requires d.db.Some?
  {
    var db := d.db.value;
    Disk(db.rows, d.pool, d.live, d.next, db.dirty, db.pending, db.runs, db.last, db.saved,
         d.incoming, d.quarantine, d.lost)
  }

  /** Where the staged directory is, or the old one after the exchange. */
  datatype Sibling = NoSibling | Ruins | There(dir: Directory)

  datatype Paths = Paths(data: Directory, sibling: Sibling)

  /** What a backup directory holds: whether its checksums match, the database and whether it passes
      its own checks, the members of the archive, and whether the secret among them is not blank. */
  datatype Source = Source(checksums: bool, db: Database, healthy: bool, members: seq<Member>, secret: bool)

  /** Everything restore checks. */
  predicate Acceptable(s: Source) {
    && s.checksums && s.healthy && s.secret
    && AfterMembers(s.members).Some? && Keyed(AfterMembers(s.members).value)
    && FilesCheck(s.db.rows, AfterMembers(s.members).value.pool)
  }

  /** The directory a restore puts in place: the archive, marked for rebuilding, with the lock files
      of the old one. */
  function Restored(s: Source, locks: Names): Directory
    requires AfterMembers(s.members).Some?
  {
    var u := AfterMembers(s.members).value;
    EMPTY_DIRECTORY.(db := Some(s.db.(dirty := true)), pool := u.pool, keys := u.keys, locks := locks)
  }

  /** Nothing but lock files may have been added. */
  predicate Untouched(before: Directory, after: Directory) {
    && after == before.(locks := after.locks)
    && forall l :: l in before.locks ==> l in after.locks && after.locks[l] == before.locks[l]
  }

  /** The data directory is the old one, or the complete checked archive with the old one beside it
      and under the same lock files. */
  predicate OldOrNew(before: Directory, s: Source, p: Paths) {
    || Untouched(before, p.data)
    || (&& Acceptable(s) && p.sibling.There? && Untouched(before, p.sibling.dir)
        && p.data == Restored(s, p.sibling.dir.locks))
  }

  // ----- restore ---------------------------------------------------------------------------

  /** Writes a restore makes up to and with the exchange. */
  function WritesToExchange(s: Source): nat { |s.members| + 7 }

  class RestoreRun {
    const before: Directory
    const source: Source
    var paths: Paths
    var journal: seq<Paths>
    var writes: nat       // how many more succeed before an exception strikes

    ghost predicate Kept()
      reads this
    {
      && journal != [] && journal[|journal| - 1] == paths
      && forall i :: 0 <= i < |journal| ==> OldOrNew(before, source, journal[i])
    }

    /** The locks are taken and nothing has been exchanged. */
    ghost predicate Preparing()
      reads this
    {
      Kept() && Untouched(before, paths.data) && ServiceLock in paths.data.locks && PublishLock in paths.data.locks
    }

    constructor (data: Directory, source: Source, writes: nat)
      ensures before == data && this.source == source && this.writes == writes
      ensures paths == Paths(data, NoSibling) && journal == [paths] && Kept()
    {
      before, this.source, this.writes := data, source, writes;
      paths := Paths(data, NoSibling);
      journal := [Paths(data, NoSibling)];
    }

    method Record(p: Paths)
      requires Kept() && OldOrNew(before, source, p)
      modifies this`paths, this`journal
      ensures Kept() && paths == p && journal == old(journal) + [p]
    {
      paths := p;
      journal := journal + [p];
    }

    /** A write that may raise. */
    method Write(p: Paths) returns (ok: bool)
      requires Kept() && OldOrNew(before, source, p)
      modifies this
      ensures Kept() && (ok <==> old(writes) > 0)
      ensures if ok then paths == p && writes == old(writes) - 1 && journal == old(journal) + [p]
              else paths == old(paths) && writes == old(writes) && journal == old(journal)
    {
      ok := writes > 0;
      if ok {
        writes := writes - 1;
        Record(p);
      }
    }

    /** A write to the staged directory. */
    method Stage(dir: Directory) returns (ok: bool)
      requires Preparing()
      modifies this
      ensures Preparing() && paths.data == old(paths).data && (ok <==> old(writes) > 0)
      ensures ok ==> paths.sibling == There(dir) && writes == old(writes) - 1
    {
      ok := Write(paths.(sibling := There(dir)));
    }

    /** file_lock creates the lock files that are not there. */
    method OpenLocks(service: nat, publish: nat)
      requires Kept() && paths == Paths(before, NoSibling)
      modifies this`paths, this`journal
      ensures Preparing() && paths.sibling == NoSibling
    {
      var names := paths.data.locks;
      if ServiceLock !in names {
        names := names[ServiceLock := service];
      }
      if PublishLock !in names {
        names := names[PublishLock := publish];
      }
      Record(paths.(data := paths.data.(locks := names)));
    }

    /** _extract_archive, one write a member. */
    method Extract() returns (ok: bool)
      requires Preparing() && paths.sibling.There? && paths.sibling.dir.pool == map[] && paths.sibling.dir.keys == map[]
      modifies this
      ensures Preparing() && paths.data == old(paths).data
      ensures ok <==>
                && AfterMembers(source.members).Some? && Keyed(AfterMembers(source.members).value)
                && source.secret && old(writes) >= |source.members|
      ensures ok ==> var u := AfterMembers(source.members).value;
                     paths.sibling == There(old(paths).sibling.dir.(pool := u.pool, keys := u.keys))
      ensures ok ==> writes == old(writes) - |source.members|
    {
      ghost var dir := paths.sibling.dir;
      var members, u := source.members, NOTHING;
      for i := 0 to |members|
        invariant Preparing() && paths.data == old(paths).data
        invariant AfterMembers(members[..i]) == Some(u) && old(writes) >= i && writes == old(writes) - i
        invariant paths.sibling == There(dir.(pool := u.pool, keys := u.keys))
      {
        assert members[..i + 1][..i] == members[..i];
        var next := AfterMember(u, members[i]);
        if next == None {
          if AfterMembers(members).Some? {
            FrontUnpacks(members, i + 1);
          }
          return false;
        }
        u := next.value;
        ok := Stage(paths.sibling.dir.(pool := u.pool, keys := u.keys));
        if !ok {
          return;
        }
      }
      assert members[..|members|] == members;
      ok := Keyed(u) && source.secret;
    }

    /** Copies and checks the archive, and marks it for rebuilding. */
    method Fill() returns (ok: bool)
      requires Preparing() && source.checksums
      modifies this
      ensures Preparing() && paths.data == old(paths).data
      ensures ok <==> Acceptable(source) && old(writes) >= |source.members| + 3
      ensures ok ==> paths.sibling == There(Restored(source, map[])) && writes == old(writes) - |source.members| - 3
    {
      ok := Stage(EMPTY_DIRECTORY);
      if !ok {
        return;
      }
      ok := Stage(EMPTY_DIRECTORY.(db := Some(source.db)));
      if !ok {
        return;
      }
      ok := Extract();
      if !ok || !source.healthy || !FilesCheck(source.db.rows, paths.sibling.dir.pool) {
        return false;
      }
      ok := Stage(paths.sibling.dir.(db := Some(source.db.(dirty := true))));
    }

    /** Shares the lock files, then fixes modes and syncs. */
    method LinkLocks() returns (ok: bool)
      requires Preparing() && Acceptable(source) && paths.sibling == There(Restored(source, map[]))
      modifies this
      ensures Preparing() && paths.data == old(paths).data
      ensures ok <==> old(writes) >= 3
      ensures ok ==> writes == old(writes) - 3 && paths.sibling.There? &&
                     paths.sibling.dir == Restored(source, BothLocks(paths.data.locks))
    {
      var dir, names := paths.sibling.dir, paths.data.locks;
      ok := Stage(dir.(locks := map[ServiceLock := names[ServiceLock]]));
      if !ok {
        return;
      }
      ok := Stage(dir.(locks := BothLocks(names)));
      if !ok {
        return;
      }
      ok := Stage(dir.(locks := BothLocks(names)));
    }

    /** Removes the staged directory; it is in ruins before it is gone. */
    method Discard()
      requires Preparing()
      modifies this`paths, this`journal
      ensures Preparing() && paths == old(paths).(sibling := NoSibling)
    {
      if paths.sibling != NoSibling {
        Record(paths.(sibling := Ruins));
        Record(paths.(sibling := NoSibling));
      }
    }

    /** restore.  At every moment the data directory is the old one or the complete new one; on any
        failure before the exchange the old one is there and nothing beside it; afterwards the old one
        is beside the new one.  It succeeds exactly when the archive passes every check and no write
        fails, the sync after the exchange being one more. */
    method Restore(busy: bool, service: nat, publish: nat) returns (raised: bool, exchanged: bool)
      requires Kept() && paths == Paths(before, NoSibling)
      modifies this
      ensures Kept()
      ensures exchanged <==> !busy && Acceptable(source) && old(writes) >= WritesToExchange(source)
      ensures raised <==> !exchanged || old(writes) == WritesToExchange(source)
      ensures !exchanged ==> Untouched(before, paths.data) && paths.sibling == NoSibling
      ensures exchanged ==> paths.sibling.There? && Untouched(before, paths.sibling.dir) &&
                            paths.data == Restored(source, paths.sibling.dir.locks)
    {
      if !source.checksums {
        return true, false;
      }
      OpenLocks(service, publish);
      if busy {
        return true, false;
      }
      exchanged := Prepare();
      if exchanged {
        exchanged := ExchangeDirectories();
      }
      if !exchanged {
        Discard();
        return true, false;
      }
      raised := writes == 0;
    }

    method Prepare() returns (ok: bool)
      requires Preparing() && source.checksums
      modifies this
      ensures Preparing() && paths.data == old(paths).data
      ensures ok <==> Acceptable(source) && old(writes) >= |source.members| + 6
      ensures ok ==> writes == old(writes) - |source.members| - 6 && paths.sibling.There? &&
                     paths.sibling.dir == Restored(source, BothLocks(paths.data.locks))
    {
      ok := Fill();
      if ok {
        ok := LinkLocks();
      }
    }

    method ExchangeDirectories() returns (ok: bool)
      requires Preparing() && Acceptable(source) && paths.sibling.There?
      requires paths.sibling.dir == Restored(source, BothLocks(paths.data.locks))
      modifies this
      ensures Kept() && (ok <==> old(writes) > 0) && (!ok ==> Preparing())
      ensures ok ==> writes == old(writes) - 1 && paths == Paths(old(paths).sibling.dir, There(old(paths).data))
      ensures ok ==> paths.data == Restored(source, paths.sibling.dir.locks)
    {
      BothAreAll(paths.data.locks);
      ok := Write(Paths(paths.sibling.dir, There(paths.data)));
    }
  }

  function BothLocks(names: Names): Names
    requires ServiceLock in names && PublishLock in names
  {
    map[ServiceLock := names[ServiceLock], PublishLock := names[PublishLock]]
  }

  lemma BothAreAll(names: Names)
    requires ServiceLock in names && PublishLock in names
    ensures BothLocks(names) == names
  {
    forall l | l in names ensures l in BothLocks(names) {
      match l
      case ServiceLock =>
      case PublishLock =>
    }
  }

  // ----- what becomes of it ----------------------------------------------------------------

  /** Whenever a restore dies, the application finds the disk as it was, or the complete archive
      marked for rebuilding and the old disk beside it. */
  lemma EveryCutIsADisk(before: Directory, s: Source, p: Paths)
    requires before.db.Some? && OldOrNew(before, s, p)
    ensures p.data.db.Some?
    ensures || AsDisk(p.data) == AsDisk(before)
            || (&& Acceptable(s)
                && Some(AsDisk(p.data)) == Recovery.Restore(Archive(s.db, AfterMembers(s.members).value.pool))
                && p.sibling.There? && p.sibling.dir.db.Some? && AsDisk(p.sibling.dir) == AsDisk(before)
                && p.data.locks == p.sibling.dir.locks)
  {}

  /** What a backup of this disk holds, taken while its rows and blobs agree: a package file that is
      there has the digest of its row, and every active row has its file. */
  ghost predicate BackupOf(d: Disk, data: Backups.Data, s: Source) {
    && s.checksums && s.healthy && s.secret
    && s.db == Database(d.rows, d.dirty, d.pending, d.runs, d.last, d.saved)
    && Backups.Sane(data.pool) && Backups.Sane(data.keys)
    && Backups.Archived(data) == Some(s.members) && Backups.Holds(data.pool, d.pool)
    && forall n :: n in d.rows ==>
         if d.rows[n].file in d.pool then d.pool[d.rows[n].file] == d.rows[n].sha else d.rows[n].state != Active
  }

  /** The archive of a backup is acceptable, the restored directory keeps the invariant, and its
      first startup brings back what the backup saw. */
  lemma RestoredStartsUp(d: Disk, data: Backups.Data, s: Source, locks: Names)
    requires RowsNamed(d.rows) && BackupOf(d, data, s)
    ensures Acceptable(s)
    ensures Restored(s, locks).pool == d.pool
    ensures var r := AsDisk(Restored(s, locks));
            && Sound(Strict, r) && Ready(r)
            && BroughtBack(d, AfterStartup(r), d.pending && Orphans(d) == {})
  {
    Backups.BackupUnpacks(data, s.members);
    Backups.SamePool(data.pool, AfterMembers(s.members).value.pool, d.pool);
    BackupRestoreStartup(d, Recovery.Backup(d).value);
  }

  /** A restore of a backup takes place exactly if nothing holds the locks and no write fails, and puts
      the database, the pool and the secret of the backup in place, without any index. */
  method RestoreBackup(ghost d: Disk, ghost data: Backups.Data, s: Source, before: Directory, writes: nat,
                       busy: bool, service: nat, publish: nat)
    returns (raised: bool, exchanged: bool, after: Paths)
    requires RowsNamed(d.rows) && BackupOf(d, data, s)
    ensures exchanged <==> !busy && writes >= |s.members| + 7
    ensures raised <==> !exchanged || writes == |s.members| + 7
    ensures !exchanged ==> Untouched(before, after.data) && after.sibling == NoSibling
    ensures exchanged ==>
              && after.data.db == Some(Database(d.rows, true, d.pending, d.runs, d.last, d.saved))
              && after.data.pool == d.pool
              && ["secret-key"] in after.data.keys && after.data.keys[["secret-key"]] == data.secret
              && after.data.live == Absent && after.data.next == Absent
              && after.sibling.There? && Untouched(before, after.sibling.dir)
              && after.data.locks == after.sibling.dir.locks
  {
    RestoredStartsUp(d, data, s, map[]);
    Backups.BackupUnpacks(data, s.members);
    var run := new RestoreRun(before, s, writes);
    raised, exchanged := run.Restore(busy, service, publish);
    after := run.paths;
  }
}
