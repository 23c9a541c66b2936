/** What the operations of the repository come to for whoever uses it, spelled out in rows, files and
    index entries. */
module EndToEnd {
  import opened Basics
  import opened PoolPath
  import opened RepositoryState
  import opened Engine
  import Recovery
  import Maintenance
  import Backups
  import Locks
  import Runs

  /** The live tree has an index for each configured architecture and no other, and each lists exactly
      the active packages of its architecture or of all, under their file and digest. */
  ghost predicate Serves(d: Disk) {
    && d.live.Complete? && d.live.tree.cfg == d.saved
    && (forall a: string :: a in d.live.tree.index <==> a in d.saved.archs)
    && (forall a: string, p: Pkg :: a in d.live.tree.index ==>
          (p in d.live.tree.index[a] <==>
           && p.nva in d.rows && d.rows[p.nva].state == Active
           && p.file == d.rows[p.nva].file && p.sha == d.rows[p.nva].sha
           && (p.nva.arch == a || p.nva.arch == "all")))
  }

  /** Whatever an index lists is there with the digest it states, unless it was removed from outside. */
  ghost predicate Intact(d: Disk) {
    d.live.Complete? ==>
      forall a: string, p: Pkg :: a in d.live.tree.index && p in d.live.tree.index[a] ==>
        (p.file in d.pool && d.pool[p.file] == p.sha) || p.file in d.lost
  }

  /** Nothing waits for anything. */
  predicate AtRest(d: Disk) { !d.dirty && !d.pending && d.last == Success && d.next == Absent }

  lemma CurrentServes(d: Disk)
    ensures Current(d.live, d.rows, d.saved) <==> Serves(d)
  {
    var index := Rebuild(d.saved, ActivePkgs(d.rows)).index;
    forall a: string, p: Pkg | a in d.saved.archs
      ensures p in index[a] <==>
              && p.nva in d.rows && d.rows[p.nva].state == Active
              && p.file == d.rows[p.nva].file && p.sha == d.rows[p.nva].sha
              && (p.nva.arch == a || p.nva.arch == "all")
    {
      ActiveMember(d.rows, p);
    }
    if Serves(d) {
      forall a | a in d.saved.archs ensures d.live.tree.index[a] == index[a] {
        forall p: Pkg ensures p in d.live.tree.index[a] <==> p in index[a] {
          ActiveMember(d.rows, p);
        }
      }
    }
  }

  /** What the two promises of a run say in these terms. */
  lemma PromisesMean(d: Disk)
    ensures NoDangling(d) <==> Intact(d)
    ensures Ready(d) <==> (!d.dirty && d.last == Success && !d.pending ==> Serves(d))
  {
    CurrentServes(d);
    if d.live.Complete? {
      forall a: string, p: Pkg | a in d.live.tree.index && p in d.live.tree.index[a] ensures Lists(d.live, p) {}
    }
  }

  /** Any sequence of operations on a repository whose component stays the same, every item of every
      upload parsed from its incoming file, each operation with its faults and cut after any durable
      write, as long as no cut leaves readiness wrong: at every moment the index is intact, and if
      readiness is reported in the end, exactly the active packages are served. */
  method RunServes(r: Repository, script: seq<Runs.Act>) returns (visits: seq<Runs.Visit>)
    requires r.Safe() && r.Steady() && r.mode.Fixed? && Runs.OnlyComponent(r.mode.component, script)
    modifies r
    ensures old(r.journal) <= r.journal && r.journal[|r.journal| - 1] == r.disk
    ensures Runs.Followed(r.journal, |old(r.journal)| - 1, script, visits)
    ensures Runs.CutsReady(r.journal, visits) && Runs.AllParsed(r.journal, script, visits) ==>
              && (forall i :: 0 <= i < |r.journal| ==> Intact(r.journal[i]))
              && (!r.disk.dirty && r.disk.last == Success && !r.disk.pending ==> Serves(r.disk))
  {
    visits := Runs.Run(r, script);
    forall i | 0 <= i < |r.journal| { PromisesMean(r.journal[i]); }
  }

  // ----- upload ----------------------------------------------------------------------------

  /** An upload that is accepted: a package without a row, one that has lost its blob or whose place is
      elsewhere now, or the leftover of a crash.  It is active, its blob is there, and every index of its
      architecture lists it. */
  method UploadAccepted(r: Repository, item: Item)
    requires r.Linked() && item.fault.PlaceNoFault? && !item.symlink
    requires item.path in r.disk.incoming && r.disk.incoming[item.path] == item.sha
    requires var d, n, file := r.disk, item.nva, PoolFile(r.disk.saved.component, item.nva);
             && (n in d.rows ==> d.rows[n].sha == item.sha && d.rows[n].state != PendingDelete)
             && (file in d.pool ==> d.pool[file] == item.sha && (n in d.rows ==> d.rows[n].state != Active))
    modifies r
    ensures var file := PoolFile(r.disk.saved.component, item.nva);
            && item.nva in r.disk.rows && r.disk.rows[item.nva] == Row(file, item.sha, Active)
            && file in r.disk.pool && r.disk.pool[file] == item.sha
            && Serves(r.disk) && !r.disk.dirty && r.disk.last == Success
            && item.path !in r.disk.incoming && r.disk.saved == old(r.disk).saved
            && forall a :: a in r.disk.saved.archs && (a == item.nva.arch || item.nva.arch == "all") ==>
                 Pkg(item.nva, file, item.sha) in r.disk.live.tree.index[a]
  {
    ghost var d := r.disk;
    OneItem(d, item);
    var results, pub, raised := r.UploadCommit([item], NO_FAULT);
    assert results == [Outcome(d, d.saved, item)];
    assert results[0].Placed?;
    CurrentServes(r.disk);
  }

  /** An accepted package is registered whatever strikes the publish, and never lost: the next retry that
      meets no fault serves it. */
  method UploadOutlivesFaults(r: Repository, item: Item, fault: Fault)
    requires r.Linked() && RowsNamed(r.disk.rows) && item.fault.PlaceNoFault? && !item.symlink
    requires item.path in r.disk.incoming && r.disk.incoming[item.path] == item.sha
    requires var d, n, file := r.disk, item.nva, PoolFile(r.disk.saved.component, item.nva);
             && (n in d.rows ==> d.rows[n].sha == item.sha && d.rows[n].state != PendingDelete)
             && (file in d.pool ==> d.pool[file] == item.sha && (n in d.rows ==> d.rows[n].state != Active))
    modifies r
    ensures var file := PoolFile(old(r.disk).saved.component, item.nva);
            && item.nva in r.disk.rows && r.disk.rows[item.nva] == Row(file, item.sha, Active)
            && file in r.disk.pool && r.disk.pool[file] == item.sha
            && Serves(r.disk) && !r.disk.dirty && !r.disk.pending && r.disk.last == Success
            && r.disk.saved == old(r.disk).saved
            && forall a :: a in r.disk.saved.archs && (a == item.nva.arch || item.nva.arch == "all") ==>
                 Pkg(item.nva, file, item.sha) in r.disk.live.tree.index[a]
  {
    OneItem(r.disk, item);
    var results, pub, raised := r.UploadCommit([item], fault);
    assert results == [Outcome(old(r.disk), old(r.disk).saved, item)] && results[0].Placed?;
    PlacedAnyway(old(r.disk), item, fault, r.disk);
    if !Strikes(fault, AfterPlace(old(r.disk), old(r.disk).saved, item)) {
      CurrentServes(r.disk);
    }
    RetryServes(r);
  }

  /** What a publish leaves of a package that was placed before it. */
  lemma PlacedAnyway(d: Disk, item: Item, fault: Fault, after: Disk)
    requires RowsNamed(d.rows) && Outcome(d, d.saved, item).Placed? && Parsed(d, item)
    requires var p := AfterPlace(d, d.saved, item);
             if Strikes(fault, p) then PublishFailed(p, d.saved, fault, after) else after == Published(p, d.saved)
    ensures var file := PoolFile(d.saved.component, item.nva);
            && item.nva in after.rows && after.rows[item.nva] == Row(file, item.sha, Active)
            && file in after.pool && after.pool[file] == item.sha
    ensures RowsNamed(after.rows) && after.saved == d.saved
    ensures Strikes(fault, AfterPlace(d, d.saved, item)) ==> after.dirty
  {
    var p := AfterPlace(d, d.saved, item);
    assert RowsNamed(p.rows);
    if Strikes(fault, p) {
      assert fault.at.Begin? || MarksOnly(p.rows, p.pool, after.rows);
    }
  }

  /** Whatever is dirty or pending, a retry that meets no fault serves, and leaves rows that are active and
      backed as they were. */
  method RetryServes(r: Repository)
    requires r.Linked() && RowsNamed(r.disk.rows)
    requires !r.disk.dirty && !r.disk.pending ==> r.disk.last == Success && Serves(r.disk)
    modifies r
    ensures Serves(r.disk) && !r.disk.dirty && !r.disk.pending && r.disk.last == Success
    ensures r.disk.saved == old(r.disk).saved
    ensures var d := old(r.disk);
            forall n :: n in d.rows && d.rows[n].state == Active && d.rows[n].file in d.pool ==>
              && n in r.disk.rows && r.disk.rows[n] == d.rows[n]
              && d.rows[n].file in r.disk.pool && r.disk.pool[d.rows[n].file] == d.pool[d.rows[n].file]
  {
    var result := r.RetryPendingPublish(NO_FAULT);
    if result.Some? {
      RetriedKeeps(old(r.disk));
      CurrentServes(r.disk);
    }
  }

  lemma RetriedKeeps(d: Disk)
    requires RowsNamed(d.rows)
    ensures var e := DeletesFinished(Published(d, d.saved));
            && Current(e.live, e.rows, e.saved)
            && forall n :: n in d.rows && d.rows[n].state == Active && d.rows[n].file in d.pool ==>
                 && n in e.rows && e.rows[n] == d.rows[n]
                 && d.rows[n].file in e.pool && e.pool[d.rows[n].file] == d.pool[d.rows[n].file]
  {
    var p := Published(d, d.saved);
    Recovery.FilesOfMarked(d.rows, d.pool);
    Recovery.WithoutPendingIsAsActive(p.rows);
    forall n | n in d.rows && d.rows[n].state == Active && d.rows[n].file in d.pool
      ensures var e := DeletesFinished(p); n in e.rows && e.rows[n] == d.rows[n] && d.rows[n].file in e.pool
    {
      DeletesKeep(p, n);
    }
  }

  lemma OneItem(d: Disk, item: Item)
    ensures AfterAll(d, d.saved, [item]) == (AfterPlace(d, d.saved, item), [Outcome(d, d.saved, item)])
  {
    Runs.SingleItem(d, item);
  }

  /** A package that is active and has its blob, that waits for deletion, or that is there under another
      digest, is refused; so is one at whose place there is another blob or a symbolic link.  Nothing
      changes but the incoming file. */
  method UploadRefused(r: Repository, item: Item)
    requires r.Linked() && item.fault.PlaceNoFault? && item.path in r.disk.incoming
    requires var d, n, file := r.disk, item.nva, PoolFile(r.disk.saved.component, item.nva);
             || item.symlink
             || (n in d.rows && (d.rows[n].state == PendingDelete || d.rows[n].sha != item.sha))
             || (file in d.pool && (d.pool[file] != item.sha || (n in d.rows && d.rows[n].state == Active)))
    modifies r
    ensures r.disk == old(r.disk).(incoming := old(r.disk).incoming - {item.path})
  {
    OneItem(r.disk, item);
    var _, _, _ := r.UploadCommit([item], NO_FAULT);
  }

  // ----- publish and delete ----------------------------------------------------------------

  /** After a publish exactly the active packages with a blob are served; those without one are missing,
      and those that waited for deletion are gone with their blobs. */
  method PublishServes(r: Repository)
    requires r.Linked()
    modifies r
    ensures Serves(r.disk) && !r.disk.dirty && r.disk.last == Success && r.disk.next == Absent
    ensures forall n :: n in r.disk.rows <==> n in old(r.disk).rows && old(r.disk).rows[n].state != PendingDelete
    ensures forall n :: n in r.disk.rows ==>
              r.disk.rows[n] == var row := old(r.disk).rows[n];
                                if row.state == Active && row.file !in old(r.disk).pool
                                then Row(row.file, row.sha, PackageState.Missing) else row
    ensures forall f :: f in r.disk.pool <==>
              var d := old(r.disk);
              f in d.pool && !exists n :: n in d.rows && d.rows[n].state == PendingDelete && d.rows[n].file == f
  {
    ghost var d := r.disk;
    var _ := r.Publish(NO_FAULT);
    ghost var p := Published(d, d.saved);
    assert r.disk == Without(p, PendingRows(p.rows));
    assert forall n :: n in d.rows ==> p.rows[n].file == d.rows[n].file;
    Recovery.FilesOfMarked(d.rows, d.pool);
    Recovery.WithoutPendingIsAsActive(p.rows);
    assert Current(r.disk.live, r.disk.rows, r.disk.saved);
    CurrentServes(r.disk);
  }

  /** After a delete no index lists the package and its blob is gone. */
  method DeleteServes(r: Repository, n: Nva)
    requires r.Linked() && n in r.disk.rows && RowsNamed(r.disk.rows)
    modifies r
    ensures Serves(r.disk) && !r.disk.dirty && r.disk.last == Success
    ensures n !in r.disk.rows && old(r.disk).rows[n].file !in r.disk.pool
    ensures forall a: string, p: Pkg :: a in r.disk.live.tree.index && p in r.disk.live.tree.index[a] ==> p.nva != n
    ensures forall m :: m in old(r.disk).rows && m != n ==>
              && m in r.disk.rows
              && (old(r.disk).rows[m].file in old(r.disk).pool ==>
                    r.disk.rows[m] == old(r.disk).rows[m] && old(r.disk).rows[m].file in r.disk.pool)
  {
    ghost var d := r.disk;
    var _ := r.DeleteCommit(n, NO_FAULT);
    DeletedIsGone(d, n);
    CurrentServes(r.disk);
  }

  // ----- settings --------------------------------------------------------------------------

  /** A settings change that meets no fault is saved and served. */
  method SettingsServe(r: Repository, candidate: Config)
    requires r.Linked() && candidate != r.disk.saved
    modifies r
    ensures r.disk.saved == candidate && !r.disk.pending && !r.disk.dirty && r.disk.last == Success
    ensures Serves(r.disk)
  {
    var _, tried := r.SettingsPost(candidate, NO_FAULT, false, NO_FAULT);
    CurrentServes(r.disk);
  }

  // ----- startup ---------------------------------------------------------------------------

  /** After a startup that meets no fault nothing waits for anything but rows that wait for deletion,
      every active row has its blob, every .deb file in the pool is some row's, the live tree carries
      its history, and exactly the active packages are served. */
  method StartupServes(r: Repository)
    requires r.Safe() && r.Steady()
    modifies r
    ensures AtRest(r.disk) && Serves(r.disk) && r.disk.live.tree.history
    ensures forall n :: n in r.disk.rows && r.disk.rows[n].state == Active ==> r.disk.rows[n].file in r.disk.pool
    ensures forall f :: f in r.disk.pool && (f.PoolFile? || (|f.path| >= 4 && f.path[|f.path| - 4..] == ".deb")) ==>
              exists n :: n in r.disk.rows && r.disk.rows[n].file == f
    ensures var d := old(r.disk);
            forall n :: n in d.rows && d.rows[n].state == Active && d.rows[n].file in d.pool ==>
              n in r.disk.rows && r.disk.rows[n] == d.rows[n]
  {
    ghost var d := r.disk;
    var _ := r.Startup(NO_FAULT, NO_FAULT);
    Recovery.OneStartup(d);
    CurrentServes(r.disk);
    TidyPool(r.disk);
    StartupKeepsRows(d);
  }

  lemma TidyPool(d: Disk)
    requires Recovery.Tidy(d)
    ensures forall n :: n in d.rows && d.rows[n].state == Active ==> d.rows[n].file in d.pool
    ensures forall f :: f in d.pool && (f.PoolFile? || (|f.path| >= 4 && f.path[|f.path| - 4..] == ".deb")) ==>
              exists n :: n in d.rows && d.rows[n].file == f
  {
    forall n | n in d.rows && d.rows[n].state == Active ensures d.rows[n].file in d.pool {
      assert MarkMissing(d.rows, d.pool)[n] == d.rows[n];
    }
    forall f | f in d.pool && (f.PoolFile? || (|f.path| >= 4 && f.path[|f.path| - 4..] == ".deb"))
      ensures exists n :: n in d.rows && d.rows[n].file == f
    {
      assert f !in Orphans(d);
      assert f in Files(d.rows);
    }
  }

  /** An active row with its blob comes through the first part of a startup. */
  lemma PreparedKeeps(d: Disk, n: Nva)
    requires n in d.rows && d.rows[n].state == Active && d.rows[n].file in d.pool
    ensures var e := Prepared(d); n in e.rows && e.rows[n] == d.rows[n] && d.rows[n].file in e.pool
  {
    assert d.rows[n].file in Files(d.rows);
  }

  lemma DeletesKeep(d: Disk, n: Nva)
    requires RowsNamed(d.rows) && n in d.rows && d.rows[n].state == Active && d.rows[n].file in d.pool
    ensures var e := DeletesFinished(d); n in e.rows && e.rows[n] == d.rows[n] && d.rows[n].file in e.pool
  {
    forall m | m in d.rows && d.rows[m].file == d.rows[n].file ensures m == n {
      FilesAreUnique(d, m, n);
    }
  }

  lemma StartupKeepsRows(d: Disk)
    requires RowsNamed(d.rows)
    ensures forall n :: n in d.rows && d.rows[n].state == Active && d.rows[n].file in d.pool ==>
              n in AfterStartup(d).rows && AfterStartup(d).rows[n] == d.rows[n]
  {
    var s := SettingsRecovered(d);
    Recovery.FilesOfMarked(d.rows, d.pool);
    Recovery.PreparedIsPrepared(s);
    forall n | n in d.rows && d.rows[n].state == Active && d.rows[n].file in d.pool
      ensures n in AfterStartup(d).rows && AfterStartup(d).rows[n] == d.rows[n]
    {
      PreparedKeeps(s, n);
      DeletesKeep(Prepared(s), n);
    }
  }

  /** A stray .deb file in the pool and a half-deleted tree at dists.next are gone after it. */
  method StrayFileGoes(r: Repository, f: File)
    requires r.Safe() && r.Steady() && f in r.disk.pool && f.Stray? && |f.path| >= 4 && f.path[|f.path| - 4..] == ".deb"
    modifies r
    ensures f !in r.disk.pool && (f, old(r.disk).pool[f]) in r.disk.quarantine && r.disk.next == Absent
  {
    ghost var d := r.disk;
    var _ := r.Startup(NO_FAULT, NO_FAULT);
    assert f !in Files(d.rows);
  }

  // ----- backup and restore ----------------------------------------------------------------

  /** After a backup is restored and the application has started, every row that does not wait for
      deletion is what it was, its blob too, and exactly the active packages are served. */
  lemma RestoredServes(d: Disk, data: Backups.Data, s: Maintenance.Source, locks: Locks.Names)
    requires RowsNamed(d.rows) && Maintenance.BackupOf(d, data, s)
    ensures Maintenance.Acceptable(s)
    ensures var r := AfterStartup(Maintenance.AsDisk(Maintenance.Restored(s, locks)));
            && AtRest(r) && Serves(r) && r.saved == d.saved
            && (forall n :: n in r.rows ==> n in d.rows)
            && (forall n :: n in d.rows && d.rows[n].state != PendingDelete ==>
                  && n in r.rows && r.rows[n] == d.rows[n]
                  && (d.rows[n].file in d.pool ==>
                        d.rows[n].file in r.pool && r.pool[d.rows[n].file] == d.rows[n].sha))
  {
    Maintenance.RestoredStartsUp(d, data, s, locks);
    var begun := Maintenance.AsDisk(Maintenance.Restored(s, locks));
    var r := AfterStartup(begun);
    Recovery.OneStartup(begun);
    CurrentServes(r);
    forall n | n in d.rows && d.rows[n].state != PendingDelete && d.rows[n].file in d.pool
      ensures d.rows[n].file in r.pool && r.pool[d.rows[n].file] == d.rows[n].sha
    {
      assert d.rows[n].file in Files(d.rows);
      forall m | m in d.rows && d.rows[m].file == d.rows[n].file ensures m == n {
        FilesAreUnique(d, m, n);
      }
    }
  }
}
