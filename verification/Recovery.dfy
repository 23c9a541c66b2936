/** Startup as a function on durable states: what one, two and three startups do, and what becomes
    of a backup that is restored and started. */
module Recovery {
  import opened Basics
  import opened PoolPath
  import opened RepositoryState

  // ----- convergence -----------------------------------------------------------------------

  /** All a startup can do short of finishing deletes. */
  predicate Tidy(d: Disk) {
    && !d.pending && Clean(d) && d.next == Absent && HasHistory(d.live)
    && Orphans(d) == {} && MarkMissing(d.rows, d.pool) == d.rows
  }

  /** Nothing left to recover. */
  predicate Settled(d: Disk) { Tidy(d) && PendingRows(d.rows) == {} }

  lemma FilesOfMarked(rows: map<Nva, Row>, pool: map<File, Digest>)
    ensures Files(MarkMissing(rows, pool)) == Files(rows)
    ensures PendingRows(MarkMissing(rows, pool)) == PendingRows(rows)
    ensures MarkMissing(MarkMissing(rows, pool), pool) == MarkMissing(rows, pool)
    ensures RowsNamed(rows) ==> RowsNamed(MarkMissing(rows, pool))
  {
    var m := MarkMissing(rows, pool);
    forall f ensures f in Files(m) <==> f in Files(rows) {
      assert forall n :: n in rows ==> m[n].file == rows[n].file;
    }
  }

  /** Without its orphans the pool still has the blob of every row. */
  lemma MovingOrphansMarksNothing(d: Disk)
    ensures MarkMissing(d.rows, OrphansQuarantined(d).pool) == MarkMissing(d.rows, d.pool)
    ensures Orphans(OrphansQuarantined(d)) == {}
  {}

  lemma PreparedIsPrepared(d: Disk)
    requires RowsNamed(d.rows)
    ensures var e := Prepared(d);
            && e.next == Absent && Orphans(e) == {} && MarkMissing(e.rows, e.pool) == e.rows
            && PendingRows(e.rows) == PendingRows(d.rows) && RowsNamed(e.rows)
  {
    var o := OrphansQuarantined(d);
    MovingOrphansMarksNothing(d);
    FilesOfMarked(o.rows, o.pool);
  }

  lemma FinishingLeavesNoTrace(d: Disk)
    requires RowsNamed(d.rows) && Orphans(d) == {} && MarkMissing(d.rows, d.pool) == d.rows
    ensures var e := Without(d, PendingRows(d.rows));
            && Orphans(e) == {} && MarkMissing(e.rows, e.pool) == e.rows
            && PendingRows(e.rows) == {} && RowsNamed(e.rows)
  {
    var gone := PendingRows(d.rows);
    var e := Without(d, gone);
    forall f | f in e.pool && IsDeb(f) ensures f in Files(e.rows) {
      assert f in d.pool && f !in Orphans(d);
      var n :| n in d.rows && d.rows[n].file == f;
      assert n !in gone;
      assert e.rows[n].file == f;
    }
    forall n | n in e.rows && e.rows[n].state == Active ensures e.rows[n].file in e.pool {
      assert MarkMissing(d.rows, d.pool)[n] == d.rows[n];
      forall m | m in gone ensures d.rows[m].file != d.rows[n].file {
        if d.rows[m].file == d.rows[n].file {
          FilesAreUnique(d, m, n);
        }
      }
    }
  }

  /** One startup leaves only deletes to finish, and those exactly when it had to publish first. */
  lemma OneStartup(d: Disk)
    requires RowsNamed(d.rows)
    ensures var g := AfterStartup(d);
            && Tidy(g) && RowsNamed(g.rows)
            && (Settled(g) <==> PendingRows(d.rows) == {} || Clean(Prepared(SettingsRecovered(d))))
  {
    FilesOfMarked(d.rows, d.pool);
    var s := SettingsRecovered(d);
    PreparedIsPrepared(s);
    var e := Prepared(s);
    FinishingLeavesNoTrace(e);
    var f := DeletesFinished(e);
    FilesOfMarked(f.rows, f.pool);
  }

  lemma TidyStartup(d: Disk)
    requires RowsNamed(d.rows) && Tidy(d)
    ensures AfterStartup(d) == Without(d, PendingRows(d.rows))
    ensures Settled(AfterStartup(d))
  {
    assert OrphansQuarantined(d) == d by { assert d.pool - {} == d.pool; }
    FinishingLeavesNoTrace(d);
  }

  /** From any state, two startups that meet no fault reach a state with nothing left to recover. */
  lemma TwoStartupsSettle(d: Disk)
    requires RowsNamed(d.rows)
    ensures Settled(AfterStartup(AfterStartup(d)))
  {
    OneStartup(d);
    TidyStartup(AfterStartup(d));
  }

  /** A startup changes nothing exactly when there is nothing left to recover. */
  lemma StartupFixpoints(d: Disk)
    requires RowsNamed(d.rows)
    ensures AfterStartup(d) == d <==> Settled(d)
  {
    if AfterStartup(d) == d {
      OneStartup(d);
      TidyStartup(d);
    }
    if Settled(d) {
      TidyStartup(d);
      assert d.rows - {} == d.rows && d.pool - {} == d.pool;
    }
  }

  /** The third startup changes nothing. */
  lemma ThirdStartupIsIdle(d: Disk)
    requires RowsNamed(d.rows)
    ensures var two := AfterStartup(AfterStartup(d)); AfterStartup(two) == two
  {
    TwoStartupsSettle(d);
    OneStartup(d);
    OneStartup(AfterStartup(d));
    StartupFixpoints(AfterStartup(AfterStartup(d)));
  }

  // ----- the two commits of _quarantine_missing --------------------------------------------

  /** A startup that finds the marks without the flag has no other reason to publish, and one of the
      marked rows is in the live index. */
  predicate MarkGap(d: Disk) {
    && !d.pending && Clean(d) && HasHistory(d.live) && Orphans(d) == {}
    && exists n :: n in d.rows && d.rows[n].state == Active && d.rows[n].file !in d.pool &&
                   Lists(d.live, PkgOf(n, d.rows[n]))
  }

  /** A crash after the marks and before the dirty flag, then a startup: what readiness reports then is
      wrong exactly in the gap. */
  lemma MarksWithoutFlag(mode: Mode, d: Disk)
    requires Sound(mode, d) && Ready(d)
    ensures var after := AfterStartup(d.(rows := MarkMissing(d.rows, d.pool)));
            && Clean(after) && !after.pending
            && (Ready(after) <==> !MarkGap(d))
  {
    var g := d.(rows := MarkMissing(d.rows, d.pool));
    FilesOfMarked(d.rows, d.pool);
    assert Orphans(g) == Orphans(d);
    OneStartup(g);
    if !d.pending && Clean(d) && HasHistory(d.live) && Orphans(d) == {} {
      MarksUnnoticed(d);
    } else {
      PublishingStartup(g);
    }
  }

  /** Nothing makes the startup publish. */
  lemma MarksUnnoticed(d: Disk)
    requires RowsNamed(d.rows) && Ready(d) && !d.pending && Clean(d) && HasHistory(d.live) && Orphans(d) == {}
    ensures var after := AfterStartup(d.(rows := MarkMissing(d.rows, d.pool)));
            Current(after.live, after.rows, after.saved) <==>
            forall n :: n in d.rows && d.rows[n].state == Active && d.rows[n].file !in d.pool ==>
              !Lists(d.live, PkgOf(n, d.rows[n]))
  {
    var g := d.(rows := MarkMissing(d.rows, d.pool));
    FilesOfMarked(d.rows, d.pool);
    assert OrphansQuarantined(g) == g by { assert g.pool - {} == g.pool; }
    var after := AfterStartup(g);
    assert after.live == d.live && after.rows == g.rows - PendingRows(g.rows);
    forall p ensures p in ActivePkgs(after.rows) <==> p in ActivePkgs(d.rows) && p.file in d.pool {
      ActiveMember(after.rows, p);
      ActiveMember(d.rows, p);
    }
    IndexesDiffer(d, after.rows);
  }

  lemma WithoutPendingIsAsActive(rows: map<Nva, Row>)
    ensures ActivePkgs(rows - PendingRows(rows)) == ActivePkgs(rows)
  {
    forall p ensures p in ActivePkgs(rows) <==> p in ActivePkgs(rows - PendingRows(rows)) {
      ActiveMember(rows, p);
      ActiveMember(rows - PendingRows(rows), p);
    }
  }

  /** Something does: whatever it is, the index is current afterwards. */
  lemma PublishingStartup(d: Disk)
    requires RowsNamed(d.rows) && MarkMissing(d.rows, d.pool) == d.rows
    requires d.pending || !Clean(d) || !HasHistory(d.live) || Orphans(d) != {}
    ensures var after := AfterStartup(d); Current(after.live, after.rows, after.saved)
  {
    FilesOfMarked(d.rows, d.pool);
    var s := SettingsRecovered(d);
    MovingOrphansMarksNothing(s);
    var e := Prepared(s);
    assert e.rows == d.rows && e.live == s.live;
    WithoutPendingIsAsActive(e.rows);
  }

  /** It happens when the blob of a listed package is removed from outside. */
  lemma MarksWithoutFlagHappens() returns (d: Disk)
    ensures Sound(Strict, d) && Ready(d) && MarkGap(d)
    ensures !Ready(AfterStartup(d.(rows := MarkMissing(d.rows, d.pool))))
  {
    var n := Nva("hello", "1.0-1", "all");
    var whole := OnePackage(n, "main");
    OnePackageIsSound(n, "main");
    d := whole.(pool := map[], lost := {PoolFile("main", n)});
    assert Lists(d.live, PkgOf(n, d.rows[n])) && d.rows[n].file !in d.pool;
    MarksWithoutFlag(Strict, d);
  }

  /** Two rebuilds agree exactly when the rows they do not share are not listed. */
  lemma IndexesDiffer(d: Disk, rows: map<Nva, Row>)
    requires Current(d.live, d.rows, d.saved)
    requires forall p :: p in ActivePkgs(rows) <==> p in ActivePkgs(d.rows) && p.file in d.pool
    ensures Current(d.live, rows, d.saved) <==>
            forall n :: n in d.rows && d.rows[n].state == Active && d.rows[n].file !in d.pool ==>
              !Lists(d.live, PkgOf(n, d.rows[n]))
  {
    var old', new' := d.live.tree.index, Rebuild(d.saved, ActivePkgs(rows)).index;
    forall n | n in d.rows && d.rows[n].state == Active && d.rows[n].file !in d.pool
      ensures Lists(d.live, PkgOf(n, d.rows[n])) ==> old' != new'
    {
      var p := PkgOf(n, d.rows[n]);
      if a :| a in old' && p in old'[a] {
        assert p !in new'[a];
      }
    }
    if forall n :: n in d.rows && d.rows[n].state == Active && d.rows[n].file !in d.pool ==>
                 !Lists(d.live, PkgOf(n, d.rows[n])) {
      forall a | a in d.saved.archs ensures old'[a] == new'[a] {
        forall p ensures p in old'[a] <==> p in new'[a] {
          ActiveMember(d.rows, p);
          if p in old'[a] {
            assert Lists(d.live, p);
          }
        }
      }
      assert old' == new';
    }
  }

  // ----- backup and restore ----------------------------------------------------------------

  /** What the database holds. */
  datatype Database = Database(rows: map<Nva, Row>, dirty: bool, pending: bool, runs: nat, last: RunStatus,
                               saved: Config)

  /** What prvaptmirror/maintenance.py archives: the database and the pool. */
  datatype Archive = Archive(db: Database, pool: map<File, Digest>)

  function DatabaseOf(d: Disk): Database { Database(d.rows, d.dirty, d.pending, d.runs, d.last, d.saved) }

  /** _check_package_files. */
  predicate FilesCheck(rows: map<Nva, Row>, pool: map<File, Digest>) {
    forall n :: n in rows ==>
      if rows[n].file in pool then pool[rows[n].file] == rows[n].sha else rows[n].state != Active
  }

  function Backup(d: Disk): Option<Archive> {
    if FilesCheck(d.rows, d.pool) then Some(Archive(DatabaseOf(d), d.pool)) else None
  }

  /** A data directory with this database and pool and nothing else. */
  function DiskOf(db: Database, pool: map<File, Digest>): Disk {
    Disk(db.rows, pool, Absent, Absent, db.dirty, db.pending, db.runs, db.last, db.saved, map[], {}, {})
  }

  /** restore checks the archive again, marks it for rebuilding, and brings no dists with it. */
  function Restore(a: Archive): Option<Disk> {
    if FilesCheck(a.db.rows, a.pool) then Some(DiskOf(a.db.(dirty := true), a.pool)) else None
  }

  /** Everything registered is back and the live index is the rebuild of the active rows. */
  predicate BroughtBack(d: Disk, r: Disk, deletesDone: bool) {
    && Current(r.live, r.rows, d.saved)
    && ActivePkgs(r.rows) == ActivePkgs(d.rows)
    && r.rows == (if deletesDone then d.rows - PendingRows(d.rows) else d.rows)
    && r.pool == (if deletesDone then d.pool - FilesOf(d.rows, PendingRows(d.rows)) else d.pool - Orphans(d))
  }

  /** Startup of a state whose rows are all backed and which will publish after reconciling. */
  lemma ReconcileDirty(d: Disk)
    requires FilesCheck(d.rows, d.pool) && (d.dirty || Orphans(d) != {})
    ensures BroughtBack(d, Reconciled(d), false)
  {
    MovingOrphansMarksNothing(d);
    assert MarkMissing(d.rows, d.pool) == d.rows;
    var e := Prepared(d);
    assert e.rows == d.rows && e.pool == d.pool - Orphans(d);
    assert DeletesFinished(e) == e;
  }

  /** Startup of a clean state without stray blobs: only the deletes are finished. */
  lemma ReconcileClean(d: Disk)
    requires FilesCheck(d.rows, d.pool) && Clean(d) && Orphans(d) == {}
    requires Current(d.live, d.rows, d.saved) && HasHistory(d.live)
    ensures BroughtBack(d, Reconciled(d), true)
  {
    assert d.pool - {} == d.pool;
    assert OrphansQuarantined(d) == d;
    assert MarkMissing(d.rows, d.pool) == d.rows;
    WithoutPendingIsAsActive(d.rows);
  }

  /** Backup, restore, first startup: rows that waited for deletion are gone exactly when a
      settings change was pending and no stray blob had to be moved; all else is as it was. */
  lemma BackupRestoreStartup(d: Disk, a: Archive)
    requires RowsNamed(d.rows) && Backup(d) == Some(a)
    ensures Restore(a).Some? && Sound(Strict, Restore(a).value) && Ready(Restore(a).value)
    ensures BroughtBack(d, AfterStartup(Restore(a).value), d.pending && Orphans(d) == {})
  {
    var s := Restore(a).value;
    assert Orphans(s) == Orphans(d);
    if d.pending {
      assert MarkMissing(s.rows, s.pool) == s.rows;
      var t := SettingsRecovered(s);
      assert Orphans(t) == Orphans(d);
      if Orphans(d) == {} {
        ReconcileClean(t);
      } else {
        ReconcileDirty(t);
      }
    } else {
      ReconcileDirty(s);
    }
  }
}
