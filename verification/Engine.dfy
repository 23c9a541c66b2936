/** The operations that move the repository (prvaptmirror/publish.py, storage.py, main.py and the
    worker of the settings form), as imperative code over one durable state.

    Every durable write goes through Write, which appends the new state to the journal.  The
    journal is therefore the list of states a crash can leave behind, and a crash after k writes
    is the journal cut after its k-th new entry. */
module Engine {
  import opened Basics
  import opened PoolPath
  import opened RepositoryState

  /** Where an exception strikes inside publish_unlocked. */
  datatype Point =
    | Nowhere
    | Begin               // inserting the run, before anything else
    | NoKey               // the key fingerprint is missing
    | MarkRow(n: Nva)     // marking this row as missing
    | FlagMissing         // setting the flag after the marks
    | Build               // rendering, by-hash, signing or syncing the staged tree
    | ClearNext           // deleting an old dists.next, half way
    | Move                // moving the staged tree to dists.next
    | Exchange            // chmod or the exchange itself
    | Cleanup             // deleting the replaced tree, half way
    | Record              // recording the success of the run
    | ClearFlag           // clearing the dirty flag

  /** How far its except block gets: all the way, to the run's status, or nowhere. */
  datatype Ending = Recorded | NotFlagged | NotRecorded

  datatype Fault = Fault(at: Point, ending: Ending)

  const NO_FAULT := Fault(Nowhere, Recorded)

  /** Where an exception strikes inside exclusive_link_or_revive. */
  datatype PlaceFault = PlaceNoFault | BeforeLink | AfterLink

  /** A validated package, the incoming file it was parsed from, and whether somebody put a symbolic
      link at its destination. */
  datatype Item = Item(nva: Nva, sha: Digest, path: string, symlink: bool, fault: PlaceFault)

  datatype Placement = Placed(revived: bool, file: File) | Duplicate | Raised

  // ----- journals --------------------------------------------------------------------------

  // The three predicates recurse over the journal; TraceSafeAt and its companions below say what
  // they mean state by state.

  /** Every state keeps the invariant and every write is a legal step. */
  ghost predicate TraceSafe(mode: Mode, j: seq<Disk>) {
    && j != []
    && Sound(mode, j[|j| - 1])
    && (|j| > 1 ==> TraceSafe(mode, j[..|j| - 1]) && Step(j[|j| - 2], j[|j| - 1]))
  }

  /** Except for the last state: ready states tell the truth, and a state that does not is
      followed by another mark or by the dirty flag. */
  ghost predicate TraceReady(j: seq<Disk>) {
    |j| > 1 ==> TraceReady(j[..|j| - 1]) && (Ready(j[|j| - 2]) || Marking(j[|j| - 2], j[|j| - 1]))
  }

  ghost predicate TraceDangles(j: seq<Disk>) {
    j != [] && (!NoDangling(j[|j| - 1]) || TraceDangles(j[..|j| - 1]))
  }

  lemma TraceExtends(mode: Mode, j: seq<Disk>, d: Disk)
    requires j != []
    ensures TraceSafe(mode, j + [d]) <==> TraceSafe(mode, j) && Sound(mode, d) && Step(j[|j| - 1], d)
    ensures TraceReady(j + [d]) <==> TraceReady(j) && (Ready(j[|j| - 1]) || Marking(j[|j| - 1], d))
    ensures TraceDangles(j + [d]) <==> TraceDangles(j) || !NoDangling(d)
  {}

  class Repository {
    ghost const mode: Mode
    var disk: Disk
    var journal: seq<Disk>

    ghost predicate Linked()
      reads this
    {
      journal != [] && journal[|journal| - 1] == disk
    }

    ghost predicate Safe()
      reads this
    {
      Linked() && TraceSafe(mode, journal)
    }

    ghost predicate Steady()
      reads this
    {
      Linked() && TraceReady(journal) && Ready(disk)
    }

    /** Nothing was lost since the operation began. */
    twostate predicate Kept()
      reads this
    {
      KeptIf(true)
    }

    /** The same, the invariant only if this holds. */
    twostate predicate KeptIf(harmless: bool)
      reads this
    {
      && Linked() && old(journal) <= journal
      && (harmless ==> (Safe() <==> old(Safe())))
      && (old(Steady()) ==> Steady())
      && (old(TraceDangles(journal)) ==> TraceDangles(journal))
    }

    constructor (ghost mode: Mode, d: Disk)
      requires Sound(mode, d) && Ready(d)
      ensures this.mode == mode && disk == d && journal == [d] && Safe() && Steady()
    {
      this.mode := mode;
      disk := d;
      journal := [d];
    }

    // ----- durable writes ------------------------------------------------------------------

    method Write(d: Disk)
      requires Linked()
      modifies this
      ensures Linked() && disk == d && journal == old(journal) + [d]
      ensures Safe() ==> old(Safe())
      ensures old(Safe()) && Sound(mode, d) && Step(old(disk), d) ==> Safe()
      ensures !Sound(mode, d) ==> !Safe()
      ensures old(TraceReady(journal)) && (Ready(old(disk)) || Marking(old(disk), d)) ==> TraceReady(journal)
      ensures old(TraceDangles(journal)) || !NoDangling(d) ==> TraceDangles(journal)
    {
      TraceExtends(mode, journal, d);
      disk := d;
      journal := journal + [d];
    }

    method WriteMinor(d: Disk)
      requires Linked() && Minor(disk, d)
      modifies this
      ensures Linked() && disk == d && journal == old(journal) + [d]
      ensures Quiet(old(disk), d) || ListedAreRows(d.live, d.rows) ==> (Safe() <==> old(Safe()))
      ensures old(TraceReady(journal)) && (Ready(old(disk)) || Marking(old(disk), d)) ==> TraceReady(journal)
      ensures Quiet(old(disk), d) ==> Kept()
      ensures old(TraceDangles(journal)) ==> TraceDangles(journal)
    {
      MinorKeepsSound(mode, disk, d);
      Write(d);
    }

    // ----- marking -------------------------------------------------------------------------

    method MarkRowMissing(k: Nva)
      requires Linked() && k in disk.rows && disk.rows[k].state == Active
      modifies this
      ensures Linked() && journal == old(journal) + [disk]
      ensures disk == old(disk).(rows := old(disk).rows[k := old(disk).rows[k].(state := PackageState.Missing)])
      ensures Safe() <==> old(Safe())
      ensures old(TraceReady(journal)) ==> TraceReady(journal)
      ensures old(TraceDangles(journal)) ==> TraceDangles(journal)
    {
      if Sound(mode, disk) {
        MarksKeepSound(mode, disk, disk.(rows := disk.rows[k := disk.rows[k].(state := PackageState.Missing)]));
      }
      Write(disk.(rows := disk.rows[k := disk.rows[k].(state := PackageState.Missing)]));
    }

    /** Marks the row if its blob is gone, unless an exception strikes. */
    method LookAtRow(ghost d: Disk, ghost todo: set<Nva>, k: Nva, strikes: bool) returns (gone: bool)
      requires Linked() && k in todo && k in d.rows && d.rows[k].state == Active
      requires disk == d.(rows := MarkedExcept(d.rows, d.pool, todo))
      modifies this
      ensures Linked() && old(journal) <= journal && gone == (k in GoneRows(d.rows, d.pool))
      ensures if gone && strikes then disk == old(disk)
              else disk == d.(rows := MarkedExcept(d.rows, d.pool, todo - {k}))
      ensures Safe() <==> old(Safe())
      ensures old(TraceReady(journal)) ==> TraceReady(journal)
      ensures old(TraceDangles(journal)) ==> TraceDangles(journal)
    {
      MarkedExceptStep(d.rows, d.pool, todo, k);
      gone := disk.rows[k].file !in disk.pool;
      if gone && !strikes {
        MarkRowMissing(k);
      }
    }

    /** Each active row whose blob is gone becomes missing, one commit a row, until an exception
        strikes at one of them. */
    method MarkMissingRows(stop: Option<Nva>) returns (some: bool, raised: bool)
      requires Linked()
      modifies this
      ensures Linked() && old(journal) <= journal
      ensures raised <==> stop.Some? && stop.value in GoneRows(old(disk).rows, old(disk).pool)
      ensures disk == old(disk).(rows := disk.rows)
      ensures if raised then MarksSpare(old(disk).rows, old(disk).pool, stop.value, disk.rows)
              else disk.rows == MarkMissing(old(disk).rows, old(disk).pool)
      ensures !raised ==> (some <==> disk.rows != old(disk).rows)
      ensures Safe() <==> old(Safe())
      ensures old(Steady()) ==> TraceReady(journal)
      ensures old(TraceDangles(journal)) ==> TraceDangles(journal)
    {
      ghost var d := disk;
      ghost var gone := GoneRows(disk.rows, disk.pool);
      var todo := set k | k in disk.rows && disk.rows[k].state == Active;
      some, raised := false, false;
      assert disk.rows == MarkedExcept(d.rows, d.pool, todo);
      while todo != {}
        invariant Linked() && old(journal) <= journal
        invariant forall k :: k in todo ==> k in d.rows && d.rows[k].state == Active
        invariant disk == d.(rows := MarkedExcept(d.rows, d.pool, todo))
        invariant stop.Some? && stop.value in gone ==> stop.value in todo
        invariant if some then gone != {} else gone <= todo
        invariant Safe() <==> old(Safe())
        invariant old(Steady()) ==> TraceReady(journal)
        invariant old(TraceDangles(journal)) ==> TraceDangles(journal)
      {
        var k :| k in todo;
        var marks := LookAtRow(d, todo, k, stop == Some(k));
        if marks && stop == Some(k) {
          raised := true;
          return;
        }
        some := some || marks;
        todo := todo - {k};
      }
      assert disk.rows == MarkMissing(d.rows, d.pool);
      GoneMeansMarked(d);
    }

    /** _quarantine_missing: the flag follows the marks in a commit of its own. */
    method QuarantineMissing()
      requires Linked()
      modifies this
      ensures Kept() && disk == MissingQuarantined(old(disk))
    {
      var ok := QuarantineMissingUntil(Nowhere);
    }

    method QuarantineMissingUntil(at: Point) returns (ok: bool)
      requires Linked()
      modifies this
      ensures Linked() && old(journal) <= journal
      ensures ok <==> !FaultWhileMarking(at, old(disk))
      ensures ok ==> disk == MissingQuarantined(old(disk))
      ensures !ok ==> disk == old(disk).(rows := disk.rows)
      ensures !ok && at.MarkRow? ==> MarksSpare(old(disk).rows, old(disk).pool, at.n, disk.rows)
      ensures !ok && at.FlagMissing? ==> disk.rows == MarkMissing(old(disk).rows, old(disk).pool)
      ensures Safe() <==> old(Safe())
      ensures old(Steady()) ==> TraceReady(journal)
      ensures ok || old(disk).last != Success ==> Kept()
      ensures old(TraceDangles(journal)) ==> TraceDangles(journal)
    {
      GoneMeansMarked(disk);
      var some, raised := MarkMissingRows(if at.MarkRow? then Some(at.n) else None);
      if raised {
        return false;
      }
      if some {
        if at.FlagMissing? {
          return false;
        }
        WriteMinor(disk.(dirty := true));
      }
      ok := true;
    }

    // ----- publishing ----------------------------------------------------------------------

    /** shutil.rmtree of dists.next: the tree is partial before it is gone. */
    method DeleteNext(stops: bool)
      requires Linked()
      modifies this
      ensures Kept()
      ensures disk == old(disk).(next := if stops then Partial else Absent)
    {
      WriteMinor(disk.(next := Partial));
      if !stops {
        WriteMinor(disk.(next := Absent));
      }
    }

    /** Puts the staged tree at dists.next. */
    method StageNext(tree: Tree, at: Point) returns (ok: bool)
      requires Linked()
      modifies this
      ensures Kept()
      ensures disk == old(disk).(next := disk.next)
      ensures ok <==> !(at.Move? || (at.ClearNext? && old(disk).next != Absent))
      ensures ok ==> disk.next == Complete(tree)
    {
      if disk.next != Absent {
        DeleteNext(at.ClearNext?);
        if at.ClearNext? {
          return false;
        }
      }
      if at.Move? {
        return false;
      }
      WriteMinor(disk.(next := Complete(tree)));
      return true;
    }

    /** Renames or exchanges dists.next into place, then deletes what it replaced. */
    method SwapIn(cfg: Config, at: Point) returns (ok: bool)
      requires Linked() && disk.next == Complete(Rebuild(cfg, ActivePkgs(disk.rows)))
      requires disk.last == Running && (cfg == disk.saved || disk.pending)
      requires forall n :: n in disk.rows && disk.rows[n].state == Active ==> disk.rows[n].file in disk.pool
      modifies this
      ensures Kept()
      ensures disk == old(disk).(live := old(disk).next, next := disk.next)
      ensures ok <==> !(at.Cleanup? && old(disk).live != Absent)
      ensures ok ==> disk.next == Absent
    {
      if Sound(mode, disk) {
        SwapKeepsSound(mode, disk, cfg);
      }
      if disk.live == Absent {
        Write(disk.(live := disk.next, next := Absent));
        return true;
      }
      Write(disk.(live := disk.next, next := disk.live));
      DeleteNext(at.Cleanup?);
      return !at.Cleanup?;
    }

    /** The try block of publish_unlocked, after the run was inserted. */
    method TryPublish(cfg: Config, fault: Fault) returns (ok: bool)
      requires Linked() && disk.last == Running && !fault.at.Begin?
      requires cfg == disk.saved || disk.pending
      modifies this
      ensures Kept()
      ensures disk == old(disk).(rows := disk.rows, live := disk.live, next := disk.next, dirty := disk.dirty,
                                 last := disk.last)
      ensures RowsAfter(old(disk).rows, old(disk).pool, fault.at, disk.rows)
      ensures disk.live ==
                if StrikesEarly(fault, old(disk)) then old(disk).live else Complete(Rebuild(cfg, ActivePkgs(disk.rows)))
      ensures ok <==> !Strikes(fault, old(disk))
      ensures ok ==> disk.next == Absent && !disk.dirty && disk.last == Success
      ensures !ok ==> (old(disk).dirty ==> disk.dirty) &&
                      (disk.last != Running ==> fault.at.ClearFlag? && disk.last == Success)
    {
      if fault.at.NoKey? {
        return false;
      }
      ok := QuarantineMissingUntil(fault.at);
      if !ok {
        return;
      }
      MarkMissingTwice(old(disk));
      var _, _ := MarkMissingRows(None);
      ok := PublishPresent(cfg, fault.at);
    }

    /** The rest of the try block, once every active row has its blob. */
    method PublishPresent(cfg: Config, at: Point) returns (ok: bool)
      requires Linked() && disk.last == Running
      requires cfg == disk.saved || disk.pending
      requires forall n :: n in disk.rows && disk.rows[n].state == Active ==> disk.rows[n].file in disk.pool
      modifies this
      ensures Kept()
      ensures disk == old(disk).(live := disk.live, next := disk.next, dirty := old(disk).dirty && !ok,
                                 last := disk.last)
      ensures ok <==> !LateFault(at, old(disk))
      ensures disk.live ==
                if EarlyPoint(at) && !ok then old(disk).live else Complete(Rebuild(cfg, ActivePkgs(disk.rows)))
      ensures disk.last == (if ok || at.ClearFlag? then Success else Running)
      ensures ok ==> disk.next == Absent
    {
      if at.Build? {
        return false;
      }
      ok := StageNext(Rebuild(cfg, ActivePkgs(disk.rows)), at);
      if !ok || at.Exchange? {
        return false;
      }
      ok := SwapIn(cfg, at);
      if !ok {
        return false;
      }
      ok := RecordSuccess(cfg, at);
    }

    method RecordSuccess(cfg: Config, at: Point) returns (ok: bool)
      requires Linked() && disk.last == Running
      requires cfg == disk.saved || disk.pending
      requires Current(disk.live, disk.rows, cfg)
      modifies this
      ensures Kept()
      ensures ok <==> !at.Record? && !at.ClearFlag?
      ensures disk == old(disk).(dirty := old(disk).dirty && !ok, last := if at.Record? then Running else Success)
    {
      if at.Record? {
        return false;
      }
      CurrentListsRows(disk.live, disk.rows, cfg);
      WriteMinor(disk.(last := Success));
      if at.ClearFlag? {
        return false;
      }
      WriteMinor(disk.(dirty := false));
      return true;
    }

    /** The except block of publish_unlocked. */
    method RecordFailure(ending: Ending)
      requires Linked()
      modifies this
      ensures Kept()
      ensures disk == old(disk).(dirty := old(disk).dirty || ending.Recorded?,
                                 last := if ending.NotRecorded? then old(disk).last else Failed)
    {
      if ending.NotRecorded? {
        return;
      }
      WriteMinor(disk.(last := Failed));
      if ending.NotFlagged? {
        return;
      }
      WriteMinor(disk.(dirty := true));
    }

    /** publish_unlocked: on a fault the run is recorded as failed and the flag is set, unless an
        exception strikes there too. */
    method PublishUnlocked(cfg: Config, fault: Fault) returns (ok: bool)
      requires Linked() && (cfg == disk.saved || disk.pending)
      modifies this
      ensures Kept()
      ensures ok <==> !Strikes(fault, old(disk))
      ensures ok ==> disk == Published(old(disk), cfg)
      ensures !ok ==> PublishFailed(old(disk), cfg, fault, disk)
    {
      if fault.at.Begin? {
        return false;
      }
      WriteMinor(disk.(runs := disk.runs + 1, last := Running));
      ok := TryPublish(cfg, fault);
      if !ok {
        RecordFailure(fault.ending);
      }
    }

    // ----- finishing deletes ---------------------------------------------------------------

    /** Unlinks the blob, then deletes the row. */
    method DropRow(n: Nva)
      requires Linked() && Clean(disk) && n in disk.rows && disk.rows[n].state == PendingDelete
      modifies this
      ensures Linked() && disk == Dropped(old(disk), n)
      ensures journal == old(journal) + [old(disk).(pool := disk.pool), disk]
      ensures Safe() <==> old(Safe()) && !Lists(old(disk).live, PkgOf(n, old(disk).rows[n]))
      ensures old(Steady()) ==> Steady()
      ensures old(TraceDangles(journal)) ==> TraceDangles(journal)
      ensures Lists(old(disk).live, PkgOf(n, old(disk).rows[n])) && old(disk).rows[n].file !in old(disk).lost ==>
                TraceDangles(journal)
    {
      if Lists(disk.live, PkgOf(n, disk.rows[n])) {
        DropBreaksSound(mode, disk, n);
      } else if Sound(mode, disk) {
        DropKeepsSound(mode, disk, n);
      }
      InactiveDoNotCount(disk.rows, n);
      Write(disk.(pool := disk.pool - {disk.rows[n].file}));
      Write(disk.(rows := disk.rows - {n}));
    }

    /** _finish_orphaned_pending_deletes. */
    method FinishPendingDeletes()
      requires Linked()
      modifies this
      ensures Linked() && old(journal) <= journal && disk == DeletesFinished(old(disk))
      ensures Safe() <==> old(Safe()) && !(Clean(old(disk)) && PendingListed(old(disk), PendingRows(old(disk).rows)))
      ensures old(Steady()) ==> Steady()
      ensures old(TraceDangles(journal)) ==> TraceDangles(journal)
      ensures Clean(old(disk)) && PendingExposed(old(disk), PendingRows(old(disk).rows)) ==> TraceDangles(journal)
    {
      if disk.last != Success || disk.dirty {
        return;
      }
      ghost var d0 := disk;
      ghost var all := PendingRows(disk.rows);
      var todo := PendingRows(disk.rows);
      ghost var done := {};
      while todo != {}
        invariant todo !! done && todo + done == all
        invariant Linked() && old(journal) <= journal
        invariant disk == Without(d0, done)
        invariant Safe() <==> old(Safe()) && !PendingListed(d0, done)
        invariant old(Steady()) ==> Steady()
        invariant old(TraceDangles(journal)) || PendingExposed(d0, done) ==> TraceDangles(journal)
      {
        var n :| n in todo;
        WithoutStep(d0, done, n);
        DropRow(n);
        assert PendingExposed(d0, done + {n}) <==>
               PendingExposed(d0, done) || (Lists(d0.live, PkgOf(n, d0.rows[n])) && d0.rows[n].file !in d0.lost);
        assert PendingListed(d0, done + {n}) <==> PendingListed(d0, done) || Lists(d0.live, PkgOf(n, d0.rows[n]));
        todo := todo - {n};
        done := done + {n};
      }
      assert done == all;
    }

    // ----- placing packages ----------------------------------------------------------------

    /** exclusive_link_or_revive.  A package is placed exactly if its incoming file is there, no fault
        strikes, no symbolic link is in its place, it has no row or one with its digest that does not
        wait for deletion, and there is no blob at its place or one with its digest and no active row.
        Nothing but the incoming file is gone unless it is placed. */
    method Place(cfg: Config, item: Item) returns (out: Placement)
      requires Linked()
      modifies this
      ensures Linked() && old(journal) <= journal
      ensures out == Outcome(old(disk), cfg, item) && disk == AfterPlace(old(disk), cfg, item)
      ensures var d, n, dest := old(disk), item.nva, PoolFile(cfg.component, item.nva);
              out.Placed? <==>
                && item.path in d.incoming && item.fault.PlaceNoFault? && !item.symlink
                && (n in d.rows ==> d.rows[n].sha == item.sha && d.rows[n].state != PendingDelete)
                && (dest in d.pool ==> d.pool[dest] == item.sha && !(n in d.rows && d.rows[n].state == Active))
      ensures var d, n, dest := old(disk), item.nva, PoolFile(cfg.component, item.nva);
              out.Duplicate? <==>
                || (n in d.rows && (d.rows[n].sha != item.sha || d.rows[n].state == PendingDelete))
                || (&& item.path in d.incoming && !item.fault.BeforeLink?
                    && (item.symlink || (dest in d.pool &&
                          (d.pool[dest] != item.sha || (n in d.rows && d.rows[n].state == Active)))))
      ensures out.Placed? ==> out == Placed(item.nva in old(disk).rows, PoolFile(cfg.component, item.nva))
      ensures out.Placed? ==> disk.rows == old(disk).rows[item.nva := Row(out.file, item.sha, Active)] && disk.dirty
      ensures out.Placed? ==> disk.pool == if out.file in old(disk).pool then old(disk).pool
                                           else old(disk).pool[out.file := old(disk).incoming[item.path]]
      ensures !out.Placed? ==> disk == old(disk).(incoming := disk.incoming)
      ensures item.path !in disk.incoming
      ensures old(Safe()) && Parsed(old(disk), item) ==>
                (Safe() <==> (out.Placed? ==> Admits(mode, old(disk), PoolFile(cfg.component, item.nva))))
      ensures old(Steady()) ==> Steady()
    {
      var dest := PoolFile(cfg.component, item.nva);
      if DuplicateRow(disk, item) {
        out := Duplicate;
      } else if item.fault.BeforeLink? || item.path !in disk.incoming {
        out := Raised;
      } else if dest in disk.pool || item.symlink {
        if DuplicateBlob(disk, cfg, item) {
          out := Duplicate;
        } else if item.fault.AfterLink? {
          out := Raised;
        } else {
          out := Register(dest, item);
        }
      } else {
        out := LinkAndRegister(dest, item);
      }
      WriteMinor(disk.(incoming := disk.incoming - {item.path}));
    }

    /** The transaction that writes the row and the dirty flag together. */
    method Register(dest: File, item: Item) returns (out: Placement)
      requires Linked() && dest.PoolFile? && dest.nva == item.nva && dest in disk.pool
      requires !DuplicateRow(disk, item)
      modifies this
      ensures Linked() && old(journal) <= journal
      ensures out == Placed(item.nva in old(disk).rows, dest)
      ensures disk == old(disk).(rows := old(disk).rows[item.nva := Row(dest, item.sha, Active)], dirty := true)
      ensures old(Safe()) && old(disk).pool[dest] == item.sha ==> (Safe() <==> Admits(mode, old(disk), dest))
      ensures Safe() ==> old(Safe())
      ensures old(Steady()) ==> Steady()
    {
      if Sound(mode, disk) && disk.pool[dest] == item.sha {
        RegisterKeepsSound(mode, disk, dest, item.sha);
      }
      out := Placed(item.nva in disk.rows, dest);
      Write(disk.(rows := disk.rows[item.nva := Row(dest, item.sha, Active)], dirty := true));
    }

    /** A new blob; the link is taken back when what follows raises. */
    method LinkAndRegister(dest: File, item: Item) returns (out: Placement)
      requires Linked() && dest.PoolFile? && dest.nva == item.nva && dest !in disk.pool
      requires !DuplicateRow(disk, item) && item.path in disk.incoming
      modifies this
      ensures Linked() && old(journal) <= journal
      ensures out == if item.fault.AfterLink? then Raised else Placed(item.nva in old(disk).rows, dest)
      ensures disk == if item.fault.AfterLink? then old(disk) else
                      old(disk).(rows := old(disk).rows[item.nva := Row(dest, item.sha, Active)], dirty := true,
                                 pool := old(disk).pool[dest := old(disk).incoming[item.path]],
                                 lost := old(disk).lost - {dest})
      ensures old(Safe()) && Parsed(old(disk), item) ==>
                (Safe() <==> (out.Placed? ==> Admits(mode, old(disk), dest)))
      ensures old(Steady()) ==> Steady()
    {
      ghost var d0 := disk;
      var lost := disk.lost;
      if Sound(mode, disk) && Parsed(disk, item) {
        LinkKeepsSound(mode, disk, dest, item.sha);
      }
      Write(disk.(pool := disk.pool[dest := disk.incoming[item.path]], lost := disk.lost - {dest}));
      if item.fault.AfterLink? {
        assert disk.pool - {dest} == d0.pool;
        Write(disk.(pool := disk.pool - {dest}, lost := lost));
        out := Raised;
      } else {
        out := Register(dest, item);
      }
    }

    /** The loop of upload_commit; it stops at an exception other than a duplicate. */
    method PlaceAll(cfg: Config, items: seq<Item>) returns (results: seq<Placement>, placed: nat, raised: bool)
      requires Linked()
      modifies this
      ensures Linked() && old(journal) <= journal
      ensures (disk, results) == AfterAll(old(disk), cfg, items)
      ensures old(Safe()) && Fit(mode, old(disk), cfg, items) ==> Safe()
      ensures old(Steady()) ==> Steady()
      ensures raised <==> exists r :: r in results && r.Raised?
      ensures placed > 0 <==> exists r :: r in results && r.Placed?
    {
      results, placed, raised := [], 0, false;
      for i := 0 to |items|
        invariant Linked() && old(journal) <= journal
        invariant (disk, results) == AfterAll(old(disk), cfg, items[..i])
        invariant !raised && forall r :: r in results ==> !r.Raised?
        invariant placed > 0 <==> exists r :: r in results && r.Placed?
        invariant old(Safe()) && Fit(mode, old(disk), cfg, items) ==> Safe() && Fit(mode, disk, cfg, items)
        invariant old(Steady()) ==> Steady()
      {
        AfterAllStep(old(disk), cfg, items, i);
        FitStays(mode, disk, cfg, items, i);
        var out := Place(cfg, items[i]);
        results := results + [out];
        assert results[|results| - 1] == out;
        if out.Placed? {
          placed := placed + 1;
        }
        if out.Raised? {
          raised := true;
          AfterAllStops(old(disk), cfg, items, i + 1);
          return;
        }
      }
      assert items[..|items|] == items;
    }

    /** upload_commit: place every item, then publish once if any was placed. */
    method UploadCommit(items: seq<Item>, fault: Fault)
      returns (results: seq<Placement>, pub: Option<bool>, raised: bool)
      requires Linked()
      modifies this
      ensures Linked() && old(journal) <= journal
      ensures old(Safe()) && Fit(mode, old(disk), old(disk).saved, items) ==> Safe()
      ensures old(Steady()) ==> Steady()
      ensures results == AfterAll(old(disk), old(disk).saved, items).1
      ensures pub == None ==> disk == AfterAll(old(disk), old(disk).saved, items).0
      ensures pub.Some? && pub.value ==>
                disk == Published(AfterAll(old(disk), old(disk).saved, items).0, old(disk).saved)
      ensures pub.Some? && !pub.value ==>
                PublishFailed(AfterAll(old(disk), old(disk).saved, items).0, old(disk).saved, fault, disk)
      ensures pub.Some? ==> (pub.value <==> !Strikes(fault, AfterAll(old(disk), old(disk).saved, items).0))
      ensures raised <==> (exists r :: r in results && r.Raised?) ||
                             (pub == Some(false) && (fault.at.Begin? || fault.ending != Recorded))
      ensures pub.Some? <==> !(exists r :: r in results && r.Raised?) && exists r :: r in results && r.Placed?
      ensures disk.incoming == AfterAll(old(disk), old(disk).saved, items).0.incoming
      ensures disk.runs == old(disk).runs + if pub.Some? && !fault.at.Begin? then 1 else 0
    {
      var placed;
      pub := None;
      AfterAllFacts(disk, disk.saved, items);
      results, placed, raised := PlaceAll(disk.saved, items);
      if !raised && placed > 0 {
        WriteMinor(disk.(dirty := true));
        var ok := PublishUnlocked(disk.saved, fault);
        pub := Some(ok);
        raised := !ok && Propagates(fault);
      }
    }

    // ----- deleting, publishing, retrying --------------------------------------------------

    /** The first commit of delete_commit. */
    method MarkForDelete(n: Nva)
      requires Linked() && n in disk.rows
      modifies this
      ensures Linked() && old(journal) <= journal
      ensures disk == MarkedForDelete(old(disk), n)
      ensures Safe() <==> old(Safe())
      ensures old(Steady()) ==> TraceReady(journal)
      ensures old(TraceDangles(journal)) ==> TraceDangles(journal)
    {
      if Sound(mode, disk) {
        MarksKeepSound(mode, disk, MarkedForDelete(disk, n));
      }
      Write(MarkedForDelete(disk, n));
    }

    /** Both commits. */
    method MarkAndFlag(n: Nva)
      requires Linked() && n in disk.rows
      modifies this
      ensures Kept() && disk == MarkedForDelete(old(disk), n).(dirty := true)
    {
      MarkForDelete(n);
      WriteMinor(disk.(dirty := true));
    }

    /** delete_commit: the blob goes only after an index without it is live. */
    method DeleteCommit(n: Nva, fault: Fault) returns (ok: bool)
      requires Linked()
      modifies this
      ensures Kept()
      ensures n !in old(disk).rows ==> !ok && disk == old(disk)
      ensures n in old(disk).rows ==> (ok <==> !Strikes(fault, MarkedForDelete(old(disk), n)))
      ensures ok ==> disk == Dropped(Published(MarkedForDelete(old(disk), n), old(disk).saved), n)
      ensures !ok && n in old(disk).rows ==> 
                PublishFailed(MarkedForDelete(old(disk), n).(dirty := true), old(disk).saved, fault, disk)
    {
      if n !in disk.rows {
        return false;
      }
      MarkAndFlag(n);
      ok := PublishUnlocked(disk.saved, fault);
      if ok {
        RemoveDeleted(n);
      }
    }

    /** The end of delete_commit, once an index without the package is live. */
    method RemoveDeleted(n: Nva)
      requires Linked() && Clean(disk) && Current(disk.live, disk.rows, disk.saved)
      requires n in disk.rows && disk.rows[n].state == PendingDelete
      modifies this
      ensures Kept() && disk == Dropped(old(disk), n)
    {
      CurrentListsNoPending(disk.live, disk.rows, disk.saved, n);
      DropRow(n);
      WriteMinor(disk.(dirty := false));
    }

    /** The settings no longer wait for a publish. */
    method SettleSettings()
      requires Linked() && Current(disk.live, disk.rows, disk.saved)
      modifies this
      ensures Kept() && disk == old(disk).(pending := false)
    {
      Write(disk.(pending := false));
    }

    /** publish, and the body of retry_pending_publish once it decided to publish. */
    method PublishAndFinish(fault: Fault, settle: bool) returns (ok: bool)
      requires Linked()
      modifies this
      ensures Kept()
      ensures ok <==> !Strikes(fault, old(disk))
      ensures ok ==>
                disk == DeletesFinished(Published(old(disk), old(disk).saved).(pending := old(disk).pending && !settle))
      ensures !ok ==> PublishFailed(old(disk), old(disk).saved, fault, disk)
    {
      ok := PublishUnlocked(disk.saved, fault);
      if ok {
        if settle {
          SettleSettings();
        }
        forall n | n in PendingRows(disk.rows) ensures !Lists(disk.live, PkgOf(n, disk.rows[n])) {
          CurrentListsNoPending(disk.live, disk.rows, disk.saved, n);
        }
        FinishPendingDeletes();
      }
    }

    method Publish(fault: Fault) returns (ok: bool)
      requires Linked()
      modifies this
      ensures Kept() && (ok <==> !Strikes(fault, old(disk)))
      ensures ok ==> disk == DeletesFinished(Published(old(disk), old(disk).saved))
      ensures !ok ==> PublishFailed(old(disk), old(disk).saved, fault, disk)
    {
      ok := PublishAndFinish(fault, false);
    }

    /** retry_pending_publish. */
    method RetryPendingPublish(fault: Fault) returns (result: Option<bool>)
      requires Linked()
      modifies this
      ensures Kept()
      ensures result == None <==> !old(disk).dirty && !old(disk).pending
      ensures result == None ==> disk == old(disk)
      ensures result.Some? ==> (result.value <==> !Strikes(fault, old(disk)))
      ensures result.Some? && result.value ==>
                disk == DeletesFinished(Published(old(disk), old(disk).saved).(pending := false))
      ensures result.Some? && !result.value ==> PublishFailed(old(disk), old(disk).saved, fault, disk)
    {
      if !disk.dirty && !disk.pending {
        return None;
      }
      var ok := PublishAndFinish(fault, true);
      return Some(ok);
    }

    // ----- settings ------------------------------------------------------------------------

    /** The transaction that saves the candidate and clears the pending mark. */
    method SaveSettings(candidate: Config)
      requires Linked() && Current(disk.live, disk.rows, candidate)
      modifies this
      ensures KeptIf(Allows(mode, candidate)) && disk == old(disk).(saved := candidate, pending := false)
    {
      Write(disk.(saved := candidate, pending := false));
    }

    method RollBackSettings(recovery: Fault)
      requires Linked()
      modifies this
      ensures Kept()
      ensures SettingsRolledBack(old(disk), recovery, disk)
    {
      var ok := PublishUnlocked(disk.saved, recovery);
      if ok {
        SettleSettings();
      }
    }

    /** From here on a startup will publish before anything else. */
    method AwaitSettings()
      requires Linked()
      modifies this
      ensures Kept() && disk == old(disk).(pending := true)
    {
      Write(disk.(pending := true));
    }

    /** Marks the change as pending, publishes under the candidate and saves it. */
    method TrySettings(candidate: Config, fault: Fault, saveFails: bool) returns (ok: bool)
      requires Linked()
      modifies this
      ensures KeptIf(Allows(mode, candidate))
      ensures ok <==> !Strikes(fault, old(disk)) && !saveFails
      ensures ok ==> disk == Published(old(disk), candidate).(saved := candidate, pending := false)
      ensures !ok ==> SettingsTried(old(disk), candidate, fault, disk)
    {
      AwaitSettings();
      ok := PublishUnlocked(candidate, fault);
      if ok && saveFails {
        ok := false;
      } else if ok {
        SaveSettings(candidate);
      }
    }

    /** The worker of settings_post.  Either the candidate is saved and published, or the saved
        settings are what they were and are published or pending; tried is the state in between. */
    method SettingsPost(candidate: Config, fault: Fault, saveFails: bool, recovery: Fault)
      returns (error: bool, ghost tried: Disk)
      requires Linked()
      modifies this
      ensures KeptIf(Allows(mode, candidate))
      ensures candidate == old(disk).saved ==> !error && disk == old(disk)
      ensures candidate != old(disk).saved ==> (error <==> Strikes(fault, old(disk)) || saveFails)
      ensures candidate != old(disk).saved && !error ==>
                disk == Published(old(disk), candidate).(saved := candidate, pending := false)
      ensures error ==> SettingsTried(old(disk), candidate, fault, tried) && SettingsRolledBack(tried, recovery, disk)
    {
      tried := disk;
      if candidate == disk.saved {
        return false, tried;
      }
      var ok := TrySettings(candidate, fault, saveFails);
      tried := disk;
      if !ok {
        RollBackSettings(recovery);
      }
      error := !ok;
    }

    // ----- startup -------------------------------------------------------------------------

    /** Sets the flag, then moves the blob to the quarantine. */
    method MoveAside(f: File)
      requires Linked() && f in Orphans(disk)
      modifies this
      ensures Linked() && journal == old(journal) + [old(disk).(dirty := true), disk]
      ensures disk == old(disk).(pool := old(disk).pool - {f}, dirty := true,
                                 quarantine := old(disk).quarantine + {(f, old(disk).pool[f])})
      ensures Safe() <==> old(Safe()) && !ListsFile(old(disk).live, f)
      ensures old(Steady()) ==> Steady()
      ensures old(TraceDangles(journal)) ==> TraceDangles(journal)
      ensures old(Safe()) && !Safe() ==> TraceDangles(journal)
    {
      if Sound(mode, disk) {
        OrphanKeepsSound(mode, disk.(dirty := true), f);
      }
      WriteMinor(disk.(dirty := true));
      Write(disk.(pool := disk.pool - {f}, quarantine := disk.quarantine + {(f, disk.pool[f])}));
    }

    /** quarantine_orphaned_blobs: the flag first, then the rename, blob by blob. */
    method QuarantineOrphans()
      requires Linked()
      modifies this
      ensures Linked() && old(journal) <= journal && disk == OrphansQuarantined(old(disk))
      ensures Safe() <==> old(Safe()) && !OrphanListed(old(disk), Orphans(old(disk)))
      ensures old(Steady()) ==> Steady()
      ensures old(TraceDangles(journal)) ==> TraceDangles(journal)
      ensures old(Safe()) && !Safe() ==> TraceDangles(journal)
    {
      ghost var d0 := disk;
      var todo := Orphans(disk);
      ghost var done: set<File> := {};
      while todo != {}
        invariant todo !! done && todo + done == Orphans(d0)
        invariant Linked() && old(journal) <= journal
        invariant disk == MovedAside(d0, done)
        invariant Safe() <==> old(Safe()) && !OrphanListed(d0, done)
        invariant old(Steady()) ==> Steady()
        invariant old(TraceDangles(journal)) ==> TraceDangles(journal)
        invariant old(Safe()) && !Safe() ==> TraceDangles(journal)
      {
        var f :| f in todo;
        MovedAsideStep(d0, done, f);
        MoveAside(f);
        todo := todo - {f};
        done := done + {f};
      }
      assert done == Orphans(d0);
    }

    /** startup_reconcile up to the point where it finishes deletes. */
    method PrepareReconcile()
      requires Linked()
      modifies this
      ensures Linked() && old(journal) <= journal && disk == Prepared(old(disk))
      ensures Safe() <==> old(Safe()) && !OrphanListed(old(disk), Orphans(old(disk)))
      ensures old(Steady()) ==> Steady()
      ensures old(TraceDangles(journal)) ==> TraceDangles(journal)
      ensures old(Safe()) && !Safe() ==> TraceDangles(journal)
    {
      QuarantineOrphans();
      if disk.next != Absent {
        DeleteNext(false);
      }
      QuarantineMissing();
    }

    /** The last step of startup_reconcile. */
    method Republish(fault: Fault) returns (ok: bool)
      requires Linked()
      modifies this
      ensures Kept()
      ensures ok <==> (HasHistory(old(disk).live) && Clean(old(disk))) || !Strikes(fault, old(disk))
      ensures ok ==> disk == Republished(old(disk))
      ensures !ok ==> PublishFailed(old(disk), old(disk).saved, fault, disk)
    {
      if HasHistory(disk.live) && Clean(disk) {
        return true;
      }
      ok := PublishUnlocked(disk.saved, fault);
    }

    /** startup_reconcile. */
    method StartupReconcile(fault: Fault) returns (ok: bool)
      requires Linked()
      modifies this
      ensures Linked() && old(journal) <= journal
      ensures var e := DeletesFinished(Prepared(old(disk)));
              && (ok <==> (HasHistory(e.live) && Clean(e)) || !Strikes(fault, e))
              && (if ok then disk == Republished(e) else PublishFailed(e, e.saved, fault, disk))
      ensures Safe() <==>
                old(Safe()) && !OrphanListed(old(disk), Orphans(old(disk))) && !DeletesListed(Prepared(old(disk)))
      ensures old(Steady()) ==> Steady()
      ensures old(TraceDangles(journal)) || DeletesExposed(Prepared(old(disk))) ==> TraceDangles(journal)
      ensures old(Safe()) && OrphanListed(old(disk), Orphans(old(disk))) ==> TraceDangles(journal)
    {
      PrepareReconcile();
      FinishPendingDeletes();
      ok := Republish(fault);
    }

    /** The startup sequence of the application.  From a state that keeps the invariant it goes
        wrong exactly when that state is exposed. */
    method Startup(recovery: Fault, fault: Fault) returns (up: bool)
      requires Linked()
      modifies this
      ensures Linked() && old(journal) <= journal
      ensures old(Safe()) ==> (Safe() <==> !Exposed(old(disk)))
      ensures old(Steady()) ==> Steady()
      ensures old(TraceDangles(journal)) ==> TraceDangles(journal)
      ensures (!old(disk).pending && DeleteExposed(old(disk)) && PendingExposed(old(disk), PendingRows(old(disk).rows)))
                ==> TraceDangles(journal)
      ensures old(Safe()) && !old(disk).pending && OrphanListed(old(disk), Orphans(old(disk))) ==> TraceDangles(journal)
      ensures old(disk).pending && Strikes(recovery, old(disk)) ==>
                !up && PublishFailed(old(disk), old(disk).saved, recovery, disk)
      ensures !(old(disk).pending && Strikes(recovery, old(disk))) ==>
                StartedUp(old(disk), fault, disk) && (up <==> !StartupFails(old(disk), fault) || !Propagates(fault))
    {
      if disk.pending {
        up := PublishUnlocked(disk.saved, recovery);
        if !up {
          return;
        }
        SettleSettings();
        PreparedListsNoPending(disk);
      } else {
        PreparedExposure(disk);
      }
      up := StartupReconcile(fault);
      up := up || !Propagates(fault);
    }
  }

  function MarkedForDelete(d: Disk, n: Nva): Disk
    requires n in d.rows
  {
    d.(rows := d.rows[n := d.rows[n].(state := PendingDelete)])
  }

  /** After a delete the package is gone, what is live is the index without it, and every other row
      and blob is what a publish would have made of it. */
  lemma DeletedIsGone(d: Disk, n: Nva)
    requires RowsNamed(d.rows) && n in d.rows
    ensures var a := Dropped(Published(MarkedForDelete(d, n), d.saved), n);
            && n !in a.rows && d.rows[n].file !in a.pool
            && Clean(a) && Current(a.live, a.rows, a.saved)
            && (forall m :: m in d.rows && m != n ==>
                  && m in a.rows && a.rows[m] == MarkMissing(d.rows, d.pool)[m]
                  && (d.rows[m].file in d.pool ==>
                        d.rows[m].file in a.pool && a.pool[d.rows[m].file] == d.pool[d.rows[m].file]))
  {
    var p := Published(MarkedForDelete(d, n), d.saved);
    InactiveDoNotCount(p.rows, n);
    forall m | m in d.rows && m != n ensures d.rows[m].file != d.rows[n].file {
      if d.rows[m].file == d.rows[n].file {
        FilesAreUnique(d, m, n);
      }
    }
  }

  /** parse_deb computed the digest from this very incoming file. */
  predicate Parsed(d: Disk, item: Item) {
    item.path in d.incoming ==> d.incoming[item.path] == item.sha
  }

  /** The settings the mode allows. */
  predicate Allows(mode: Mode, cfg: Config) { mode.Fixed? ==> cfg.component == mode.component }

  /** What a settings change leaves that was not saved: the publish failed, or only saving did. */
  predicate SettingsTried(a: Disk, candidate: Config, fault: Fault, b: Disk) {
    var waiting := a.(pending := true);
    if Strikes(fault, a) then PublishFailed(waiting, candidate, fault, b) else b == Published(waiting, candidate)
  }

  /** ... and what publishing the saved settings again makes of that. */
  predicate SettingsRolledBack(a: Disk, recovery: Fault, b: Disk) {
    if Strikes(recovery, a) then PublishFailed(a, a.saved, recovery, b)
    else b == Published(a, a.saved).(pending := false)
  }

  /** The state in which the last step of a startup decides whether to publish. */
  function BeforeRepublish(d: Disk): Disk { DeletesFinished(Prepared(SettingsRecovered(d))) }

  /** The last publish of a startup takes place and fails. */
  predicate StartupFails(d: Disk, fault: Fault) {
    var e := BeforeRepublish(d);
    !(HasHistory(e.live) && Clean(e)) && Strikes(fault, e)
  }

  /** What a startup makes of d, unless publishing pending settings failed. */
  predicate StartedUp(d: Disk, fault: Fault, b: Disk) {
    if StartupFails(d, fault) then PublishFailed(BeforeRepublish(d), d.saved, fault, b) else b == AfterStartup(d)
  }

  lemma PublishOnlyMarks(a: Disk, cfg: Config, fault: Fault, b: Disk)
    requires PublishFailed(a, cfg, fault, b)
    ensures MarksOnly(a.rows, a.pool, b.rows)
  {}

  /** A settings change that is not saved takes no row away and no blob. */
  lemma FailedSettingsKeep(a: Disk, candidate: Config, fault: Fault, recovery: Fault, mid: Disk, b: Disk)
    requires SettingsTried(a, candidate, fault, mid) && SettingsRolledBack(mid, recovery, b)
    ensures b.saved == a.saved && b.pool == a.pool && b.incoming == a.incoming && b.quarantine == a.quarantine
  {}

  /** ... and only marks rows. */
  lemma FailedSettingsMark(a: Disk, candidate: Config, fault: Fault, recovery: Fault, mid: Disk, b: Disk)
    requires SettingsTried(a, candidate, fault, mid) && SettingsRolledBack(mid, recovery, b)
    ensures MarksOnly(a.rows, a.pool, b.rows)
  {
    if Strikes(fault, a) {
      PublishOnlyMarks(a.(pending := true), candidate, fault, mid);
    }
    assert MarksOnly(a.rows, a.pool, mid.rows);
    if Strikes(recovery, mid) {
      PublishOnlyMarks(mid, mid.saved, recovery, b);
    }
    assert MarksOnly(mid.rows, a.pool, b.rows);
    MarksTwice(a.rows, a.pool, mid.rows);
  }

  /** Afterwards the change is still pending exactly if publishing the saved settings failed too, and
      otherwise they are live again. */
  lemma FailedSettingsSettle(a: Disk, candidate: Config, fault: Fault, recovery: Fault, mid: Disk, b: Disk)
    requires SettingsTried(a, candidate, fault, mid) && SettingsRolledBack(mid, recovery, b)
    ensures b.pending <==> Strikes(recovery, mid)
    ensures !b.pending ==> Clean(b) && Current(b.live, b.rows, a.saved)
  {}

  /** What the callers of upload_commit see to, and what the mode asks of the files: in a strict
      repository, that no listed row changes its file name. */
  predicate Fit(mode: Mode, d: Disk, cfg: Config, items: seq<Item>) {
    forall it :: it in items ==> Parsed(d, it) && Admits(mode, d, PoolFile(cfg.component, it.nva))
  }

  predicate DuplicateRow(d: Disk, item: Item) {
    item.nva in d.rows && (d.rows[item.nva].sha != item.sha || d.rows[item.nva].state == PendingDelete)
  }

  predicate DuplicateBlob(d: Disk, cfg: Config, item: Item) {
    var f := PoolFile(cfg.component, item.nva);
    || item.symlink
    || (f in d.pool && ((item.nva in d.rows && d.rows[item.nva].state == Active) || d.pool[f] != item.sha))
  }

  predicate Reaches(d: Disk, item: Item) {
    !DuplicateRow(d, item) && !item.fault.BeforeLink? && item.path in d.incoming
  }

  function Outcome(d: Disk, cfg: Config, item: Item): Placement {
    if DuplicateRow(d, item) then Duplicate
    else if !Reaches(d, item) then Raised
    else if DuplicateBlob(d, cfg, item) then Duplicate
    else if item.fault.AfterLink? then Raised
    else Placed(item.nva in d.rows, PoolFile(cfg.component, item.nva))
  }

  function PlacedDisk(d: Disk, cfg: Config, item: Item): Disk
    requires item.path in d.incoming
  {
    var f := PoolFile(cfg.component, item.nva);
    d.(rows := d.rows[item.nva := Row(f, item.sha, Active)], dirty := true,
       pool := if f in d.pool then d.pool else d.pool[f := d.incoming[item.path]],
       lost := if f in d.pool then d.lost else d.lost - {f})
  }

  /** The incoming file is gone either way; nothing else is, unless the item was placed. */
  function AfterPlace(d: Disk, cfg: Config, item: Item): Disk {
    (if Outcome(d, cfg, item).Placed? then PlacedDisk(d, cfg, item) else d).(incoming := d.incoming - {item.path})
  }

  /** A placed package has an active row, a blob with its digest, and the repository is dirty. */
  lemma PlacedIsRegistered(d: Disk, cfg: Config, item: Item)
    requires Parsed(d, item) && Outcome(d, cfg, item).Placed?
    ensures var a, f := AfterPlace(d, cfg, item), PoolFile(cfg.component, item.nva);
            && item.nva in a.rows && a.rows[item.nva] == Row(f, item.sha, Active)
            && f in a.pool && a.pool[f] == item.sha && a.dirty
            && (forall g :: g in d.pool ==> g in a.pool && a.pool[g] == d.pool[g])
  {}

  /** Placing items one after the other, up to an exception. */
  function AfterAll(d: Disk, cfg: Config, items: seq<Item>): (Disk, seq<Placement>) {
    if items == [] then (d, [])
    else
      var before := AfterAll(d, cfg, items[..|items| - 1]);
      var last := items[|items| - 1];
      if exists r :: r in before.1 && r.Raised? then before
      else (AfterPlace(before.0, cfg, last), before.1 + [Outcome(before.0, cfg, last)])
  }

  lemma AfterAllStep(d: Disk, cfg: Config, items: seq<Item>, i: nat)
    requires i < |items| && forall r :: r in AfterAll(d, cfg, items[..i]).1 ==> !r.Raised?
    ensures var before := AfterAll(d, cfg, items[..i]);
            AfterAll(d, cfg, items[..i + 1]) ==
            (AfterPlace(before.0, cfg, items[i]), before.1 + [Outcome(before.0, cfg, items[i])])
  {
    assert items[..i + 1][..i] == items[..i];
  }

  lemma {:induction false} AfterAllStops(d: Disk, cfg: Config, items: seq<Item>, i: nat)
    requires i <= |items| && exists r :: r in AfterAll(d, cfg, items[..i]).1 && r.Raised?
    ensures AfterAll(d, cfg, items) == AfterAll(d, cfg, items[..i])
    decreases |items| - i
  {
    if i == |items| {
      assert items[..i] == items;
    } else {
      assert items[..i + 1][..i] == items[..i];
      AfterAllStops(d, cfg, items, i + 1);
    }
  }

  /** What placing items leaves alone and what it sees to. */
  lemma {:induction false} AfterAllFacts(d: Disk, cfg: Config, items: seq<Item>)
    ensures var (a, results) := AfterAll(d, cfg, items);
            && a == d.(rows := a.rows, pool := a.pool, lost := a.lost, dirty := a.dirty, incoming := a.incoming)
            && a.incoming.Keys <= d.incoming.Keys
            && |results| <= |items|
            && (|results| < |items| ==> exists r :: r in results && r.Raised?)
            && (forall i :: 0 <= i < |results| ==> items[i].path !in a.incoming)
            && ((exists r :: r in results && r.Placed?) ==> a.dirty)
  {
    if items != [] {
      AfterAllFacts(d, cfg, items[..|items| - 1]);
    }
  }

  lemma PlaceKeepsDigests(d: Disk, cfg: Config, item: Item)
    ensures var a := AfterPlace(d, cfg, item);
            && (forall n :: n in d.rows ==> n in a.rows && a.rows[n].sha == d.rows[n].sha)
            && (Outcome(d, cfg, item).Placed? ==> item.nva in a.rows && a.rows[item.nva].sha == item.sha)
  {}

  /** A registered package keeps its digest, and what was placed is registered. */
  lemma {:induction false} PlacedStayRegistered(d: Disk, cfg: Config, items: seq<Item>)
    ensures var (a, results) := AfterAll(d, cfg, items);
            && |results| <= |items|
            && (forall n :: n in d.rows ==> n in a.rows && a.rows[n].sha == d.rows[n].sha)
            && (forall i :: 0 <= i < |results| && results[i].Placed? ==>
                  items[i].nva in a.rows && a.rows[items[i].nva].sha == items[i].sha)
  {
    if items != [] {
      var front, last := items[..|items| - 1], items[|items| - 1];
      AfterAllFacts(d, cfg, front);
      PlacedStayRegistered(d, cfg, front);
      PlaceKeepsDigests(AfterAll(d, cfg, front).0, cfg, last);
    }
  }

  /** Placing one item leaves the others as fit as they were. */
  lemma FitStays(mode: Mode, d: Disk, cfg: Config, items: seq<Item>, i: nat)
    requires i < |items|
    ensures Fit(mode, d, cfg, items) ==> Fit(mode, AfterPlace(d, cfg, items[i]), cfg, items)
  {}

  // ----- faults of a publish ---------------------------------------------------------------

  /** The active rows whose blob is gone. */
  function GoneRows(rows: map<Nva, Row>, pool: map<File, Digest>): set<Nva> {
    set n | n in rows && rows[n].state == Active && rows[n].file !in pool
  }

  lemma GoneMeansMarked(d: Disk)
    ensures GoneRows(d.rows, d.pool) == {} <==> MarkMissing(d.rows, d.pool) == d.rows
  {
    if n :| n in GoneRows(d.rows, d.pool) {
      assert MarkMissing(d.rows, d.pool)[n] != d.rows[n];
    } else {
      assert forall n :: n in d.rows ==> n !in GoneRows(d.rows, d.pool);
    }
  }

  /** Rows change only by being marked as missing, and only those whose blob is gone. */
  predicate MarksOnly(rows: map<Nva, Row>, pool: map<File, Digest>, after: map<Nva, Row>) {
    && after.Keys == rows.Keys
    && forall n :: n in after ==> after[n] == rows[n] || after[n] == Marked(rows[n], pool)
  }

  /** ... and not this one. */
  predicate MarksSpare(rows: map<Nva, Row>, pool: map<File, Digest>, n: Nva, after: map<Nva, Row>) {
    MarksOnly(rows, pool, after) && n in rows && after[n] == rows[n]
  }

  lemma MarksTwice(rows: map<Nva, Row>, pool: map<File, Digest>, mid: map<Nva, Row>)
    requires MarksOnly(rows, pool, mid)
    ensures forall after :: MarksOnly(mid, pool, after) ==> MarksOnly(rows, pool, after)
  {}

  lemma MarkMissingTwice(d: Disk)
    ensures MarkMissing(MarkMissing(d.rows, d.pool), d.pool) == MarkMissing(d.rows, d.pool)
  {}

  /** Whether a fault point is reached at all: there may be no row to mark and no old tree to clear
      or clean up. */
  predicate Strikes(fault: Fault, d: Disk) {
    match fault.at
    case Nowhere => false
    case MarkRow(n) => n in GoneRows(d.rows, d.pool)
    case FlagMissing => GoneRows(d.rows, d.pool) != {}
    case ClearNext => d.next != Absent
    case Cleanup => d.live != Absent
    case _ => true
  }

  /** Of these, the ones while rows are marked, and the ones after. */
  predicate FaultWhileMarking(at: Point, d: Disk) {
    match at
    case MarkRow(n) => n in GoneRows(d.rows, d.pool)
    case FlagMissing => GoneRows(d.rows, d.pool) != {}
    case _ => false
  }

  predicate LateFault(at: Point, d: Disk) {
    match at
    case ClearNext => d.next != Absent
    case Cleanup => d.live != Absent
    case Build | Move | Exchange | Record | ClearFlag => true
    case _ => false
  }

  /** A point before the exchange. */
  predicate EarlyPoint(at: Point) { !at.Cleanup? && !at.Record? && !at.ClearFlag? }

  /** The fault strikes before the exchange, so the live tree is not touched. */
  predicate StrikesEarly(fault: Fault, d: Disk) { Strikes(fault, d) && EarlyPoint(fault.at) }

  /** publish_unlocked does not return a failed result but raises. */
  predicate Propagates(fault: Fault) { fault.at.Begin? || !fault.ending.Recorded? }

  /** The rows a publish leaves behind. */
  predicate RowsAfter(rows: map<Nva, Row>, pool: map<File, Digest>, at: Point, after: map<Nva, Row>) {
    if at.Begin? || at.NoKey? then after == rows
    else if at.MarkRow? && at.n in GoneRows(rows, pool) then MarksSpare(rows, pool, at.n, after)
    else after == MarkMissing(rows, pool)
  }

  /** What a publish that raised leaves behind: live is the old tree or the complete new one, and if
      the except block got through, the flag and the failed run. */
  predicate PublishFailed(a: Disk, cfg: Config, fault: Fault, b: Disk) {
    if fault.at.Begin? then b == a
    else
      && b == a.(rows := b.rows, live := b.live, next := b.next, dirty := b.dirty, runs := a.runs + 1, last := b.last)
      && RowsAfter(a.rows, a.pool, fault.at, b.rows)
      && b.live == (if StrikesEarly(fault, a) then a.live else Complete(Rebuild(cfg, ActivePkgs(b.rows))))
      && (a.dirty || fault.ending.Recorded? ==> b.dirty)
      && (b.last == Failed <==> !fault.ending.NotRecorded?)
      && (b.last == Success ==> fault.at.ClearFlag?)
  }

  /** Whatever ends up at dists.next, putting a complete rebuild in place keeps the invariant. */
  lemma SwapKeepsSound(mode: Mode, d: Disk, cfg: Config)
    requires Sound(mode, d) && d.next == Complete(Rebuild(cfg, ActivePkgs(d.rows)))
    requires cfg == d.saved || d.pending
    requires forall n :: n in d.rows && d.rows[n].state == Active ==> d.rows[n].file in d.pool
    ensures forall left :: Sound(mode, d.(live := d.next, next := left)) && Step(d, d.(live := d.next, next := left))
  {
    forall p | Lists(d.next, p)
      ensures p.nva in d.rows && PkgOf(p.nva, d.rows[p.nva]) == p && p.file in d.pool
    {
      RebuildLists(cfg, d.rows, p);
    }
    assert ListedAreRows(d.next, d.rows);
    assert ListedAreBacked(d.next, d.pool, d.lost);
  }
}
