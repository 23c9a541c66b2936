/** The durable state of the repository, what must hold of it, and what one durable write may
    change.  A blob is represented by its SHA256 digest. */
module RepositoryState {
  import opened Basics
  import opened PoolPath

  type Digest = string

  datatype PackageState = Active | PendingDelete | Missing

  /** A file in the pool.  PoolPath.PoolRelativeInjective is why a pool path can be represented by
      the component and package it is built from. */
  datatype File = PoolFile(component: string, nva: Nva) | Stray(path: string)

  /** The path of a file, relative to repo/. */
  function FileText(f: File): string
    requires f.PoolFile? ==> f.nva.name != []
  {
    match f
    case PoolFile(component, nva) => PoolRelative(component, nva)
    case Stray(path) => path
  }

  /** The representation loses nothing: distinct pool files of valid packages have distinct paths,
      and the path alone names the package. */
  lemma FileTextInjective(f: File, g: File)
    requires f.PoolFile? && g.PoolFile? && ValidNva(f.nva) && ValidNva(g.nva)
    ensures FileText(f) == FileText(g) <==> f == g
    ensures Owner(FileText(f)) == Some(f.nva)
  {
    if FileText(f) == FileText(g) {
      PoolRelativeInjective(f.component, f.nva, g.component, g.nva);
    }
    OwnerOfPoolRelative(f.component, f.nva);
  }

  /** A packages row; its key in the table is the (name, version, architecture) triple. */
  datatype Row = Row(file: File, sha: Digest, state: PackageState)

  /** One entry of a Packages index. */
  datatype Pkg = Pkg(nva: Nva, file: File, sha: Digest)

  /** The settings that shape the published metadata. */
  datatype Config = Config(suite: string, codename: string, component: string,
                           archs: seq<string>, origin: string, title: string)

  /** A signed dists tree: the settings it was rendered with, its index per architecture,
      and whether it carries the by-hash history file. */
  datatype Tree = Tree(cfg: Config, index: map<string, set<Pkg>>, history: bool)

  /** A directory name in repo/: not there, being deleted, or a whole tree. */
  datatype Slot = Absent | Partial | Complete(tree: Tree)

  datatype RunStatus = NeverRun | Running | Success | Failed

  /** Everything that survives the process.  Of the log of publish runs only its length and the
      status of the newest run are kept: the program reads no other, and changes no other.  `lost`
      is bookkeeping the program never reads: the paths removed from outside and not recreated
      since. */
  datatype Disk = Disk(
    rows: map<Nva, Row>, pool: map<File, Digest>, live: Slot, next: Slot,
    dirty: bool, pending: bool, runs: nat, last: RunStatus, saved: Config,
    incoming: map<string, Digest>, quarantine: set<(File, Digest)>, lost: set<File>)

  // ----- indexes ---------------------------------------------------------------------------

  predicate Belongs(arch: string, index: string) { arch == index || arch == "all" }

  /** rebuild_dists: the tree for a set of active packages. */
  function Rebuild(cfg: Config, pkgs: set<Pkg>): Tree {
    Tree(cfg, map a | a in cfg.archs :: set p | p in pkgs && Belongs(p.nva.arch, a), true)
  }

  predicate Lists(slot: Slot, p: Pkg) {
    slot.Complete? && exists a :: a in slot.tree.index && p in slot.tree.index[a]
  }

  function PkgOf(n: Nva, r: Row): Pkg { Pkg(n, r.file, r.sha) }

  function ActivePkgs(rows: map<Nva, Row>): set<Pkg> {
    set n | n in rows && rows[n].state == Active :: PkgOf(n, rows[n])
  }

  lemma ActiveMember(rows: map<Nva, Row>, p: Pkg)
    ensures p in ActivePkgs(rows) <==>
            p.nva in rows && rows[p.nva].state == Active && PkgOf(p.nva, rows[p.nva]) == p
  {}

  /** A rebuild lists exactly the active rows that some configured index takes in. */
  lemma RebuildLists(cfg: Config, rows: map<Nva, Row>, p: Pkg)
    ensures Lists(Complete(Rebuild(cfg, ActivePkgs(rows))), p) <==>
            && p.nva in rows && rows[p.nva].state == Active && PkgOf(p.nva, rows[p.nva]) == p
            && exists a :: a in cfg.archs && Belongs(p.nva.arch, a)
  {
    var t := Rebuild(cfg, ActivePkgs(rows));
    if a :| a in cfg.archs && Belongs(p.nva.arch, a) && p in ActivePkgs(rows) {
      assert a in t.index && p in t.index[a];
    }
  }

  predicate Clean(d: Disk) { !d.dirty && d.last == Success }

  /** The live index is the rebuild of exactly the active rows under cfg. */
  predicate Current(live: Slot, rows: map<Nva, Row>, cfg: Config) {
    && live.Complete?
    && live.tree.cfg == cfg
    && live.tree.index == Rebuild(cfg, ActivePkgs(rows)).index
  }

  // ----- what must hold at every moment ----------------------------------------------------

  /** Every Filename in the live index has a pool blob with the listed SHA256, except for files
      somebody removed from outside. */
  ghost predicate NoDangling(d: Disk) {
    forall p :: Lists(d.live, p) ==> (p.file in d.pool && d.pool[p.file] == p.sha) || p.file in d.lost
  }

  ghost predicate RowsNamed(rows: map<Nva, Row>) {
    forall n :: n in rows ==> rows[n].file.PoolFile? && rows[n].file.nva == n
  }

  ghost predicate BlobsMatch(rows: map<Nva, Row>, pool: map<File, Digest>) {
    forall n :: n in rows && rows[n].file in pool ==> pool[rows[n].file] == rows[n].sha
  }

  /** Every live entry is a row exactly as it is. */
  ghost predicate ListedAreRows(live: Slot, rows: map<Nva, Row>) {
    forall p :: Lists(live, p) ==> p.nva in rows && PkgOf(p.nva, rows[p.nva]) == p
  }

  /** Every live entry has a row with its digest, but the row may have moved to another file since. */
  ghost predicate ListedAreKnown(live: Slot, rows: map<Nva, Row>, pool: map<File, Digest>) {
    forall p :: Lists(live, p) ==>
      && p.nva in rows && rows[p.nva].sha == p.sha
      && p.file.PoolFile? && p.file.nva == p.nva
      && (p.file in pool ==> pool[p.file] == p.sha)
  }

  ghost predicate ListedAreBacked(live: Slot, pool: map<File, Digest>, lost: set<File>) {
    forall p :: Lists(live, p) ==> p.file in pool || p.file in lost
  }

  ghost predicate ActiveAreBacked(rows: map<Nva, Row>, pool: map<File, Digest>, lost: set<File>) {
    forall n :: n in rows && rows[n].state == Active ==> rows[n].file in pool || rows[n].file in lost
  }

  ghost predicate SettingsAgree(d: Disk) {
    !d.pending && d.live.Complete? ==> d.live.tree.cfg == d.saved
  }

  /** How much is asked of a repository.  A strict one never leaves a live entry behind by moving its
      row; a fixed one never changes its component, so no row ever moves. */
  datatype Mode = Loose | Strict | Fixed(component: string)

  /** Every row has its file under the component that is saved, and that is this one. */
  ghost predicate OneComponent(d: Disk, component: string) {
    && d.saved.component == component
    && forall n :: n in d.rows ==> d.rows[n].file.PoolFile? && d.rows[n].file.component == component
  }

  /** The inductive invariant behind NoDangling.  Whatever the mode, a clean repository has left no
      live entry behind. */
  ghost predicate Sound(mode: Mode, d: Disk) {
    && RowsNamed(d.rows) && BlobsMatch(d.rows, d.pool)
    && ListedAreKnown(d.live, d.rows, d.pool) && ListedAreBacked(d.live, d.pool, d.lost)
    && (!mode.Loose? || Clean(d) ==> ListedAreRows(d.live, d.rows))
    && (mode.Fixed? ==> OneComponent(d, mode.component))
    && ActiveAreBacked(d.rows, d.pool, d.lost)
    && SettingsAgree(d)
    && d.live != Partial
    && d.lost !! d.pool.Keys
  }

  lemma SoundMeansNoDangling(mode: Mode, d: Disk)
    requires Sound(mode, d)
    ensures NoDangling(d)
  {}

  /** UNIQUE(filename) of the packages table needs no check of its own. */
  lemma FilesAreUnique(d: Disk, m: Nva, n: Nva)
    requires RowsNamed(d.rows) && m in d.rows && n in d.rows && d.rows[m].file == d.rows[n].file
    ensures m == n
  {}

  /** readyz tells the truth: what it reports ready is the rebuild of the active rows. */
  predicate Ready(d: Disk) {
    Clean(d) && !d.pending ==> Current(d.live, d.rows, d.saved)
  }

  // ----- what one durable write may change -------------------------------------------------

  ghost predicate LiveStep(a: Disk, b: Disk) {
    || b.live == a.live
    || (b.live.Complete? && b.live == a.next && b.live.tree == Rebuild(b.live.tree.cfg, ActivePkgs(a.rows)))
  }

  ghost predicate PoolStep(a: Disk, b: Disk) {
    forall f :: f in a.pool && f in b.pool ==> a.pool[f] == b.pool[f]
  }

  ghost predicate RowStep(a: Disk, b: Disk) {
    forall n :: n in a.rows && n in b.rows ==>
      && a.rows[n].sha == b.rows[n].sha
      && (a.rows[n].state == PendingDelete ==> b.rows[n] == a.rows[n])
  }

  ghost predicate Step(a: Disk, b: Disk) { LiveStep(a, b) && PoolStep(a, b) && RowStep(a, b) }

  /** The write only marks rows or sets the dirty flag: the source marks first and sets the flag
      in a second commit. */
  predicate Marking(a: Disk, b: Disk) { b == a.(rows := b.rows, dirty := b.dirty) && (a.dirty ==> b.dirty) }

  /** Bookkeeping writes, which Sound does not look at. */
  predicate Minor(a: Disk, b: Disk) {
    b == a.(next := b.next, dirty := b.dirty, runs := b.runs, last := b.last, incoming := b.incoming,
            quarantine := b.quarantine)
  }

  /** Bookkeeping that cannot turn an unready repository into a ready one. */
  predicate Quiet(a: Disk, b: Disk) {
    && Minor(a, b)
    && (b.dirty || b.last != Success || (b.dirty == a.dirty && b.last == a.last))
  }

  lemma MinorKeepsSound(mode: Mode, a: Disk, b: Disk)
    requires Minor(a, b)
    ensures Sound(mode, a) && (Quiet(a, b) || ListedAreRows(a.live, a.rows)) ==> Sound(mode, b) && Step(a, b)
    ensures Ready(a) && Quiet(a, b) ==> Ready(b)
    ensures NoDangling(a) ==> NoDangling(b)
  {}

  /** Marking rows, without reviving any, cannot break the invariant. */
  lemma MarksKeepSound(mode: Mode, a: Disk, b: Disk)
    requires Sound(mode, a) && Marking(a, b) && b.rows.Keys == a.rows.Keys
    requires forall n :: n in a.rows ==>
      || b.rows[n] == a.rows[n]
      || (a.rows[n].state != PendingDelete && b.rows[n].state != Active &&
          b.rows[n] == a.rows[n].(state := b.rows[n].state))
    ensures Sound(mode, b) && Step(a, b)
  {
    assert forall n :: n in b.rows ==> b.rows[n].file == a.rows[n].file && b.rows[n].sha == a.rows[n].sha;
    assert RowsNamed(b.rows) && BlobsMatch(b.rows, b.pool) && ActiveAreBacked(b.rows, b.pool, b.lost);
    assert ListedAreKnown(b.live, b.rows, b.pool);
  }

  // ----- placing a package -----------------------------------------------------------------

  /** Hard-linking a new blob keeps the invariant, and so does taking the link back. */
  lemma LinkKeepsSound(mode: Mode, d: Disk, f: File, sha: Digest)
    requires Sound(mode, d) && f.PoolFile? && f !in d.pool
    requires f.nva in d.rows ==> d.rows[f.nva].sha == sha
    ensures var l := d.(pool := d.pool[f := sha], lost := d.lost - {f});
            Sound(mode, l) && Step(d, l) && Step(l, d)
  {}

  /** The row keeps the file name the live index lists it under, if it is listed at all. */
  predicate Stays(d: Disk, f: File)
    requires f.PoolFile?
  {
    f.nva in d.rows && Lists(d.live, PkgOf(f.nva, d.rows[f.nva])) ==> d.rows[f.nva].file == f
  }

  /** What the mode asks of the file a package goes to. */
  predicate Admits(mode: Mode, d: Disk, f: File)
    requires f.PoolFile?
  {
    && (!mode.Loose? ==> Stays(d, f))
    && (mode.Fixed? ==> f.component == mode.component)
  }

  /** A repository with one component admits whatever goes there. */
  lemma FixedAdmits(d: Disk, component: string, f: File)
    requires Sound(Fixed(component), d) && f.PoolFile? && f.component == component
    ensures Admits(Fixed(component), d, f)
  {}

  /** Registering a blob keeps the invariant exactly when the mode admits its file: if the mode is
      strict, exactly when no listed row moves. */
  lemma RegisterKeepsSound(mode: Mode, d: Disk, f: File, sha: Digest)
    requires Sound(mode, d) && f.PoolFile? && f in d.pool && d.pool[f] == sha
    requires f.nva in d.rows ==> d.rows[f.nva].sha == sha && d.rows[f.nva].state != PendingDelete
    ensures var b := d.(rows := d.rows[f.nva := Row(f, sha, Active)], dirty := true);
            Step(d, b) && (Sound(mode, b) <==> Admits(mode, d, f))
  {
    var b := d.(rows := d.rows[f.nva := Row(f, sha, Active)], dirty := true);
    assert RowsNamed(b.rows) && BlobsMatch(b.rows, b.pool) && ActiveAreBacked(b.rows, b.pool, b.lost);
    assert ListedAreKnown(b.live, b.rows, b.pool);
    assert b.rows[f.nva].file == f;
    if !Stays(d, f) {
      var p := PkgOf(f.nva, d.rows[f.nva]);
      assert Lists(b.live, p) && PkgOf(p.nva, b.rows[p.nva]) != p;
    }
  }

  // ----- what the operations leave behind --------------------------------------------------

  function Marked(r: Row, pool: map<File, Digest>): Row {
    if r.state == Active && r.file !in pool then r.(state := PackageState.Missing) else r
  }

  function MarkMissing(rows: map<Nva, Row>, pool: map<File, Digest>): map<Nva, Row> {
    map n | n in rows :: Marked(rows[n], pool)
  }

  /** A publish that met no fault. */
  function Published(d: Disk, cfg: Config): Disk {
    var rows := MarkMissing(d.rows, d.pool);
    d.(rows := rows, dirty := false, runs := d.runs + 1, last := Success,
       live := Complete(Rebuild(cfg, ActivePkgs(rows))), next := Absent)
  }

  /** MarkMissing with the rows in todo not looked at yet. */
  function MarkedExcept(rows: map<Nva, Row>, pool: map<File, Digest>, todo: set<Nva>): map<Nva, Row> {
    map n | n in rows :: if n in todo then rows[n] else Marked(rows[n], pool)
  }

  lemma MarkedExceptStep(rows: map<Nva, Row>, pool: map<File, Digest>, todo: set<Nva>, k: Nva)
    requires k in todo && k in rows && rows[k].state == Active
    ensures var m := MarkedExcept(rows, pool, todo);
            MarkedExcept(rows, pool, todo - {k}) ==
            if rows[k].file in pool then m else m[k := rows[k].(state := PackageState.Missing)]
  {}

  function Files(rows: map<Nva, Row>): set<File> { set n | n in rows :: rows[n].file }

  /** What rglob("*.deb") finds. */
  predicate IsDeb(f: File) { f.PoolFile? || EndsWith(f.path, ".deb") }

  /** Package files in the pool that no row names. */
  function Orphans(d: Disk): set<File> { set f | f in d.pool && f !in Files(d.rows) && IsDeb(f) }

  ghost predicate ListsFile(live: Slot, f: File) { exists p :: Lists(live, p) && p.file == f }

  /** The live index still needs a blob that no row names any more. */
  ghost predicate OrphanListed(d: Disk, files: set<File>) { exists f :: f in files && ListsFile(d.live, f) }

  function MovedAside(d: Disk, files: set<File>): Disk {
    d.(pool := d.pool - files,
       quarantine := d.quarantine + (set f | f in files && f in d.pool :: (f, d.pool[f])),
       dirty := d.dirty || files != {})
  }

  function OrphansQuarantined(d: Disk): Disk { MovedAside(d, Orphans(d)) }

  lemma MovedAsideStep(d: Disk, done: set<File>, f: File)
    requires f in d.pool && f !in done
    ensures var m := MovedAside(d, done);
            MovedAside(d, done + {f}) ==
            m.(pool := m.pool - {f}, quarantine := m.quarantine + {(f, m.pool[f])}, dirty := true)
  {}

  /** Moving an unregistered blob away keeps the invariant exactly when the live index does not
      list it, and otherwise leaves a dangling entry. */
  lemma OrphanKeepsSound(mode: Mode, d: Disk, f: File)
    requires Sound(mode, d) && f in Orphans(d)
    ensures var b := d.(pool := d.pool - {f}, quarantine := d.quarantine + {(f, d.pool[f])});
            && Step(d, b)
            && (Sound(mode, b) <==> !ListsFile(d.live, f))
            && (NoDangling(b) <==> !ListsFile(d.live, f))
  {
    var b := d.(pool := d.pool - {f}, quarantine := d.quarantine + {(f, d.pool[f])});
    assert forall n :: n in d.rows ==> d.rows[n].file in Files(d.rows);
    if ListsFile(d.live, f) {
      var p :| Lists(d.live, p) && p.file == f;
      assert Lists(b.live, p);
    }
  }

  /** While every live entry is a row as it is, the live index lists no unregistered blob. */
  lemma RowsCoverListed(d: Disk)
    requires ListedAreRows(d.live, d.rows)
    ensures !OrphanListed(d, Orphans(d))
  {
    forall p | Lists(d.live, p) ensures p.file in Files(d.rows) {
      assert d.rows[p.nva].file == p.file;
    }
  }

  function MissingQuarantined(d: Disk): Disk {
    var rows := MarkMissing(d.rows, d.pool);
    d.(rows := rows, dirty := d.dirty || rows != d.rows)
  }

  function PendingRows(rows: map<Nva, Row>): set<Nva> {
    set n | n in rows && rows[n].state == PendingDelete
  }

  function FilesOf(rows: map<Nva, Row>, names: set<Nva>): set<File> {
    set n | n in names && n in rows :: rows[n].file
  }

  function Without(d: Disk, names: set<Nva>): Disk {
    d.(rows := d.rows - names, pool := d.pool - FilesOf(d.rows, names))
  }

  /** Deleting one row and its blob. */
  function Dropped(d: Disk, n: Nva): Disk
    requires n in d.rows
  {
    d.(rows := d.rows - {n}, pool := d.pool - {d.rows[n].file})
  }

  lemma WithoutStep(d: Disk, done: set<Nva>, n: Nva)
    requires n in d.rows && n !in done
    ensures Dropped(Without(d, done), n) == Without(d, done + {n})
  {}

  /** A row that waits for deletion is in the live index. */
  predicate PendingListed(d: Disk, names: set<Nva>) {
    exists n :: n in names && n in d.rows && d.rows[n].state == PendingDelete && Lists(d.live, PkgOf(n, d.rows[n]))
  }

  /** ... and its blob has not been removed from outside. */
  predicate PendingExposed(d: Disk, names: set<Nva>) {
    exists n :: n in names && n in d.rows && d.rows[n].state == PendingDelete && Lists(d.live, PkgOf(n, d.rows[n])) &&
                d.rows[n].file !in d.lost
  }

  /** Unlinking the blob of an unlisted row keeps the invariant, and so does deleting the row. */
  lemma DropKeepsSound(mode: Mode, d: Disk, n: Nva)
    requires Sound(mode, d) && Clean(d) && n in d.rows && d.rows[n].state == PendingDelete
    requires !Lists(d.live, PkgOf(n, d.rows[n]))
    ensures var u := d.(pool := d.pool - {d.rows[n].file});
            Sound(mode, u) && Step(d, u) && Sound(mode, Dropped(d, n)) && Step(u, Dropped(d, n))
  {
    var u := d.(pool := d.pool - {d.rows[n].file});
    forall p | Lists(d.live, p) ensures p.nva != n && p.file != d.rows[n].file {
      assert p.nva in d.rows && PkgOf(p.nva, d.rows[p.nva]) == p;
    }
    assert ListedAreBacked(u.live, u.pool, u.lost);
    assert ActiveAreBacked(u.rows, u.pool, u.lost);
  }

  /** Deleting a listed row breaks it; unlinking its blob leaves a dangling entry. */
  lemma DropBreaksSound(mode: Mode, d: Disk, n: Nva)
    requires n in d.rows && Lists(d.live, PkgOf(n, d.rows[n]))
    ensures !Sound(mode, Dropped(d, n))
    ensures d.rows[n].file !in d.lost ==> !NoDangling(d.(pool := d.pool - {d.rows[n].file}))
  {
    var p := PkgOf(n, d.rows[n]);
    assert Lists(Dropped(d, n).live, p) && p.nva !in Dropped(d, n).rows;
    assert Lists(d.(pool := d.pool - {d.rows[n].file}).live, p);
  }

  /** A current live index lists rows as they are. */
  lemma CurrentListsRows(live: Slot, rows: map<Nva, Row>, cfg: Config)
    requires Current(live, rows, cfg)
    ensures ListedAreRows(live, rows)
  {
    forall p | Lists(live, p) ensures p.nva in rows && PkgOf(p.nva, rows[p.nva]) == p {
      RebuildLists(cfg, rows, p);
    }
  }

  /** After a publish no row that waits for deletion is listed any more. */
  lemma CurrentListsNoPending(live: Slot, rows: map<Nva, Row>, cfg: Config, n: Nva)
    requires Current(live, rows, cfg) && n in rows && rows[n].state != Active
    ensures !Lists(live, PkgOf(n, rows[n]))
  {}

  lemma InactiveDoNotCount(rows: map<Nva, Row>, n: Nva)
    requires n in rows && rows[n].state != Active
    ensures ActivePkgs(rows - {n}) == ActivePkgs(rows)
  {
    forall p ensures p in ActivePkgs(rows - {n}) <==> p in ActivePkgs(rows) {
      ActiveMember(rows, p);
      ActiveMember(rows - {n}, p);
    }
  }

  /** _finish_orphaned_pending_deletes. */
  function DeletesFinished(d: Disk): Disk { if Clean(d) then Without(d, PendingRows(d.rows)) else d }

  /** The part of startup_reconcile before it finishes deletes. */
  function Prepared(d: Disk): Disk { MissingQuarantined(OrphansQuarantined(d).(next := Absent)) }

  function HasHistory(s: Slot): bool { s.Complete? && s.tree.history }

  function Republished(d: Disk): Disk {
    if HasHistory(d.live) && Clean(d) then d else Published(d, d.saved)
  }

  /** startup_reconcile that met no fault. */
  function Reconciled(d: Disk): Disk { Republished(DeletesFinished(Prepared(d))) }

  function SettingsRecovered(d: Disk): Disk {
    if d.pending then Published(d, d.saved).(pending := false) else d
  }

  /** A whole startup that met no fault. */
  function AfterStartup(d: Disk): Disk { Reconciled(SettingsRecovered(d)) }

  // ----- when a startup is dangerous -------------------------------------------------------

  /** Finishing the deletes here would take a package out from under the live index. */
  predicate DeletesListed(d: Disk) { Clean(d) && PendingListed(d, PendingRows(d.rows)) }

  predicate DeletesExposed(d: Disk) { Clean(d) && PendingExposed(d, PendingRows(d.rows)) }

  /** A startup that begins here takes a listed blob away: one that no row names any more is moved
      to the quarantine, or a row is deleted, when the mark of delete_commit is there without its
      flag and nothing else will make startup publish first. */
  ghost predicate Exposed(d: Disk) { !d.pending && (OrphanListed(d, Orphans(d)) || DeleteExposed(d)) }

  predicate DeleteExposed(d: Disk) {
    Orphans(d) == {} && MarkMissing(d.rows, d.pool) == d.rows && DeletesListed(d)
  }

  lemma PreparedExposure(d: Disk)
    ensures DeleteExposed(d) <==> DeletesListed(Prepared(d))
    ensures DeleteExposed(d) ==> (DeletesExposed(d) <==> DeletesExposed(Prepared(d)))
  {
    var o := OrphansQuarantined(d);
    if Orphans(d) == {} {
      assert o.pool == d.pool;
      assert o == d;
    }
  }

  lemma PreparedListsNoPending(d: Disk)
    requires Current(d.live, d.rows, d.saved)
    ensures !DeletesListed(Prepared(d)) && !OrphanListed(d, Orphans(d))
  {
    var e := Prepared(d);
    forall n | n in e.rows && e.rows[n].state == PendingDelete ensures !Lists(e.live, PkgOf(n, e.rows[n])) {
      CurrentListsNoPending(d.live, d.rows, d.saved, n);
    }
    CurrentListsRows(d.live, d.rows, d.saved);
    RowsCoverListed(d);
  }

  // ----- an example ------------------------------------------------------------------------

  /** A freshly published repository with one package. */
  function OnePackage(n: Nva, component: string): Disk {
    var cfg := Config("stable", "stable", component, ["amd64"], "o", "t");
    var rows := map[n := Row(PoolFile("main", n), "d", Active)];
    Disk(rows, map[PoolFile("main", n) := "d"], Complete(Rebuild(cfg, ActivePkgs(rows))), Absent, false, false, 1,
         Success, cfg, map["i" := "d"], {}, {})
  }

  lemma OnePackageIsSound(n: Nva, component: string)
    requires n.arch == "all"
    ensures var d := OnePackage(n, component);
            && Sound(Strict, d) && Ready(d) && Orphans(d) == {} && Lists(d.live, PkgOf(n, d.rows[n]))
  {
    var d := OnePackage(n, component);
    var p := PkgOf(n, d.rows[n]);
    ActiveMember(d.rows, p);
    assert "amd64" in d.saved.archs && Belongs(n.arch, "amd64") by { assert d.saved.archs[0] == "amd64"; }
    RebuildLists(d.saved, d.rows, p);
    forall q | Lists(d.live, q) ensures q == p {
      RebuildLists(d.saved, d.rows, q);
    }
    assert PoolFile("main", n) in Files(d.rows) by { assert d.rows[n].file == PoolFile("main", n); }
    assert Orphans(d) == {};
  }
}
