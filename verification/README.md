# A verified model of prvaptmirror

prvaptmirror keeps a private APT repository: packages are uploaded or fetched from upstream sources,
placed in a pool, registered in a SQLite table, and published as a signed `dists` tree that is
exchanged into place. The program has to survive a crash between any two durable writes.

The project models that program and proves what it keeps:

- **The repository engine** (`RepositoryState`, `Engine`, `Runs`, `Recovery`). A `Disk` is everything
  that survives the process: rows, pool, live `dists`, `dists.next`, the dirty flag, the
  settings-pending flag, the log of publish runs, the saved settings. The class `Repository` holds one
  `Disk` and a journal. Every durable write goes through `Write`, which appends to the journal, so the
  journal lists the states a crash can leave behind. The operations are written as the source writes
  them, with faults where an exception can strike, also between two marks and inside the `except`
  block. The predicate `Sound` is the inductive invariant; `NoDangling` is what it is for: every file
  name in the live index has a pool blob with the listed digest. A strict repository also never leaves
  a live entry behind by moving its row, and a fixed one never changes its component; the three are
  proved together. `Ready` says that what `readyz` reports ready is the rebuild of exactly the active
  rows under the saved settings. `Runs.Run` takes any script of operations, faults and interruptions.
- **What it comes to** (`EndToEnd`): what an upload, a publish, a delete, a settings change, a startup
  and a restored backup leave for the clients of the repository, stated in rows, files and index entries
  (`EndToEnd.Serves`, `EndToEnd.Intact`) and in no function of the engine.
- **By-hash retention** (`ByHash`, `ByHashRuns`): `prepare_by_hash` over inodes and hard links, proved
  equal to one function on values, and what that function guarantees over any number of publishes.
- **Text and bytes** (`Text`, `ControlText`, `StanzaFile`, `PackagesFile`, `ArFraming`, `ArReader`,
  `PoolPath`, `DebIdentity`): the control parser against the Packages printer, the ar reader against an
  ar writer, the pool path against the directory file name parser.
- **Sources** (`Scheduler`, `Artifacts`): claiming, finishing, recovery, backoff and fairness; one batch
  of assets on top of the engine.
- **Backup, restore and locks** (`Backups`, `Extraction`, `Maintenance`, `Locks`): which members a backup
  writes for a directory tree, which archives are accepted and where their members land, restore as
  journalled writes to two directories, and the lock files under any interleaving of applications,
  publishes, backups and restores.
- **Settings and indexes** (`Settings`, `Indexes`): validation and persistence of the settings, which
  index lists which package.

Verify everything with `dafny verify dfyconfig.toml`.

## What turned out to be false, and exactly when

- `delete_commit` marks the row and sets the dirty flag in two commits
  (`prvaptmirror/publish.py:267-271`). `Runs.DeleteThenDie` lets the process die between them and
  start again. If the package's blob is in the pool, an entry dangles on the way exactly when `Runs.DeleteRisk` holds before the call
  (nothing pending, clean, no stray blob, every other active row backed, the package in the live
  index) or the startup was dangerous anyway. The index stays broken exactly when the delete was
  risky and the live tree has its history file, so that the startup does not publish, or when that
  publish fails before the exchange. `Runs.DeleteRiskHappens` gives a repository with one package;
  `Runs.OneCommitIsSafe` shows that one commit would do.
- Placing a listed package again after the component changed moves its row to another file
  (`prvaptmirror/storage.py:196-202`). Nothing dangles at that moment, but if the publish fails before
  the exchange, the next startup takes the old blob, which no row names any more, for an orphan and
  moves it to the quarantine while it is still listed. `Runs.UploadThenRestart` gives the exact
  condition for every safe and steady repository and every item parsed from its incoming file,
  `Runs.UploadRisk`, on the state before the upload and the point where the fault strikes: the upload goes in and leaves a listed blob to no row, or it
  does not go in and there is such a blob already. Where every live entry is a row as it is, the
  condition is `Runs.MoveRisk`, a move. The index stays broken exactly when the restart cannot publish
  either. `Runs.MoveRiskHappens` is an instance: the component changed, a listed package is uploaded
  again, signing fails. `Runs.SecondUploadHappens` continues it: uploading once more is refused as a
  duplicate, and the restart is as dangerous.
- `_quarantine_missing` has the gap of `delete_commit` too (`prvaptmirror/publish.py:72-82`). It needs
  a file removed from outside. After a crash between the marks and the flag, and a startup, readiness
  lies exactly in `Recovery.MarkGap`: nothing makes that startup publish, and a marked row is in the
  live index (`Recovery.MarksWithoutFlag`, an instance in `Recovery.MarksWithoutFlagHappens`).
- A control value survives printing and parsing if and only if no continuation line starts with a
  space (`ControlText.RereadValueIff`): a verbatim line (section 5.6.13 of Debian Policy) loses one
  space in `prvaptmirror/indexer.py:71-72`. `ControlText.VerbatimLineHappens` is a text whose parsed
  value does not survive.
- A publish can fail after the exchange, in the cleanup of the replaced tree or while recording the
  run. "A failed publish leaves live alone" is false; `Engine.PublishFailed` says which of the two
  trees is live for which fault.
- Saved settings do not always load: with `PRVAPT_INSECURE_NO_AUTH` in the environment and a public
  URL that is not loopback, loading raises. `Settings.LoadAfterSave` says that loading gives back what
  was saved if and only if the startup check accepts it there; `Settings.LoadRefused` is the failing
  case, `Settings.PublicSettingsExist` gives such settings.
- Without an architecture list a `.deb` name is read back if and only if the architecture is
  lower-case and has no underscore (`PoolPath.IdentityIff`, `PoolPath.MisreadHappens`). All three
  callers of `parse_deb` pass a list, so this concerns only a caller that omits it.
- Of the two lock files a restore links into the directory it prepares, exclusion rests on one:
  `Locks.ExclusionIff` proves that it holds in every run if and only if the service lock is linked
  before the exchange. The publish lock alone does not do and is not needed.

## Model

| member | source | states |
|---|---|---|
| RepositoryState.FileTextInjective | prvaptmirror/storage.py:30-39 | distinct pool files of valid packages have distinct paths and each path names its package, so a path can stand for component and package |
| RepositoryState.FilesAreUnique | prvaptmirror/db.py:36-52 | the UNIQUE constraint on file names can never fire: file names determine the row |
| RepositoryState.RebuildLists | prvaptmirror/indexer.py:172-201 | a rebuilt tree lists a package if and only if it is an active row that some configured index takes in |
| RepositoryState.SoundMeansNoDangling | prvaptmirror/publish.py:85-167 | the inductive invariant, in every mode, implies that every live file name has a pool blob with the listed digest, unless somebody removed it from outside |
| RepositoryState.MinorKeepsSound | prvaptmirror/publish.py:89-92 | writes to the run log, the flag, dists.next, incoming and quarantine keep the invariant unless they make a repository look clean whose live entries are not its rows, and keep readiness true when they cannot make it look clean |
| RepositoryState.MarksKeepSound | prvaptmirror/publish.py:77 | marking rows without reviving any keeps the invariant |
| RepositoryState.LinkKeepsSound | prvaptmirror/storage.py:162-208 | linking a new blob keeps the invariant, and so does unlinking it again |
| RepositoryState.RegisterKeepsSound | prvaptmirror/storage.py:181-204 | writing or reviving a row together with the flag is a legal step, and keeps the invariant if and only if the mode admits its file: always, or only if no listed row changes its file name |
| RepositoryState.FixedAdmits | prvaptmirror/storage.py:36-43 | in a repository with one component, every file under that component is admitted: no listed row can move |
| RepositoryState.OrphanKeepsSound | prvaptmirror/storage.py:217-236 | moving an unregistered blob away keeps the invariant, and leaves nothing dangling, if and only if the live index does not list it |
| RepositoryState.RowsCoverListed | prvaptmirror/storage.py:217-236 | while every live entry is a row as it is, no unregistered blob is listed |
| RepositoryState.DropKeepsSound | prvaptmirror/publish.py:286-288 | unlinking the blob of a deleted row that is not in the live index, and then deleting the row, keep the invariant at both steps |
| RepositoryState.DropBreaksSound | prvaptmirror/publish.py:286-288 | the same for a row that is in the live index breaks it and leaves a dangling entry |
| RepositoryState.CurrentListsNoPending | prvaptmirror/publish.py:94 | once live is the rebuild of the active rows, no other row is in the live index |
| RepositoryState.PreparedExposure | prvaptmirror/publish.py:291-304 | what startup does before it finishes deletes leaves a state where they take a listed package if and only if nothing in it would force a publish |
| RepositoryState.PreparedListsNoPending | prvaptmirror/publish.py:291-304 | from a state whose live index is current, startup finds no listed row to delete and no listed blob to move |
| Engine.TraceExtends | prvaptmirror/db.py:147-182 | a journal keeps its guarantees over one more durable write if and only if that write does |
| Engine.Repository.MarkMissingRows | prvaptmirror/publish.py:72-82 | exactly the active rows whose blob is gone are marked, one write each; an exception at one of them leaves it and possibly others unmarked |
| Engine.Repository.QuarantineMissing | prvaptmirror/publish.py:72-82 | active rows whose blob is gone become missing and the flag is set if there was one, with the journal guarantees kept at every write |
| Engine.Repository.StageNext | prvaptmirror/publish.py:107-110 | the staged tree gets to dists.next unless clearing or moving fails, and nothing else changes |
| Engine.Repository.SwapIn | prvaptmirror/publish.py:112-126 | live goes from the old tree to the complete staged tree in one write, whatever happens to the replaced tree |
| Engine.SwapKeepsSound | prvaptmirror/publish.py:112-126 | exchanging a complete rebuild of the backed active rows into place keeps the invariant, whatever is left at dists.next |
| Engine.Repository.PublishPresent | prvaptmirror/publish.py:103-143 | from the rendered tree to the cleared flag: which fault leaves the old tree live and which the complete new one, and what the run says |
| Engine.Repository.RecordFailure | prvaptmirror/publish.py:149-160 | the except block: the run is failed before the flag is set, and an exception may strike before either |
| Engine.Repository.PublishUnlocked | prvaptmirror/publish.py:85-167 | success gives the rebuild of the active rows, clean and recorded; a fault leaves live untouched or the complete new tree according to where it struck, the rows marked as far as it got, and the failed run and the flag as far as the except block got; every write in between keeps the guarantees |
| Engine.Repository.Publish | prvaptmirror/publish.py:170-175 | publish under the saved settings; on success the waiting deletes are finished under the new live index, on failure everything is as a failed publish leaves it |
| Engine.Repository.RetryPendingPublish | prvaptmirror/publish.py:178-189 | nothing happens if and only if neither flag is set; otherwise a publish under the saved settings, which clears the pending mark only on success |
| Engine.Repository.DropRow | prvaptmirror/publish.py:256-259 | the blob goes first and the row second; the invariant is kept if and only if the row is not in the live index |
| Engine.Repository.FinishPendingDeletes | prvaptmirror/publish.py:281-288 | all waiting deletes are finished when the last run succeeded and the flag is clear, none otherwise; safe if and only if none of them is in the live index |
| Engine.Repository.Register | prvaptmirror/storage.py:181-204 | the row and the flag are written in one step |
| Engine.Repository.LinkAndRegister | prvaptmirror/storage.py:162-211 | a fault after the link takes the link back: the disk is what it was |
| Engine.Repository.Place | prvaptmirror/storage.py:137-214 | a package goes in if and only if its incoming file is there, nothing strikes, no symbolic link is in its place, it has no row or one with its digest that does not wait for deletion, and there is no blob at its place or one with its digest and no active row; then it has an active row and the flag is set; a duplicate if and only if one of the last conditions fails; anything but placed leaves rows, pool and flag as they were; the incoming file is gone either way |
| Engine.PlacedIsRegistered | prvaptmirror/storage.py:137-214 | a placed package has an active row, a blob with its digest and the flag set, and no pool file changed |
| Engine.PlacedStayRegistered | prvaptmirror/publish.py:201-241 | over a batch, registered packages keep their digests and everything reported as placed is registered under its digest |
| Engine.AfterAllFacts | prvaptmirror/publish.py:201-241 | a batch touches only rows, pool, flag and incoming; only an exception stops it early; the incoming file of every item reached is gone |
| Engine.AfterAllStops | prvaptmirror/publish.py:201-241 | after an exception the rest of the batch changes nothing |
| Engine.Repository.PlaceAll | prvaptmirror/publish.py:201-248 | the loop leaves exactly the state and results of placing the items in order up to the first exception |
| Engine.Repository.UploadCommit | prvaptmirror/publish.py:192-253 | publishes exactly once if and only if something was placed and nothing raised; raises if an item does or the publish itself raises; the guarantees hold for every batch whose files the mode admits |
| Engine.Repository.MarkForDelete | prvaptmirror/publish.py:267-270 | the first commit alone is safe but may leave readiness wrong for the moment |
| Engine.Repository.DeleteCommit | prvaptmirror/publish.py:262-278 | uninterrupted: row and blob are gone only after an index without them is live; on failure the row waits, the blob is still there and the flag is set |
| Engine.DeletedIsGone | prvaptmirror/publish.py:262-278 | after a delete the package is in neither table nor pool, live is current, and every other row and blob is as a publish would have left it |
| Engine.Repository.TrySettings | prvaptmirror/routes/admin.py:878-886 | the candidate is saved only after it is live, in one step with clearing the pending mark; on failure the mark stays and the state is that of the failed publish |
| Engine.Repository.RollBackSettings | prvaptmirror/routes/admin.py:887-895 | the mark is cleared only if the saved settings are live again |
| Engine.Repository.SettingsPost | prvaptmirror/routes/admin.py:867-897 | all or nothing: the candidate is saved and published, or the two publishes had exactly the effects stated for them and the saved settings are unchanged |
| Engine.FailedSettingsKeep | prvaptmirror/routes/admin.py:878-895 | a settings change that is not saved leaves saved settings, pool, incoming files and quarantine as they were |
| Engine.FailedSettingsMark | prvaptmirror/routes/admin.py:878-895 | it changes rows only by marking some whose blob is gone |
| Engine.FailedSettingsSettle | prvaptmirror/routes/admin.py:887-895 | it is still pending if and only if publishing the saved settings failed too, and otherwise they are live again |
| Engine.Repository.MoveAside | prvaptmirror/storage.py:224-233 | the flag is durable before the blob moves to the quarantine; safe if and only if the live index does not list the blob |
| Engine.Repository.QuarantineOrphans | prvaptmirror/storage.py:217-236 | exactly the unregistered .deb files move to the quarantine; safe if and only if the live index lists none of them, and otherwise an entry dangles |
| Engine.Repository.PrepareReconcile | prvaptmirror/publish.py:291-303 | after it there is no dists.next, no unregistered blob and no active row without blob |
| Engine.Repository.StartupReconcile | prvaptmirror/publish.py:291-308 | its whole effect with and without a publish fault; safe if and only if neither the blobs it moves nor the deletes it finishes are in the live index |
| Engine.Repository.Startup | prvaptmirror/main.py:56-63 | from a state that keeps the invariant, startup keeps it if and only if the state is not exposed; pending settings are published before anything else or startup refuses to go on; its whole effect, also when its last publish fails |
| Runs.JournalGuarantees | prvaptmirror/publish.py:85-167 | read state by state: nothing dangles, live is never partial, once complete never absent again, pool bytes and row digests never change, a waiting delete is never revived |
| Runs.JournalIsReady | prvaptmirror/publish.py:262-278 | readiness is wrong only between a mark and the write that follows it |
| Runs.NothingDangles | prvaptmirror/publish.py:85-167 | a journal that keeps the invariant has no dangling entry in any state |
| Runs.CutJournal | prvaptmirror/main.py:56-63 | what a crash leaves of a journal keeps all its guarantees |
| Runs.ReadyIsNotExposed | prvaptmirror/routes/health.py:30-42 | where readiness tells the truth and every live entry is a row as it is, startup is safe |
| Runs.Perform | prvaptmirror/publish.py:170-308 | each operation that runs to its end has exactly the effect stated for it; it keeps the invariant at every write unless it is a restart of an exposed state or a misfit, and readiness always |
| Runs.OneComponentFits | prvaptmirror/storage.py:36-43 | in a repository with one component no event is a misfit that keeps the component and uploads what was parsed from its incoming files |
| Runs.PerformCut | prvaptmirror/main.py:56-63 | an operation may be interrupted after any of its writes; safety survives every interruption, readiness every one that leaves a ready state |
| Runs.Run | prvaptmirror/publish.py:85-308 | over every script of uploads, deletes, publishes, retries, settings changes, restarts and outside removals, with any faults and an interruption after any write: unless a restart begins in an exposed state, the invariant and NoDangling hold in every state and live never disappears; unless an interruption leaves a mark without its flag where that matters, a ready repository serves the rebuild of the active rows; in a strict repository without misfits, and in one whose script never changes the component, the second condition implies the first |
| Runs.DeleteRiskIsExposure | prvaptmirror/publish.py:267-271 | the state between the two commits of a delete is exposed if and only if the delete was risky or startup was already dangerous, conditions on the state before the call |
| Runs.OrphanAftermath | prvaptmirror/publish.py:291-308 | a startup that moved a listed blob away leaves the index broken if and only if its publish fails before the exchange |
| Runs.DeleteAftermath | prvaptmirror/publish.py:281-308 | a startup that deleted a listed package leaves the index broken if and only if it has no reason to publish or that publish fails before the exchange |
| Runs.DeleteThenDie | prvaptmirror/publish.py:267-271 | crash between the two commits, then startup: some state dangles if and only if the delete was risky or startup was already dangerous (given the package's blob), and the exact condition for the state startup leaves |
| Runs.DeleteRiskHappens | prvaptmirror/publish.py:267-271 | a concrete sound and ready repository in which a delete is risky |
| Runs.OneCommitIsSafe | prvaptmirror/publish.py:267-271 | with mark and flag in one commit the state in between is sound and ready, and no more exposed than before |
| Runs.PlacementOrphans | prvaptmirror/storage.py:181-204 | a placement leaves a listed blob to no row if and only if there was one it does not take or the package moves off its listed blob |
| Runs.MoveRiskIsUploadRisk | prvaptmirror/storage.py:196-202 | where every live entry is a row as it is, the risk of an upload is that a listed row moves |
| Runs.UploadThenRestart | prvaptmirror/storage.py:196-202 | upload, possibly failing publish, startup, from every safe and steady repository: a listed blob is taken away if and only if the upload was risky, a condition on the state before it and the fault; the index stays broken if and only if the startup cannot publish either |
| Runs.MoveRiskHappens | prvaptmirror/storage.py:196-202 | a concrete repository, upload and fault for which the move is risky |
| Runs.SecondUploadHappens | prvaptmirror/storage.py:196-202 | a concrete state, left by a failed move, in which an upload that is refused as a duplicate is risky |
| Recovery.OneStartup | prvaptmirror/publish.py:291-308 | from any state one startup without faults leaves at most waiting deletes, and leaves those if and only if it had to publish and there were any |
| Recovery.TwoStartupsSettle | prvaptmirror/publish.py:281-308 | from any state two startups without faults leave nothing to recover |
| Recovery.StartupFixpoints | prvaptmirror/main.py:56-63 | a startup changes nothing if and only if there is nothing left to recover |
| Recovery.ThirdStartupIsIdle | prvaptmirror/main.py:56-63 | the third startup changes nothing |
| Recovery.MarksWithoutFlag | prvaptmirror/publish.py:72-82 | a crash between the missing marks and the flag, then startup: the repository is clean, and readiness lies if and only if nothing made startup publish and a marked row was in the live index |
| Recovery.MarksWithoutFlagHappens | prvaptmirror/publish.py:72-82 | a concrete sound and ready repository with one file removed from outside after which readiness lies |
| Recovery.BackupRestoreStartup | prvaptmirror/maintenance.py:59-192 | backup, restore and startup bring back every registered row and blob and a live index rebuilt from the active rows; waiting deletes are finished on the way if and only if a settings change was pending and there was no stray blob |
| EndToEnd.CurrentServes | prvaptmirror/indexer.py:172-201 | the engine's current index means: one index per configured architecture, each listing exactly the active packages of it or of all, under their file and digest |
| EndToEnd.PromisesMean | prvaptmirror/routes/health.py:30-42 | the two promises of a run in these terms: whatever is listed is there with its digest, and where readiness is reported exactly the active packages are served |
| EndToEnd.RunServes | prvaptmirror/publish.py:85-308 | any sequence of operations of a repository whose component stays the same, with faults and cuts: at every moment the index is intact, and if readiness is reported in the end exactly the active packages are served |
| EndToEnd.UploadAccepted | prvaptmirror/publish.py:192-253 | whatever is not refused (a new package, one whose blob was lost or whose place changed, the leftover of a crash): after an upload without faults it is active, its blob is there, every index of its architecture lists it, and exactly the active packages are served |
| EndToEnd.UploadOutlivesFaults | prvaptmirror/publish.py:178-253 | the same package whatever strikes its publish: it is registered with its blob, and the next retry without faults serves it |
| EndToEnd.RetryServes | prvaptmirror/publish.py:178-189 | whatever is dirty or pending, a retry without faults serves exactly the active packages, and leaves backed active rows and their blobs as they were |
| EndToEnd.UploadRefused | prvaptmirror/storage.py:137-178 | a package that is there already, waits for deletion or has another digest, or whose place is taken: the upload changes nothing but the incoming file |
| EndToEnd.PublishServes | prvaptmirror/publish.py:170-175 | after a publish exactly the active packages with a blob are served, those without one are missing, and those that waited for deletion are gone with their blobs |
| EndToEnd.DeleteServes | prvaptmirror/publish.py:262-278 | after a delete no index lists the package, row and blob are gone, and every other backed package is as it was |
| EndToEnd.SettingsServe | prvaptmirror/routes/admin.py:867-886 | a settings change without faults is saved and served, and nothing is pending |
| EndToEnd.StartupServes | prvaptmirror/main.py:56-63 | after a startup without faults nothing is dirty, pending or half deleted, the live tree carries its history, every pool file whose path ends in .deb is some row's file, every active row has its blob, backed active rows are as they were, and exactly the active packages are served |
| EndToEnd.StrayFileGoes | prvaptmirror/storage.py:217-236 | a stray .deb file in the pool is in the quarantine after a startup |
| EndToEnd.RestoredServes | prvaptmirror/maintenance.py:59-192 | after a backup is restored and started, every row that does not wait for deletion is what it was, its blob too, and exactly the active packages are served |
| ByHash.PreviousCurrent | prvaptmirror/byhash.py:32-35 | collects the by-hash names of all live indexes |
| ByHash.LinkCurrent | prvaptmirror/byhash.py:36-56 | fails if and only if the history of a staged index is malformed; otherwise the new history, the names it protects and one freshly stamped link per current digest |
| ByHash.CarryFile | prvaptmirror/byhash.py:66-73 | a retiring file is copied with a new stamp, any other is linked; the live file keeps its stamp |
| ByHash.CarryOver | prvaptmirror/byhash.py:58-73 | exactly the files that retire now, are protected or are young come along, without replacing a staged file |
| ByHash.PrepareByHash | prvaptmirror/byhash.py:19-74 | fails if and only if a staged index has a live history that is not a list of strings of 64 lower-case hexadecimal digits; otherwise the staged tree becomes the next generation of the value model; content, stamps and history of the live tree are untouched although the trees share inodes |
| ByHashRuns.NextIsClosed | prvaptmirror/byhash.py:36-57 | every current digest and every history digest has a file with its bytes, if the live tree had that |
| ByHashRuns.NextIsBounded | prvaptmirror/byhash.py:58-63 | a file is there after a publish if and only if it is current, or was live and was current until now, is in the new history, or has a stamp at most 7 * 86400 seconds old |
| ByHashRuns.NextStamps | prvaptmirror/byhash.py:48-73 | it carries the time of this publish if it is current or was current until now, and otherwise the stamp it had |
| ByHashRuns.AlwaysClosed | prvaptmirror/byhash.py:19-74 | the same over any number of publishes |
| ByHashRuns.RetainedForAWeek | prvaptmirror/byhash.py:66-71 | a version that stopped being current at some publish is, with its bytes, in every tree prepared within 7 * 86400 seconds of it, however old it was and however many publishes there are |
| ByHashRuns.PromoteTruncated | prvaptmirror/byhash.py:41-47 | promoting a digest in the kept three gives the first three of promoting it in the full list |
| ByHashRuns.MostRecentOrder | prvaptmirror/byhash.py:47 | the full list orders the digests by when they were last published |
| ByHashRuns.HistoryIsMostRecent | prvaptmirror/byhash.py:41-48 | although each publish sees only the three digests the last one kept, the stored history is always the front of the list of all distinct digests ever published |
| ByHashRuns.HistoryIsLastThree | prvaptmirror/byhash.py:41-48 | in terms of what was published: the history has at most three digests, none twice, the latest first, and one that is missing was not published since any of the three that are there |
| ByHashRuns.LastThreeAreFetchable | prvaptmirror/byhash.py:41-56 | a version that was ever current has its file with its bytes, however long ago, until three others have been published since |
| ByHashRuns.HistoryStaysReadable | prvaptmirror/byhash.py:42-46 | publishing never writes a history that a later publish would refuse |
| PoolPath.PoolRelativeInjective | prvaptmirror/storage.py:30-39 | no two components and no two valid packages share a pool path |
| PoolPath.PathIs | prvaptmirror/storage.py:30-39 | the path of a package: pool, component, four letters for a library with at least four and one for everything else, name, and the file name of its three parts |
| PoolPath.OwnerOfPoolRelative | prvaptmirror/source_sync.py:313-326 | the last segment of a pool path is read back as exactly its name, version and architecture |
| PoolPath.IdentityIff | prvaptmirror/source_sync.py:313-326 | for every package accepted without an architecture list, its file name is read back if and only if the architecture is lower-case and has no underscore |
| PoolPath.MisreadHappens | prvaptmirror/source_sync.py:313-326 | an accepted package whose file name is not read back |
| DebIdentity.AcceptedIdentity | prvaptmirror/debparse.py:270-304 | what the field checks accept under a validated architecture list is a valid identity without `..`, and its pool path names it again |
| DebIdentity.AcceptedIff | prvaptmirror/debparse.py:270-304 | control fields are accepted if and only if all three are there and not blank, the name has its alphabet and no two dots in a row, the version its alphabet and epoch, the architecture nothing that leads to another directory and a place on the list; and then as these, trimmed, the name in lower case |
| DebIdentity.UnlistedIdentity | prvaptmirror/debparse.py:270-304 | the same without a list, with the exact condition on the architecture |
| ControlText.ParseControlText | prvaptmirror/debparse.py:187-223 | the parser loop computes the recursive reading of a stanza, with its two errors |
| ControlText.ParsedIff | prvaptmirror/debparse.py:187-223 | a text is accepted if and only if every line that heads a field has a colon and every continuation line has a head somewhere before it |
| ControlText.FieldIsRead | prvaptmirror/debparse.py:187-223 | for every accepted text: a field has the rest of its last head line and its continuation lines, each without its first character and nothing where only a dot is left, joined by newlines that are taken off at the end |
| ControlText.FormatField | prvaptmirror/indexer.py:62-75 | the printer emits the name, the first line and one padded line per continuation |
| ControlText.FieldLinesAre | prvaptmirror/indexer.py:62-75 | line by line what is written for a value: an empty line as a lone dot, a line that starts with a space as it is, any other one indented |
| ControlText.UnixNewlinesAre | prvaptmirror/indexer.py:63 | each way of ending a line becomes a newline and nothing else changes |
| ControlText.ParserGivesParsedValues | prvaptmirror/debparse.py:187-223 | whatever the text, every value the parser returns has a first line without leading white space, no continuation that is a lone dot, and no trailing newline |
| ControlText.RereadValueIff | prvaptmirror/indexer.py:62-75 | a parsed value survives printing and parsing if and only if no continuation line starts with a space |
| ControlText.VerbatimLineHappens | prvaptmirror/indexer.py:71-72 | a text whose parsed value does not survive printing and parsing |
| ControlText.ParseStanza | prvaptmirror/debparse.py:187-223 | parsing the printed lines of a stanza gives each field its reread value, whatever came before |
| ControlText.StanzaLinesAreSolid | prvaptmirror/indexer.py:62-75 | no printed line is empty or breaks in two, so no value can end a stanza or add a field |
| StanzaFile.FileReadsBack | prvaptmirror/indexer.py:78-106 | cutting the printed file at its empty lines gives back its stanzas, and each parses to its fields |
| PackagesFile.RowLeIsPreorder | prvaptmirror/indexer.py:82-83 | the sort key is a total preorder |
| PackagesFile.SortedFacts | prvaptmirror/indexer.py:82-85 | sorting orders the rows and loses none |
| PackagesFile.RenderStanza | prvaptmirror/indexer.py:86-104 | one stanza: the non-empty control fields in their fixed order, then the five file fields |
| PackagesFile.RenderPackages | prvaptmirror/indexer.py:78-106 | the text it returns, cut at its empty lines, has one stanza per row, ordered by name, Debian version and architecture, and each parses back to its row: Filename, Size, MD5sum, SHA1 and SHA256 with the row's file name, size and digests, its non-empty control fields, and no others |
| PackagesFile.RoundTrip | prvaptmirror/indexer.py:78-106 | the same of the text the specification gives; a control value comes back if and only if it has no space-led continuation |
| PackagesFile.SourceRowsAreWellFormed | prvaptmirror/debparse.py:187-309 | every row made from parsed control text, a valid identity and hexadecimal digests satisfies what the round trip asks for |
| PackagesFile.SourceFieldsAreGood | prvaptmirror/debparse.py:31-53 | the field names the source writes are distinct and can be read back, and those that decide which packages can be installed together are among them |
| ArFraming.ReadMembers | prvaptmirror/debparse.py:93-135 | the reader loop terminates on every input and computes the recursive reading, with the same error in every case |
| ArFraming.AcceptedIsAccounted | prvaptmirror/debparse.py:93-135 | an accepted file is the magic and the headers, bodies and pads of its members, to the last byte |
| ArFraming.AccountedEntries | prvaptmirror/debparse.py:106-134 | each accepted member is what the header at its offset says, there are at most 128, and no metadata kind comes twice |
| ArFraming.WrittenReadsBack | prvaptmirror/debparse.py:93-135 | any archive of correctly headed members is read back member by member |
| ArReader.ReadArMembers | prvaptmirror/debparse.py:93-135 | the same loop with the header format of the source |
| ArReader.HeaderReads | tests/deb_builder.py:14-21 | the header the builder writes is read back as its name and size |
| ArReader.WriterRoundTrip | tests/deb_builder.py:14-28 | reading what the builder writes returns the same members in the same order |
| ArReader.AcceptedDeb | prvaptmirror/debparse.py:93-135 | whatever file is accepted starts with the magic and has at most 128 members, one after the other to its last byte, each with a closed header, its bytes and a pad; at most one format version of at most 16 bytes and one control archive of at most 16 MiB, which are returned byte by byte, and of everything else the name alone |
| Scheduler.Tables.PickDue | prvaptmirror/source_sync.py:170-178 | the due source with the least next check, then the least id, or none if none is due |
| Scheduler.Tables.ClaimSource | prvaptmirror/source_sync.py:165-198 | nothing is claimed if and only if every source is disabled, being checked or not due; otherwise the one that has been due longest, and of several the one with the least id; a wanted one if and only if it is enabled and not being checked; it is marked running and has one run |
| Scheduler.Tables.FinishSource | prvaptmirror/source_sync.py:201-249 | after a success the counter is 0 and the source is due when its interval has passed; after the k-th error in a row in 1, 2, 4, ..., 128 minutes and from the ninth on in 256, or after its interval if that is shorter; the run ends and the run invariant is kept |
| Scheduler.Tables.RecoverRuns | prvaptmirror/source_sync.py:146-154 | exactly the runs under way are ended; the invariant holds between the two commits |
| Scheduler.Tables.RecoverSources | prvaptmirror/source_sync.py:155-162 | interrupted sources become due at once and no source stays marked running |
| Scheduler.Tables.QueueSource | prvaptmirror/sources.py:263-272 | a manual request is taken if and only if the source is enabled and not running |
| Scheduler.BehindStaysBehind | prvaptmirror/source_sync.py:165-249 | a source scheduled after a waiting one, or running, is not claimed before it |
| Scheduler.BoundedBypass | prvaptmirror/source_sync.py:938-948 | while a due source waits, every other source is claimed at most once, however the runs in between finish |
| Scheduler.WaitIsBounded | prvaptmirror/source_sync.py:938-948 | so a due source waits for at most as many claims as there are other sources |
| Scheduler.CounterIsTrailingErrors | prvaptmirror/source_sync.py:215-223 | over any run of the scheduler the failure counter of a source is the length of the trailing block of errors among its own checks, added to what it was if all were errors |
| Scheduler.WaitsGrow | prvaptmirror/source_sync.py:215-222 | waits after failures never shrink and lie between a minute and the interval |
| Scheduler.WaitsDouble | prvaptmirror/source_sync.py:215-222 | the first k waits sum to 60 (2^k - 1) seconds while the doubling is under the interval |
| Scheduler.ChecksAreSpaced | prvaptmirror/source_sync.py:165-249 | over any run of the scheduler: after a check that ended in success the next one of that source does not begin or end before its interval has passed, after an error not before a minute has |
| Artifacts.FetchingFacts | prvaptmirror/source_sync.py:716-751 | the first loop counts every asset once and leaves settled artifacts alone |
| Artifacts.BatchFacts | prvaptmirror/source_sync.py:654-677 | with distinct ids each asset is begun, rejected, failed or fetched on its own |
| Artifacts.SourceArtifacts.DownloadInVain | prvaptmirror/source_sync.py:734-743 | a file that landed and was refused is removed: the incoming directory is as it was |
| Artifacts.SourceArtifacts.FetchAll | prvaptmirror/source_sync.py:716-746 | the loop leaves exactly that table, those fetched items, and of all files that landed only the incoming files of the fetched |
| Artifacts.SourceArtifacts.Settle | prvaptmirror/source_sync.py:749-769 | each fetched artifact ends as imported if it was placed, as skipped if the repository has that very package, and as conflict otherwise; no other artifact changes; imported counts the placed ones |
| Artifacts.SourceArtifacts.ProcessAssets | prvaptmirror/source_sync.py:707-771 | on normal return discovered = imported + skipped + failed, where imported and failed are the numbers of artifacts that ended so; no incoming file of the batch is left, the repository was published exactly once if and only if something was imported, and a fetched artifact ends as conflict if and only if the repository does not have that very package; imported and skipped artifacts, and without a manual request rejected and conflicting ones, are not touched |
| Artifacts.SettledForGood | prvaptmirror/source_sync.py:654-662 | over any number of batches imported and skipped artifacts stay, rejected and conflicting ones until a manual request |
| Settings.ParseArchitectures | prvaptmirror/settings.py:107-119 | the loop computes the de-duplicated list or refuses |
| Settings.AcceptedIsNormal | prvaptmirror/settings.py:85-141 | whatever is accepted is trimmed, within its alphabet and bounds, has no architecture twice, and passes the startup check |
| Settings.AcceptedIsSent | prvaptmirror/settings.py:85-141 | it is what was sent in that very field, without white space around it; the architectures are the names on the list in lower case |
| Settings.NormalReadsBack | prvaptmirror/settings.py:44-56 | writing accepted settings, all ten, as text and validating them again gives the same settings or the refusal of the startup check |
| Settings.ChangedMeansDifferent | prvaptmirror/settings.py:175-178 | comparing the texts is comparing the configs |
| Settings.SavedUnder | prvaptmirror/settings.py:170-172 | each setting is saved under its own key |
| Settings.LoadAfterSave | prvaptmirror/settings.py:157-172 | loading after saving gives the saved settings if and only if the startup check accepts them in the environment of that moment, and otherwise raises; the environment has no other say, and saving touches no other key |
| Settings.LoadRefused | prvaptmirror/config.py:175-182 | settings with a public address load with authentication on and raise with it off |
| Settings.PublicSettingsExist | prvaptmirror/settings.py:85-141 | concrete accepted settings with a public address |
| Indexes.ListEverywhere | prvaptmirror/indexer.py:180-185 | a package of architecture all is appended once to the index all and once per other list entry |
| Indexes.GroupByIndex | prvaptmirror/indexer.py:175-189 | the loop builds the listing of every index: when no architecture is configured twice, the active packages of that architecture and of all, each once and in order; skipped are exactly the active packages of any other architecture |
| Indexes.PartitionIsExact | prvaptmirror/indexer.py:175-189 | with a list without repetitions each index lists exactly the active packages that belong to it, each once |
| Indexes.UniqueIffDistinct | prvaptmirror/indexer.py:180-185 | single listing holds for every package if and only if no architecture but all is configured twice |
| Indexes.SkippedIsTheRest | prvaptmirror/indexer.py:188-189 | skipped are exactly the active packages no index takes |
| Indexes.ListingsAreRebuild | prvaptmirror/indexer.py:172-201 | the lists of the loop are the indexes of the engine's rebuild |
| Extraction.AdmissibleStaysBelow | prvaptmirror/maintenance.py:108-120 | an accepted member lands below the staged directory: in the pool, the key directory or the secret |
| Extraction.DotsLeadOut | prvaptmirror/maintenance.py:108-120 | without the check for dots a path of an allowed prefix leads out of the staged directory |
| Extraction.FileAtPackage | prvaptmirror/maintenance.py:121-129 | a package file unpacks under the path its row names |
| Extraction.MembersArrive | prvaptmirror/maintenance.py:108-129 | every file of an accepted archive is under its own path with its own content in the end |
| Extraction.OnlyMembersArrive | prvaptmirror/maintenance.py:108-129 | every package file that is there in the end came from a member of the archive |
| Extraction.UnpacksIff | prvaptmirror/maintenance.py:108-129 | any archive is accepted if and only if every member is a folder or regular file below the pool or the key directory, or the secret, not absolute and without dots, and no two have the same name or are in each other's way |
| Backups.ArchivedIff | prvaptmirror/maintenance.py:77-86 | a backup is made if and only if there is nothing but directories and regular files in the pool and, the agent's sockets aside, in the key directory |
| Backups.ArchiveAgrees | prvaptmirror/maintenance.py:77-86 | every member of a backup's archive fits and every two agree: each directory once and before its entries, nothing twice |
| Backups.BackupUnpacks | prvaptmirror/maintenance.py:77-134 | the archive of every backup is accepted and leaves exactly the pool that was archived, the key directory without sockets, and the secret |
| Maintenance.RestoreRun.Extract | prvaptmirror/maintenance.py:108-134 | unpacking goes member by member; it succeeds if and only if every member is admissible, new and in nobody's way, the keys are there and no write fails |
| Maintenance.RestoreRun.Fill | prvaptmirror/maintenance.py:152-167 | the staged directory ends up as the archive marked dirty if and only if the archive passes every check and no write fails |
| Maintenance.RestoreRun.LinkLocks | prvaptmirror/maintenance.py:168-171 | the staged directory gets the lock files of the data directory before the exchange |
| Maintenance.RestoreRun.Restore | prvaptmirror/maintenance.py:137-192 | at every write the data directory is the old one, lock files aside, or the complete checked archive with the old one beside it; on any failure before the exchange the old one is there with nothing beside it; success and failure are decided by the checks and the number of writes |
| Maintenance.EveryCutIsADisk | prvaptmirror/maintenance.py:137-192 | whenever a restore dies, the application finds the disk as it was or the complete archive marked dirty, under the same lock files |
| Maintenance.RestoredStartsUp | prvaptmirror/maintenance.py:59-192 | every backup of a repository whose rows and blobs agree is acceptable to restore and gives its pool back; the restored directory is sound and ready, and its first startup brings back every registered row and blob |
| Maintenance.RestoreBackup | prvaptmirror/maintenance.py:137-192 | a restore of a backup takes place if and only if nothing holds the locks and no write fails; then database, pool and secret are those of the backup, marked for rebuilding, without any index, and the old directory is beside it |
| Locks.StepKeepsLocks | prvaptmirror/filesystem.py:13-27 | every step of every process keeps each claim on the service lock on the inode that bears its name, also across an exchange |
| Locks.RestoresAreAlone | prvaptmirror/maintenance.py:149-182 | over every interleaving of applications, publishes, backups and any number of restores, no restore is inside its section while an application, a backup or another restore is, and no two hold the publish lock |
| Locks.GrantedIff | prvaptmirror/filesystem.py:13-27 | in any run whoever has opened the service lock is granted it unless it is a restore and somebody is inside, or a restore is inside, and only then not: applications and backups share it |
| Locks.PublishGrantedIff | prvaptmirror/filesystem.py:13-27 | an application or backup that has opened the publish lock is granted it if and only if nobody holds it |
| Locks.RestoreCompletes | prvaptmirror/maintenance.py:149-182 | a run in which a restore takes both locks, links them and exchanges the directories |
| Locks.ExclusionIff | prvaptmirror/maintenance.py:168-171 | exclusion holds in every run if and only if the service lock is among the lock files linked before the exchange |
| Locks.LinkingLateFails | prvaptmirror/maintenance.py:168-180 | linking both lock files only after the exchange lets an application in beside a restore |

## Left out

- Engine.Repository.PublishUnlocked: publishers use the saved settings, or the settings are marked as pending; a caller that read its settings before it waited for the lock is not modelled. Operations are serialised by publish.lock, as `Locks.RestoresAreAlone` has it.
- Engine.Repository.Place: file modes, directory creation and syncing are not modelled; a completed write is durable. A symbolic link in the pool is seen only by the check at the destination.
- Engine.Repository.UploadCommit: when something other than a duplicate raises, the incoming files of the items not reached are left for the 24-hour sweep of incoming files, which is not modelled.
- Engine.Repository.SettingsPost: settings that do not shape the repository (public address, upload limits, session lifetime) are saved without a publish; that branch is not modelled.
- Runs.Run: an upload whose incoming file changed between parsing and placing is a misfit (`Runs.Misfit`), about which nothing is promised.
- Artifacts.SourceArtifacts.ProcessAssets: the source keeps no counter of failed artifacts; `failed` counts those the first loop settles as failed. If the upload raises, artifacts stay pending and nothing is said about the counters.
- Artifacts.SourceArtifacts.FetchAll: incoming files get random names; that they are fresh is an assumption of the batch (`Artifacts.FreshPaths`).
- PackagesFile.RowLeIsPreorder: Debian version comparison belongs to python-debian; versions are compared by an arbitrary rank.
- PoolPath.IdentityIff: lower-casing covers the letters that it maps into ASCII; others stay outside every alphabet either way.
- DebIdentity.AcceptedIdentity: python-debian is not part of the repository; the version check is section 5.6.12 of Debian Policy, with a colon only after a numeric epoch in ASCII digits. Lower-casing as above.
- DebIdentity.UnlistedIdentity: the same.
- Settings.ParseArchitectures: lower-casing as above.
- Settings.AcceptedIsNormal: urlparse, ip_address and the decimal digits outside ASCII are parameters.
- Scheduler.BoundedBypass: sources are not added, edited, queued by hand or recovered while the due source waits, and the clock does not go back.
- Scheduler.Tables.FinishSource: a run whose source was deleted meanwhile is not finished by the source either; deletion of sources is not modelled.
- Maintenance.RestoreRun.Extract: how a member name is taken apart belongs to pathlib; the parts are given with the name. That the secret is not blank is an input.
- Maintenance.RestoreRun.Restore: the database checks, among them that file names stay in the pool, are an input; removing the staged directory after a failure does not fail in turn. The steps of a backup are not modelled, only what it archives.
- Backups.ArchivedIff: how tarfile.add walks a directory, the directory itself before its entries, is taken from Python's documentation; nothing changes the trees while they are read.
- Backups.BackupUnpacks: compression and the tar format are not modelled, only the list of members.
- EndToEnd.RunServes: a run that changes the component is `Runs.Run`'s; what goes wrong then is above.
- Scheduler.ChecksAreSpaced: manual requests aside, which make a source due at once.
- Rows are keyed by name, version and architecture, which the table keeps unique; the integer ids are not modelled, so a reused id is not either.
- File contents are represented by their SHA256 digests; MD5, SHA1, compression, tar, JSON and UTF-8 decoding are not modelled.
- Signing is a step of a publish that may fail; key bootstrap and verification are left out.
- The top-level Release file (`prvaptmirror/indexer.py:129-169`) and the per-architecture Release files are part of a complete tree but their text is not modelled.
- HTTP, HTML and GitHub listing, asset patterns, the newest-version choice among directory entries, previews and the direct-URL path (`prvaptmirror/source_sync.py:774-852`): candidates and parse results are inputs.
- The polling task of the scheduler, the web routes other than the settings worker, login, sessions, limits and templates.
