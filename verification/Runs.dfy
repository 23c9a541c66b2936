/** Whole runs of the repository: any sequence of operations, each of which may be cut short after
    any durable write, with files vanishing from outside in between. */
module Runs {
  import opened PoolPath
  import opened RepositoryState
  import opened Engine
  import Recovery

  datatype Event =
    | Upload(items: seq<Item>, fault: Fault)
    | Delete(n: Nva, fault: Fault)
    | PublishNow(fault: Fault)
    | Retry(fault: Fault)
    | ChangeSettings(candidate: Config, fault: Fault, saveFails: bool, recovery: Fault)
    | Restart(recovery: Fault, fault: Fault)
    | Receive(path: string, sha: Digest)
    | Vanish(f: File)

  /** An event, and the number of durable writes after which it is interrupted. */
  datatype Act = Act(event: Event, cut: nat)

  // ----- what a journal guarantees ---------------------------------------------------------

  /** Read state by state: nothing dangles, live is whole, and once published never absent again. */
  lemma {:induction false} JournalGuarantees(mode: Mode, j: seq<Disk>, i: int)
    requires TraceSafe(mode, j) && 0 <= i < |j|
    ensures Sound(mode, j[i]) && NoDangling(j[i]) && j[i].live != Partial
    ensures i > 0 ==> Step(j[i - 1], j[i])
    ensures j[i].live.Complete? ==> j[|j| - 1].live.Complete?
  {
    if i == |j| - 1 {
      SoundMeansNoDangling(mode, j[i]);
    } else {
      var k := j[..|j| - 1];
      JournalGuarantees(mode, k, i);
      assert k[|k| - 1] == j[|j| - 2];
    }
  }

  /** Wherever readiness is wrong, a mark was just made and its flag or another mark follows. */
  lemma {:induction false} JournalIsReady(j: seq<Disk>, i: int)
    requires TraceReady(j) && 0 <= i < |j| - 1
    ensures Ready(j[i]) || Marking(j[i], j[i + 1])
  {
    if i < |j| - 2 {
      JournalIsReady(j[..|j| - 1], i);
    }
  }

  lemma {:induction false} NothingDangles(mode: Mode, j: seq<Disk>)
    requires TraceSafe(mode, j)
    ensures !TraceDangles(j)
  {
    SoundMeansNoDangling(mode, j[|j| - 1]);
    if |j| > 1 {
      NothingDangles(mode, j[..|j| - 1]);
    } else {
      assert j[..|j| - 1] == [];
    }
  }

  lemma {:induction false} CutJournal(mode: Mode, j: seq<Disk>, k: nat)
    requires 0 < k <= |j|
    ensures TraceSafe(mode, j) ==> TraceSafe(mode, j[..k])
    ensures TraceReady(j) ==> TraceReady(j[..k])
  {
    if k < |j| {
      CutJournal(mode, j[..|j| - 1], k);
      assert j[..|j| - 1][..k] == j[..k];
    } else {
      assert j[..k] == j;
    }
  }

  /** While every live entry is a row as it is, a state at which readiness holds is a state from
      which startup is safe. */
  lemma ReadyIsNotExposed(d: Disk)
    requires Ready(d) && ListedAreRows(d.live, d.rows)
    ensures !Exposed(d)
  {
    RowsCoverListed(d);
    if !d.pending && Clean(d) {
      forall n | n in PendingRows(d.rows) ensures !Lists(d.live, PkgOf(n, d.rows[n])) {
        CurrentListsNoPending(d.live, d.rows, d.saved, n);
      }
    }
  }

  // ----- events ----------------------------------------------------------------------------

  /** What an event that runs to its end makes of the repository. */
  ghost predicate Did(a: Disk, e: Event, b: Disk) {
    match e
    case Upload(items, fault) => UploadDid(a, items, fault, b)
    case Delete(n, fault) =>
      if n !in a.rows then b == a
      else if Strikes(fault, MarkedForDelete(a, n))
      then PublishFailed(MarkedForDelete(a, n).(dirty := true), a.saved, fault, b)
      else b == Dropped(Published(MarkedForDelete(a, n), a.saved), n)
    case PublishNow(fault) =>
      if Strikes(fault, a) then PublishFailed(a, a.saved, fault, b) else b == DeletesFinished(Published(a, a.saved))
    case Retry(fault) =>
      if !a.dirty && !a.pending then b == a
      else if Strikes(fault, a) then PublishFailed(a, a.saved, fault, b)
      else b == DeletesFinished(Published(a, a.saved).(pending := false))
    case ChangeSettings(candidate, fault, saveFails, recovery) =>
      if candidate == a.saved then b == a
      else if !Strikes(fault, a) && !saveFails then b == Published(a, candidate).(saved := candidate, pending := false)
      else exists mid :: SettingsTried(a, candidate, fault, mid) && SettingsRolledBack(mid, recovery, b)
    case Restart(recovery, fault) =>
      if a.pending && Strikes(recovery, a) then PublishFailed(a, a.saved, recovery, b)
      else StartedUp(a, fault, b)
    case Receive(path, sha) => b == a.(incoming := a.incoming[path := sha])
    case Vanish(f) =>
      if f in a.pool then b == a.(pool := a.pool - {f}, lost := a.lost + {f}) else b == a
  }

  ghost predicate UploadDid(a: Disk, items: seq<Item>, fault: Fault, b: Disk) {
    var (d, results) := AfterAll(a, a.saved, items);
    if (exists r :: r in results && r.Raised?) || !(exists r :: r in results && r.Placed?) then b == d
    else if Strikes(fault, d) then PublishFailed(d, a.saved, fault, b)
    else b == Published(d, a.saved)
  }

  /** An item that was not parsed from its incoming file, or a file or settings the mode does not
      admit: in a strict repository, a listed row would move; in a fixed one, the component change. */
  predicate Misfit(mode: Mode, d: Disk, e: Event) {
    match e
    case Upload(items, _) => !Fit(mode, d, d.saved, items)
    case ChangeSettings(candidate, _, _, _) => !Allows(mode, candidate)
    case _ => false
  }

  ghost predicate Endangers(mode: Mode, d: Disk, e: Event) {
    Misfit(mode, d, e) || (e.Restart? && Exposed(d))
  }

  /** What is left of that in a repository with one component: events that keep it, and items parsed
      from their incoming files. */
  predicate KeepsComponent(component: string, e: Event) { e.ChangeSettings? ==> e.candidate.component == component }

  predicate FromIncoming(d: Disk, e: Event) { e.Upload? ==> forall it :: it in e.items ==> Parsed(d, it) }

  lemma OneComponentFits(component: string, d: Disk, e: Event)
    requires Sound(Fixed(component), d) && KeepsComponent(component, e) && FromIncoming(d, e)
    ensures !Misfit(Fixed(component), d, e)
  {
    if e.Upload? {
      forall it | it in e.items ensures Admits(Fixed(component), d, PoolFile(d.saved.component, it.nva)) {
        FixedAdmits(d, component, PoolFile(d.saved.component, it.nva));
      }
    }
  }

  method Perform(r: Repository, e: Event)
    requires r.Linked()
    modifies r
    ensures r.Linked() && old(r.journal) <= r.journal
    ensures Did(old(r.disk), e, r.disk)
    ensures old(r.Safe()) && !Endangers(r.mode, old(r.disk), e) ==> r.Safe()
    ensures old(r.Steady()) ==> r.Steady()
  {
    match e
    case Upload(items, fault) => var _, _, _ := r.UploadCommit(items, fault);
    case Delete(n, fault) => var _ := r.DeleteCommit(n, fault);
    case PublishNow(fault) => var _ := r.Publish(fault);
    case Retry(fault) => var _ := r.RetryPendingPublish(fault);
    case ChangeSettings(candidate, fault, saveFails, recovery) =>
      var _, tried := r.SettingsPost(candidate, fault, saveFails, recovery);
    case Restart(recovery, fault) => var _ := r.Startup(recovery, fault);
    case Receive(path, sha) => r.WriteMinor(r.disk.(incoming := r.disk.incoming[path := sha]));
    case Vanish(f) => RemoveFromOutside(r, f);
  }

  method RemoveFromOutside(r: Repository, f: File)
    requires r.Linked()
    modifies r
    ensures r.Kept() && Did(old(r.disk), Vanish(f), r.disk)
  {
    if f in r.disk.pool {
      var d := r.disk.(pool := r.disk.pool - {f}, lost := r.disk.lost + {f});
      if Sound(r.mode, r.disk) {
        assert BlobsMatch(d.rows, d.pool);
        assert ListedAreBacked(d.live, d.pool, d.lost);
        assert ActiveAreBacked(d.rows, d.pool, d.lost);
        assert Sound(r.mode, d);
      }
      r.Write(d);
    }
  }

  // ----- runs ------------------------------------------------------------------------------

  /** Where the journal stood before and after an act, and whether its event ran to its end. */
  datatype Visit = Visit(from: nat, to: nat, whole: bool)

  /** The event did what it does, or was interrupted after its cut-th durable write. */
  ghost predicate Visited(j: seq<Disk>, act: Act, v: Visit) {
    && v.from <= v.to < |j|
    && if v.whole then Did(j[v.from], act.event, j[v.to]) else v.to == v.from + act.cut
  }

  /** Where the journal stood when act i began. */
  function StartOf(start: nat, visits: seq<Visit>, i: nat): nat
    requires i <= |visits|
  {
    if i == 0 then start else visits[i - 1].to
  }

  ghost predicate Followed(j: seq<Disk>, start: nat, script: seq<Act>, visits: seq<Visit>) {
    && |visits| == |script|
    && (forall i :: 0 <= i < |script| ==> Visited(j, script[i], visits[i]))
    && (forall i :: 0 <= i < |script| ==> visits[i].from == StartOf(start, visits, i))
  }

  /** No upload was a misfit. */
  ghost predicate AllFit(mode: Mode, j: seq<Disk>, script: seq<Act>, visits: seq<Visit>) {
    forall i :: 0 <= i < |script| && i < |visits| ==>
      visits[i].from < |j| && !Misfit(mode, j[visits[i].from], script[i].event)
  }

  /** Every item of every upload was parsed from its incoming file. */
  ghost predicate AllParsed(j: seq<Disk>, script: seq<Act>, visits: seq<Visit>) {
    forall i :: 0 <= i < |script| && i < |visits| ==>
      visits[i].from < |j| && FromIncoming(j[visits[i].from], script[i].event)
  }

  /** No settings change touches the component. */
  predicate OnlyComponent(component: string, script: seq<Act>) {
    forall a :: a in script ==> KeepsComponent(component, a.event)
  }

  /** No event began in a state it endangers. */
  ghost predicate Harmless(mode: Mode, j: seq<Disk>, script: seq<Act>, visits: seq<Visit>) {
    forall i :: 0 <= i < |script| && i < |visits| ==>
      visits[i].from < |j| && !Endangers(mode, j[visits[i].from], script[i].event)
  }

  /** No event was interrupted between a mark and its flag where that leaves readiness wrong. */
  ghost predicate CutsReady(j: seq<Disk>, visits: seq<Visit>) {
    forall i :: 0 <= i < |visits| ==> visits[i].whole || (visits[i].to < |j| && Ready(j[visits[i].to]))
  }

  lemma FollowedOnce(j: seq<Disk>, k: seq<Disk>, start: nat, script: seq<Act>, visits: seq<Visit>, act: Act, v: Visit)
    requires j <= k && Followed(j, start, script, visits) && Visited(k, act, v)
    requires v.from == StartOf(start, visits, |visits|)
    ensures Followed(k, start, script + [act], visits + [v])
  {
    var acts, more := script + [act], visits + [v];
    forall i | 0 <= i < |acts| ensures Visited(k, acts[i], more[i]) && more[i].from == StartOf(start, more, i) {
      if i < |script| {
        assert Visited(j, script[i], visits[i]);
      }
    }
  }

  /** What held of the longer run held of the shorter one and holds of the last act. */
  lemma RunShortens(mode: Mode, j: seq<Disk>, k: seq<Disk>, script: seq<Act>, visits: seq<Visit>, act: Act, v: Visit)
    requires j <= k && |visits| == |script|
    requires forall i :: 0 <= i < |visits| ==> visits[i].from <= visits[i].to < |j|
    ensures Harmless(mode, k, script + [act], visits + [v]) ==>
              Harmless(mode, j, script, visits) && v.from < |k| && !Endangers(mode, k[v.from], act.event)
    ensures AllFit(mode, k, script + [act], visits + [v]) ==>
              AllFit(mode, j, script, visits) && v.from < |k| && !Misfit(mode, k[v.from], act.event)
    ensures AllParsed(k, script + [act], visits + [v]) ==>
              AllParsed(j, script, visits) && v.from < |k| && FromIncoming(k[v.from], act.event)
    ensures CutsReady(k, visits + [v]) ==> CutsReady(j, visits) && (v.whole || (v.to < |k| && Ready(k[v.to])))
  {
    var acts, more := script + [act], visits + [v];
    assert forall i :: 0 <= i < |script| ==> acts[i] == script[i] && more[i] == visits[i];
    assert acts[|script|] == act && more[|visits|] == v;
  }

  /** One act. */
  method PerformCut(r: Repository, act: Act) returns (v: Visit)
    requires r.Linked()
    modifies r
    ensures r.Linked() && old(r.journal) <= r.journal
    ensures v.from == |old(r.journal)| - 1 && v.to == |r.journal| - 1 && Visited(r.journal, act, v)
    ensures old(r.Safe()) && !Endangers(r.mode, old(r.disk), act.event) ==> r.Safe()
    ensures old(r.Steady()) && (v.whole || Ready(r.disk)) ==> r.Steady()
  {
    v := Visit(|r.journal| - 1, |r.journal| - 1 + act.cut, false);
    Perform(r, act.event);
    if v.to < |r.journal| {
      CutJournal(r.mode, r.journal, v.to + 1);
      r.disk := r.journal[v.to];
      r.journal := r.journal[..v.to + 1];
    } else {
      v := v.(to := |r.journal| - 1, whole := true);
    }
  }

  /** What a run keeps of a repository that was safe or steady when it began.
      Safety: unless an event begins in a state it endangers, the whole journal keeps the invariant.
      Readiness: unless an interruption separates a mark from its flag where that matters, ready
      states tell the truth.
      In a strict or fixed repository without misfits, the second makes every restart safe; in a
      fixed one there are none, if no settings change touches the component. */
  ghost predicate Promised(mode: Mode, wasSafe: bool, wasSteady: bool, script: seq<Act>, visits: seq<Visit>,
                           j: seq<Disk>, safe: bool, steady: bool)
  {
    && (wasSafe && Harmless(mode, j, script, visits) ==> safe)
    && (wasSteady && CutsReady(j, visits) ==> steady)
    && (wasSafe && wasSteady && CutsReady(j, visits) ==>
          && (!mode.Loose? && AllFit(mode, j, script, visits) ==> safe)
          && (mode.Fixed? && OnlyComponent(mode.component, script) && AllParsed(j, script, visits) ==> safe))
  }

  lemma PromisedAtStart(mode: Mode, safe: bool, steady: bool, j: seq<Disk>)
    ensures Promised(mode, safe, steady, [], [], j, safe, steady)
  {}

  /** One more act of a run. */
  method RunOnce(r: Repository, ghost start: nat, script: seq<Act>, visits: seq<Visit>, act: Act,
                 ghost wasSafe: bool, ghost wasSteady: bool)
    returns (v: Visit)
    requires r.Linked() && Followed(r.journal, start, script, visits)
    requires StartOf(start, visits, |visits|) == |r.journal| - 1
    requires Promised(r.mode, wasSafe, wasSteady, script, visits, r.journal, r.Safe(), r.Steady())
    modifies r
    ensures r.Linked() && old(r.journal) <= r.journal && v.to == |r.journal| - 1
    ensures Followed(r.journal, start, script + [act], visits + [v])
    ensures Promised(r.mode, wasSafe, wasSteady, script + [act], visits + [v], r.journal, r.Safe(), r.Steady())
  {
    ghost var before, d, wasSafeBefore, wasSteadyBefore := r.journal, r.disk, r.Safe(), r.Steady();
    v := PerformCut(r, act);
    FollowedOnce(before, r.journal, start, script, visits, act, v);
    assert forall i :: 0 <= i < |visits| ==> Visited(before, script[i], visits[i]);
    if wasSafeBefore && wasSteadyBefore {
      FitEventsAreHarmless(r.mode, d, act.event);
    }
    PromiseExtends(r.mode, wasSafe, wasSteady, script, visits, act, v, before, r.journal,
                   wasSafeBefore, wasSteadyBefore, r.Safe(), r.Steady());
  }

  /** In a ready repository that leaves no live entry behind only a misfit can endanger. */
  lemma FitEventsAreHarmless(mode: Mode, d: Disk, e: Event)
    requires Sound(mode, d) && Ready(d)
    ensures !mode.Loose? && !Misfit(mode, d, e) ==> !Endangers(mode, d, e)
    ensures mode.Fixed? && KeepsComponent(mode.component, e) && FromIncoming(d, e) ==> !Endangers(mode, d, e)
  {
    if !mode.Loose? {
      ReadyIsNotExposed(d);
    }
    if mode.Fixed? && KeepsComponent(mode.component, e) && FromIncoming(d, e) {
      OneComponentFits(mode.component, d, e);
    }
  }

  lemma PromiseExtends(mode: Mode, wasSafe: bool, wasSteady: bool, script: seq<Act>, visits: seq<Visit>,
                       act: Act, v: Visit, j: seq<Disk>, k: seq<Disk>, safe: bool, steady: bool, safe': bool,
                       steady': bool)
    requires Promised(mode, wasSafe, wasSteady, script, visits, j, safe, steady)
    requires j <= k && |visits| == |script| && v.from < |k| && v.to < |k|
    requires forall i :: 0 <= i < |visits| ==> visits[i].from <= visits[i].to < |j|
    requires safe && !Endangers(mode, k[v.from], act.event) ==> safe'
    requires steady && (v.whole || Ready(k[v.to])) ==> steady'
    requires safe && steady && !mode.Loose? && !Misfit(mode, k[v.from], act.event) ==> safe'
    requires (safe && steady && mode.Fixed? && KeepsComponent(mode.component, act.event) &&
              FromIncoming(k[v.from], act.event)) ==> safe'
    ensures Promised(mode, wasSafe, wasSteady, script + [act], visits + [v], k, safe', steady')
  {
    RunShortens(mode, j, k, script, visits, act, v);
    LastOfScript(script, act);
  }

  lemma LastOfScript(script: seq<Act>, act: Act)
    ensures forall c :: OnlyComponent(c, script + [act]) ==> OnlyComponent(c, script) && KeepsComponent(c, act.event)
  {
    forall c | OnlyComponent(c, script + [act]) ensures OnlyComponent(c, script) && KeepsComponent(c, act.event) {
      assert act in script + [act] && forall a :: a in script ==> a in script + [act];
    }
  }

  /** Every run, with every choice of faults and interruptions.  Where the promise of safety holds,
      nothing dangles at any moment, and live once published is never absent again; where that of
      readiness holds, what readyz would report ready is the rebuild of the active rows. */
  method Run(r: Repository, script: seq<Act>) returns (visits: seq<Visit>)
    requires r.Linked()
    modifies r
    ensures r.Linked() && old(r.journal) <= r.journal
    ensures Followed(r.journal, |old(r.journal)| - 1, script, visits)
    ensures StartOf(|old(r.journal)| - 1, visits, |visits|) == |r.journal| - 1
    ensures Promised(r.mode, old(r.Safe()), old(r.Steady()), script, visits, r.journal, r.Safe(), r.Steady())
    ensures r.Safe() ==> Unbroken(r.mode, r.journal)
    ensures r.Steady() && Clean(r.disk) && !r.disk.pending ==> Current(r.disk.live, r.disk.rows, r.disk.saved)
  {
    visits := Follow(r, script, r.Safe(), r.Steady());
    if r.Safe() {
      SafeIsUnbroken(r.mode, r.journal);
    }
  }

  method Follow(r: Repository, script: seq<Act>, ghost wasSafe: bool, ghost wasSteady: bool)
    returns (visits: seq<Visit>)
    requires r.Linked() && wasSafe == r.Safe() && wasSteady == r.Steady()
    modifies r
    ensures r.Linked() && old(r.journal) <= r.journal
    ensures Followed(r.journal, |old(r.journal)| - 1, script, visits)
    ensures StartOf(|old(r.journal)| - 1, visits, |visits|) == |r.journal| - 1
    ensures Promised(r.mode, wasSafe, wasSteady, script, visits, r.journal, r.Safe(), r.Steady())
    decreases |script|
  {
    visits := [];
    if script == [] {
      PromisedAtStart(r.mode, wasSafe, wasSteady, r.journal);
    } else {
      ghost var start := |r.journal| - 1;
      var front, act := script[..|script| - 1], script[|script| - 1];
      visits := Follow(r, front, wasSafe, wasSteady);
      var v := RunOnce(r, start, front, visits, act, wasSafe, wasSteady);
      assert script == front + [act];
      visits := visits + [v];
    }
  }

  ghost predicate Unbroken(mode: Mode, j: seq<Disk>) {
    && (forall i :: 0 <= i < |j| ==> Sound(mode, j[i]) && NoDangling(j[i]) && j[i].live != Partial)
    && (forall i :: 0 <= i < |j| && j[i].live.Complete? ==> j[|j| - 1].live.Complete?)
  }

  lemma SafeIsUnbroken(mode: Mode, j: seq<Disk>)
    requires TraceSafe(mode, j)
    ensures Unbroken(mode, j)
  {
    forall i | 0 <= i < |j|
      ensures Sound(mode, j[i]) && NoDangling(j[i]) && j[i].live != Partial
      ensures j[i].live.Complete? ==> j[|j| - 1].live.Complete?
    {
      JournalGuarantees(mode, j, i);
    }
  }

  // ----- the two commits of delete_commit --------------------------------------------------

  /** The faults that strike the last publish of a startup, which finds no row to mark and no
      dists.next to clear, before the exchange. */
  predicate FailsEarly(at: Point) { at.Begin? || at.NoKey? || at.Build? || at.Move? || at.Exchange? }

  lemma BeforeRepublishFacts(d: Disk)
    requires RowsNamed(d.rows) && BlobsMatch(d.rows, d.pool) && !d.pending
    ensures var e := BeforeRepublish(d);
            && e.next == Absent && GoneRows(e.rows, e.pool) == {} && BlobsMatch(e.rows, e.pool)
            && e.live == d.live && e.lost == d.lost
  {
    Recovery.PreparedIsPrepared(d);
    var p := Prepared(d);
    Recovery.FinishingLeavesNoTrace(p);
    GoneMeansMarked(p);
    GoneMeansMarked(DeletesFinished(p));
  }

  /** The publish at the end of a startup heals the index, unless it fails before the exchange. */
  lemma RepublishHeals(e: Disk, fault: Fault, b: Disk)
    requires e.next == Absent && e.live.Complete? && GoneRows(e.rows, e.pool) == {} && BlobsMatch(e.rows, e.pool)
    requires if Strikes(fault, e) then PublishFailed(e, e.saved, fault, b) else b == Published(e, e.saved)
    ensures if FailsEarly(fault.at) then b.live == e.live && b.pool == e.pool && b.lost == e.lost else NoDangling(b)
  {
    GoneMeansMarked(e);
    assert StrikesEarly(fault, e) <==> FailsEarly(fault.at);
    if !FailsEarly(fault.at) {
      assert b.rows == e.rows;
      forall p | Lists(b.live, p) ensures p.file in b.pool && b.pool[p.file] == p.sha {
        RebuildLists(e.saved, e.rows, p);
        assert p.nva !in GoneRows(e.rows, e.pool);
      }
    }
  }

  /** What a startup leaves behind that moved a listed blob to the quarantine. */
  lemma OrphanAftermath(mode: Mode, d: Disk, fault: Fault, b: Disk)
    requires Sound(mode, d) && OrphanRisk(d) && StartedUp(d, fault, b)
    ensures NoDangling(b) <==> !FailsEarly(fault.at)
  {
    var e := BeforeRepublish(d);
    BeforeRepublishFacts(d);
    var f :| f in Orphans(d) && ListsFile(d.live, f);
    var p :| Lists(d.live, p) && p.file == f;
    assert Prepared(d).dirty && e == Prepared(d);
    assert p.file !in e.pool && p.file !in e.lost;
    RepublishHeals(e, fault, b);
    if FailsEarly(fault.at) {
      assert Lists(b.live, p);
    }
  }

  /** What a startup leaves behind that deleted a listed package. */
  lemma DeleteAftermath(mode: Mode, d: Disk, fault: Fault, b: Disk)
    requires Sound(mode, d) && !d.pending && DeleteExposed(d) && StartedUp(d, fault, b)
    requires PendingExposed(d, PendingRows(d.rows))
    ensures NoDangling(b) <==> !HasHistory(d.live) && !FailsEarly(fault.at)
  {
    var e := BeforeRepublish(d);
    BeforeRepublishFacts(d);
    PreparedExposure(d);
    var p := DeletedButListed(d);
    assert Clean(e);
    if !HasHistory(d.live) {
      RepublishHeals(e, fault, b);
    }
    if HasHistory(d.live) || FailsEarly(fault.at) {
      assert Lists(b.live, p) && p.file !in b.pool && p.file !in b.lost;
    }
  }

  lemma DeletedButListed(d: Disk) returns (p: Pkg)
    requires !d.pending && DeleteExposed(d) && PendingExposed(d, PendingRows(d.rows))
    ensures var e := BeforeRepublish(d);
            Lists(d.live, p) && e.live == d.live && p.file !in e.pool && p.file !in e.lost
  {
    var n :| n in PendingRows(d.rows) && Lists(d.live, PkgOf(n, d.rows[n])) && d.rows[n].file !in d.lost;
    p := PkgOf(n, d.rows[n]);
    PreparedExposure(d);
    assert OrphansQuarantined(d).pool == d.pool;
    assert n in PendingRows(Prepared(d).rows);
    assert p.file in FilesOf(Prepared(d).rows, PendingRows(Prepared(d).rows));
  }

  /** What an operator could look up before deleting: nothing forces the next startup to publish,
      and the package is in the live index. */
  predicate DeleteRisk(d: Disk, n: Nva)
    requires n in d.rows
  {
    && !d.pending && Clean(d) && Orphans(d) == {}
    && (forall m :: m in d.rows && m != n && d.rows[m].state == Active ==> d.rows[m].file in d.pool)
    && Lists(d.live, PkgOf(n, d.rows[n]))
  }

  /** A startup would already be dangerous: it would move a listed blob to the quarantine. */
  ghost predicate OrphanRisk(d: Disk) { !d.pending && OrphanListed(d, Orphans(d)) }

  lemma MarkKeepsFiles(d: Disk, n: Nva)
    requires n in d.rows
    ensures Orphans(MarkedForDelete(d, n)) == Orphans(d)
    ensures OrphanListed(MarkedForDelete(d, n), Orphans(d)) <==> OrphanListed(d, Orphans(d))
  {
    var m := MarkedForDelete(d, n);
    assert forall k :: k in d.rows ==> m.rows[k].file == d.rows[k].file;
    assert Files(m.rows) == Files(d.rows);
  }

  lemma DeleteRiskIsExposure(mode: Mode, d: Disk, n: Nva)
    requires Sound(mode, d) && Ready(d) && n in d.rows
    ensures DeleteRisk(d, n) || OrphanRisk(d) <==> Exposed(MarkedForDelete(d, n))
    ensures DeleteRisk(d, n) <==> !d.pending && DeleteExposed(MarkedForDelete(d, n))
    ensures DeleteRisk(d, n) && d.rows[n].file in d.pool ==>
              PendingExposed(MarkedForDelete(d, n), PendingRows(MarkedForDelete(d, n).rows))
  {
    var m := MarkedForDelete(d, n);
    MarkKeepsFiles(d, n);
    assert PkgOf(n, m.rows[n]) == PkgOf(n, d.rows[n]);
    assert (MarkMissing(m.rows, m.pool) == m.rows) <==>
           (forall k :: k in d.rows && k != n && d.rows[k].state == Active ==> d.rows[k].file in d.pool) by {
      assert forall k :: k in m.rows && k != n ==> m.rows[k] == d.rows[k];
      forall k | k in d.rows && k != n && d.rows[k].state == Active && d.rows[k].file !in d.pool
        ensures MarkMissing(m.rows, m.pool)[k] != m.rows[k] {}
    }
    if !d.pending && Clean(d) {
      forall k | k in PendingRows(m.rows) && k != n ensures !Lists(m.live, PkgOf(k, m.rows[k])) {
        CurrentListsNoPending(d.live, d.rows, d.saved, k);
      }
    }
    assert n in PendingRows(m.rows);
  }

  /** The process dies between the two commits and the application starts again.  The invariant
      breaks, and some state in between has a dangling entry, exactly when the delete was risky or the
      startup was dangerous anyway.  What the startup leaves behind dangles exactly when the delete was
      risky and nothing makes that startup publish, or when the publish that would have healed it fails
      before the exchange. */
  method DeleteThenDie(r: Repository, n: Nva, recovery: Fault, fault: Fault)
    requires r.Safe() && r.Steady() && n in r.disk.rows
    modifies r
    ensures r.Safe() <==> !DeleteRisk(old(r.disk), n) && !OrphanRisk(old(r.disk))
    ensures old(r.disk).rows[n].file in old(r.disk).pool ==>
              (TraceDangles(r.journal) <==> DeleteRisk(old(r.disk), n) || OrphanRisk(old(r.disk)))
    ensures old(r.disk).rows[n].file in old(r.disk).pool ==>
              (NoDangling(r.disk) <==>
               && (DeleteRisk(old(r.disk), n) ==> !HasHistory(old(r.disk).live) && !FailsEarly(fault.at))
               && (OrphanRisk(old(r.disk)) ==> !FailsEarly(fault.at)))
  {
    DeleteRiskIsExposure(r.mode, r.disk, n);
    MarkKeepsFiles(r.disk, n);
    r.MarkForDelete(n);
    ghost var m := r.disk;
    var _ := r.Startup(recovery, fault);
    if r.Safe() {
      NothingDangles(r.mode, r.journal);
      SoundMeansNoDangling(r.mode, r.disk);
    } else {
      if OrphanRisk(m) {
        OrphanAftermath(r.mode, m, fault, r.disk);
      } else if old(r.disk).rows[n].file in old(r.disk).pool {
        DeleteAftermath(r.mode, m, fault, r.disk);
      }
    }
  }

  /** With the flag in the same commit there is no such state. */
  lemma OneCommitIsSafe(mode: Mode, d: Disk, n: Nva)
    requires Sound(mode, d) && n in d.rows
    ensures var m := MarkedForDelete(d, n).(dirty := true);
            Sound(mode, m) && Step(d, m) && Ready(m) && (Exposed(m) <==> OrphanRisk(d))
  {
    var m := MarkedForDelete(d, n).(dirty := true);
    MarksKeepSound(mode, d, m);
    MarkKeepsFiles(d, n);
    assert Orphans(m) == Orphans(MarkedForDelete(d, n));
  }

  /** Deleting the only package of a freshly published repository is risky. */
  lemma DeleteRiskHappens() returns (d: Disk, n: Nva)
    ensures n in d.rows && d.rows[n].file in d.pool
    ensures Sound(Strict, d) && Ready(d) && DeleteRisk(d, n)
  {
    n := Nva("hello", "1.0-1", "all");
    d := OnePackage(n, "main");
    OnePackageIsSound(n, "main");
  }

  // ----- a listed row that moves to another component --------------------------------------

  /** A listed blob that no row names once the item is placed: one that none named before, or the one
      the package moves off. */
  ghost predicate LeavesBehind(d: Disk, item: Item) {
    var f := PoolFile(d.saved.component, item.nva);
    exists g :: ListsFile(d.live, g) && g in d.pool && g != f &&
                (g in Orphans(d) || (item.nva in d.rows && g == d.rows[item.nva].file))
  }

  /** An upload of this item, with this fault in its publish, makes the next startup take a listed blob
      away: nothing is pending, and the item goes in and leaves such a blob while the publish fails
      before the exchange, or it does not go in and there is such a blob already. */
  ghost predicate UploadRisk(d: Disk, item: Item, fault: Fault) {
    && !d.pending
    && if Outcome(d, d.saved, item).Placed?
       then LeavesBehind(d, item) && StrikesEarly(fault, AfterPlace(d, d.saved, item))
       else OrphanListed(d, Orphans(d))
  }

  /** The same where every live entry is a row as it is: a listed package goes in again under another
      file name while its old blob is there, and the publish fails before the exchange. */
  predicate MoveRisk(d: Disk, item: Item, fault: Fault) {
    && !d.pending && Outcome(d, d.saved, item).Placed?
    && !Stays(d, PoolFile(d.saved.component, item.nva)) && d.rows[item.nva].file in d.pool
    && StrikesEarly(fault, AfterPlace(d, d.saved, item))
  }

  lemma MoveRiskIsUploadRisk(d: Disk, item: Item, fault: Fault)
    requires Sound(Loose, d) && ListedAreRows(d.live, d.rows)
    ensures UploadRisk(d, item, fault) <==> MoveRisk(d, item, fault)
  {
    RowsCoverListed(d);
    var f, n := PoolFile(d.saved.component, item.nva), item.nva;
    if !Stays(d, f) && d.rows[n].file in d.pool {
      assert Lists(d.live, PkgOf(n, d.rows[n]));
      assert ListsFile(d.live, d.rows[n].file);
    }
    if LeavesBehind(d, item) {
      var g :| ListsFile(d.live, g) && g in d.pool && g != f &&
               (g in Orphans(d) || (n in d.rows && g == d.rows[n].file));
      var p :| Lists(d.live, p) && p.file == g;
      assert p.nva in d.rows && PkgOf(p.nva, d.rows[p.nva]) == p;
      assert p.file in Files(d.rows);
    }
  }

  /** Placing the item leaves a listed blob to no row exactly in that case. */
  lemma PlacementOrphans(d: Disk, item: Item)
    requires Sound(Loose, d) && Outcome(d, d.saved, item).Placed?
    ensures var a := AfterPlace(d, d.saved, item); OrphanListed(a, Orphans(a)) <==> LeavesBehind(d, item)
  {
    var f, n := PoolFile(d.saved.component, item.nva), item.nva;
    var a := AfterPlace(d, d.saved, item);
    assert a.rows[n].file == f && f in Files(a.rows);
    forall m | m in d.rows && m != n ensures d.rows[m].file in Files(a.rows) {
      assert a.rows[m].file == d.rows[m].file;
    }
    forall g | g in Orphans(a) && ListsFile(a.live, g) ensures LeavesBehind(d, item) {
      assert ListsFile(d.live, g) && g in d.pool && g != f;
      assert g in Orphans(d) || (n in d.rows && g == d.rows[n].file);
    }
    forall g | ListsFile(d.live, g) && g in d.pool && g != f &&
               (g in Orphans(d) || (n in d.rows && g == d.rows[n].file))
      ensures g in Orphans(a) && ListsFile(a.live, g)
    {
      var p :| Lists(d.live, p) && p.file == g;
      assert Lists(a.live, p);
      forall m | m in a.rows ensures a.rows[m].file != g {
        assert m != n ==> m in d.rows && a.rows[m].file == d.rows[m].file && d.rows[m].file in Files(d.rows);
      }
    }
  }

  /** A current state is no danger to a startup; a dirty one is, exactly if it lists an orphan. */
  lemma ExposureAfterPublish(d: Disk)
    ensures d.dirty ==> (Exposed(d) <==> OrphanRisk(d))
    ensures Current(d.live, d.rows, d.saved) ==> !Exposed(d)
  {
    PreparedExposure(d);
    if Current(d.live, d.rows, d.saved) {
      PreparedListsNoPending(d);
    }
  }

  /** What a failed publish leaves listed. */
  lemma OrphansAfterFailure(a: Disk, fault: Fault, b: Disk)
    requires a.dirty && Strikes(fault, a) && PublishFailed(a, a.saved, fault, b)
    ensures b.dirty
    ensures StrikesEarly(fault, a) ==> (OrphanRisk(b) <==> OrphanRisk(a))
    ensures !StrikesEarly(fault, a) ==> Current(b.live, b.rows, b.saved)
  {
    assert b.rows.Keys == a.rows.Keys && forall n :: n in a.rows ==> b.rows[n].file == a.rows[n].file;
    assert Files(b.rows) == Files(a.rows);
    assert Orphans(b) == Orphans(a);
  }

  lemma UnplacedIsAsBefore(d: Disk, item: Item)
    requires Ready(d) && !Outcome(d, d.saved, item).Placed?
    ensures Exposed(AfterPlace(d, d.saved, item)) <==> !d.pending && OrphanListed(d, Orphans(d))
  {
    var a := AfterPlace(d, d.saved, item);
    assert a == d.(incoming := a.incoming);
    PreparedExposure(a);
    if !d.pending && Clean(d) {
      CurrentListsRows(d.live, d.rows, d.saved);
      ReadyIsNotExposed(a);
      RowsCoverListed(d);
    }
  }

  /** The upload, then a restart.  The restart takes away a blob that is still listed exactly when
      the upload was risky, and the index stays broken exactly when the restart cannot publish either.
      In a repository whose live entries are its rows, the risk is a move. */
  method UploadThenRestart(r: Repository, item: Item, fault: Fault, recovery: Fault, restart: Fault)
    requires r.mode.Loose? && r.Safe() && r.Steady() && Parsed(r.disk, item)
    modifies r
    ensures r.Safe() <==> !UploadRisk(old(r.disk), item, fault)
    ensures TraceDangles(r.journal) <==> UploadRisk(old(r.disk), item, fault)
    ensures NoDangling(r.disk) <==> !(UploadRisk(old(r.disk), item, fault) && FailsEarly(restart.at))
    ensures ListedAreRows(old(r.disk).live, old(r.disk).rows) ==>
              (UploadRisk(old(r.disk), item, fault) <==> MoveRisk(old(r.disk), item, fault))
  {
    ghost var d := r.disk;
    ghost var a := AfterPlace(d, d.saved, item);
    if ListedAreRows(d.live, d.rows) {
      MoveRiskIsUploadRisk(d, item, fault);
    }
    SingleItem(d, item);
    var _, pub, _ := r.UploadCommit([item], fault);
    if Outcome(d, d.saved, item).Placed? {
      PlacementOrphans(d, item);
      ExposureAfterPublish(r.disk);
      if Strikes(fault, a) {
        OrphansAfterFailure(a, fault, r.disk);
      }
    } else {
      UnplacedIsAsBefore(d, item);
    }
    ghost var m := r.disk;
    assert Exposed(m) <==> UploadRisk(d, item, fault);
    assert UploadRisk(d, item, fault) ==> OrphanRisk(m);
    var _ := r.Startup(recovery, restart);
    if r.Safe() {
      NothingDangles(r.mode, r.journal);
      SoundMeansNoDangling(r.mode, r.disk);
    } else {
      OrphanAftermath(r.mode, m, restart, r.disk);
    }
  }

  lemma SingleItem(d: Disk, item: Item)
    ensures AfterAll(d, d.saved, [item]) == (AfterPlace(d, d.saved, item), [Outcome(d, d.saved, item)])
    ensures Parsed(d, item) ==> Fit(Loose, d, d.saved, [item])
  {
    assert [item][..0] == [] && [item][..1] == [item];
    AfterAllStep(d, d.saved, [item], 0);
    assert [] + [Outcome(d, d.saved, item)] == [Outcome(d, d.saved, item)];
  }

  /** The component changed, the listed package is uploaded again, and signing fails. */
  lemma MoveRiskHappens() returns (d: Disk, item: Item, fault: Fault)
    ensures Sound(Loose, d) && Ready(d) && ListedAreRows(d.live, d.rows) && Parsed(d, item)
    ensures MoveRisk(d, item, fault)
  {
    var n := Nva("hello", "1.0-1", "all");
    d := OnePackage(n, "contrib");
    OnePackageIsSound(n, "contrib");
    item := Item(n, "d", "i", false, PlaceNoFault);
    fault := Fault(Build, Recorded);
  }

  /** After that failure, uploading the package once more does not even go in, and is risky again,
      though no row moves. */
  lemma SecondUploadHappens() returns (d: Disk, item: Item)
    ensures Sound(Loose, d) && Ready(d) && Parsed(d, item) && Outcome(d, d.saved, item).Duplicate?
    ensures UploadRisk(d, item, NO_FAULT) && !MoveRisk(d, item, NO_FAULT)
  {
    var n := Nva("hello", "1.0-1", "all");
    var f := PoolFile("contrib", n);
    d := OnePackage(n, "contrib");
    OnePackageIsSound(n, "contrib");
    item := Item(n, "d", "i", false, PlaceNoFault);
    var linked := d.(pool := d.pool[f := "d"], lost := d.lost - {f});
    LinkKeepsSound(Loose, d, f, "d");
    RegisterKeepsSound(Loose, linked, f, "d");
    PlacementOrphans(d, item);
    var g := d.rows[n].file;
    assert ListsFile(d.live, g) && g in d.pool && g != f;
    assert LeavesBehind(d, item);
    var placed := AfterPlace(d, d.saved, item);
    d := placed.(last := Failed, incoming := map["i" := "d"]);
    assert Orphans(d) == Orphans(placed);
  }
}
