/** The two lock files of the data directory (prvaptmirror/filesystem.py) and the processes that take
    them: the application, a backup, and a restore, which exchanges the directory they are in. */
module Locks {
  import opened Basics

  datatype Lock = ServiceLock | PublishLock

  /** The application holds the service lock shared while it runs, and takes the publish lock for
      each publish.  A backup holds the service lock shared and then the publish lock.  A restore
      takes both exclusively. */
  datatype Role = Application | Backup | Restore

  /** What a process has of a lock file: the inode it opened, and whether flock granted it. */
  datatype Claim = Closed | Opened(inode: nat) | Held(inode: nat)

  /** Names in a directory. */
  type Names = map<Lock, nat>

  /** done counts the steps a restore has taken; staged is the directory it prepares and, after the
      exchange, the old one. */
  datatype Proc = Proc(role: Role, service: Claim, done: nat, staged: Names)

  /** An open file descriptor of the publish lock. */
  datatype Publisher = Publisher(owner: nat, claim: Claim)

  datatype World = World(data: Names, next: nat, procs: map<nat, Proc>, publishers: map<nat, Publisher>)

  /** What a restore does between taking and releasing its locks, as far as names go: link a lock
      file of the data directory into the staged one, exchange the two directories, or link it back
      from the exchanged one. */
  datatype Task = Link(l: Lock) | Exchange | LinkBack(l: Lock)

  type Plan = seq<Task>

  /** prvaptmirror/maintenance.py */
  const RESTORE_PLAN: Plan := [Link(ServiceLock), Link(PublishLock), Exchange]

  // ----- steps -----------------------------------------------------------------------------

  ghost predicate Starts(w: World, w': World, p: nat, role: Role) {
    p !in w.procs && w' == w.(procs := w.procs[p := Proc(role, Closed, 0, map[])])
  }

  /** Opening creates the file if it is not there. */
  function Created(w: World, l: Lock): World {
    if l in w.data then w else w.(data := w.data[l := w.next], next := w.next + 1)
  }

  ghost predicate OpensService(w: World, w': World, p: nat) {
    && p in w.procs && w.procs[p].service.Closed?
    && var c := Created(w, ServiceLock);
       w' == c.(procs := w.procs[p := w.procs[p].(service := Opened(c.data[ServiceLock]))])
  }

  predicate Compatible(a: Proc, b: Proc) { a.role.Restore? || b.role.Restore? ==> a.service != b.service }

  /** flock grants a lock that no conflicting holder has on the same inode. */
  ghost predicate GrantsService(w: World, w': World, p: nat) {
    && p in w.procs && w.procs[p].service.Opened?
    && var held := w.procs[p].(service := Held(w.procs[p].service.inode));
       && (forall q :: q in w.procs && q != p ==> Compatible(held, w.procs[q]))
       && w' == w.(procs := w.procs[p := held])
  }

  /** Only while the service lock is held; a backup and a restore open the publish lock once. */
  ghost predicate OpensPublish(w: World, w': World, p: nat, fd: nat) {
    && p in w.procs && w.procs[p].service.Held? && fd !in w.publishers
    && (w.procs[p].role.Application? || forall g :: g in w.publishers ==> w.publishers[g].owner != p)
    && var c := Created(w, PublishLock);
       w' == c.(publishers := w.publishers[fd := Publisher(p, Opened(c.data[PublishLock]))])
  }

  ghost predicate GrantsPublish(w: World, w': World, fd: nat) {
    && fd in w.publishers && w.publishers[fd].claim.Opened?
    && var held := Held(w.publishers[fd].claim.inode);
       && (forall g :: g in w.publishers && g != fd ==> w.publishers[g].claim != held)
       && w' == w.(publishers := w.publishers[fd := w.publishers[fd].(claim := held)])
  }

  /** A publish or a section ends, normally or not. */
  ghost predicate ClosesPublish(w: World, w': World, fd: nat) {
    fd in w.publishers && w' == w.(publishers := w.publishers - {fd})
  }

  /** The outer section ends, or the lock was busy. */
  ghost predicate ClosesService(w: World, w': World, p: nat) {
    && p in w.procs && (forall g :: g in w.publishers ==> w.publishers[g].owner != p)
    && w' == w.(procs := w.procs - {p})
  }

  /** A killed process loses all its locks at once. */
  ghost predicate Dies(w: World, w': World, p: nat) {
    && p in w.procs
    && w' == w.(procs := w.procs - {p},
                publishers := map g | g in w.publishers && w.publishers[g].owner != p :: w.publishers[g])
  }

  /** The next task of a restore that holds both locks. */
  ghost predicate Works(w: World, w': World, p: nat, plan: Plan) {
    && p in w.procs && w.procs[p].role.Restore? && w.procs[p].service.Held? && w.procs[p].done < |plan|
    && (exists g :: g in w.publishers && w.publishers[g].owner == p && w.publishers[g].claim.Held?)
    && var me := w.procs[p].(done := w.procs[p].done + 1);
       match plan[w.procs[p].done]
       case Link(l) =>
         && l in w.data && l !in me.staged
         && w' == w.(procs := w.procs[p := me.(staged := me.staged[l := w.data[l]])])
       case Exchange =>
         w' == w.(data := me.staged, procs := w.procs[p := me.(staged := w.data)])
       case LinkBack(l) =>
         && l in me.staged && l !in w.data
         && w' == w.(data := w.data[l := me.staged[l]], procs := w.procs[p := me])
  }

  ghost predicate LockStep(w: World, w': World, plan: Plan) {
    || (exists p, role :: Starts(w, w', p, role))
    || (exists p :: OpensService(w, w', p) || GrantsService(w, w', p) || ClosesService(w, w', p) || Dies(w, w', p))
    || (exists p, fd :: OpensPublish(w, w', p, fd))
    || (exists fd :: GrantsPublish(w, w', fd) || ClosesPublish(w, w', fd))
    || (exists p :: Works(w, w', p, plan))
  }

  ghost predicate LockStepAt(ws: seq<World>, i: int, plan: Plan)
    requires 0 < i < |ws|
  {
    LockStep(ws[i - 1], ws[i], plan)
  }

  /** Any interleaving of any number of processes, restores among them. */
  ghost predicate LockRun(ws: seq<World>, plan: Plan) {
    && ws != [] && ws[0].procs == map[] && ws[0].publishers == map[]
    && forall i :: 0 < i < |ws| ==> LockStepAt(ws, i, plan)
  }

  // ----- the invariant ---------------------------------------------------------------------

  /** Before it exchanges the directories, the plan links the service lock. */
  ghost predicate LinksFirst(plan: Plan) {
    forall i :: 0 <= i < |plan| && plan[i] == Exchange ==> Linked(plan, i)
  }

  ghost predicate Linked(plan: Plan, n: nat) { exists i :: 0 <= i < n && i < |plan| && plan[i] == Link(ServiceLock) }

  /** Inside its section. */
  ghost predicate Inside(w: World, p: nat) { p in w.procs && w.procs[p].service.Held? }

  /** Every claim on the service lock is on the inode that bears its name, also in what a restore
      has linked; holders are compatible. */
  ghost predicate ServiceOk(w: World, plan: Plan) {
    && (forall p :: p in w.procs && !w.procs[p].service.Closed? ==>
          ServiceLock in w.data && w.procs[p].service.inode == w.data[ServiceLock])
    && (forall p, q | p in w.procs && q in w.procs && p != q && w.procs[p].service.Held? && w.procs[q].service.Held? ::
          !w.procs[p].role.Restore?)
    && (forall p :: p in w.procs && w.procs[p].done > 0 ==> w.procs[p].service.Held? && w.procs[p].role.Restore?)
    && (forall p :: p in w.procs && Linked(plan, w.procs[p].done) ==>
          && ServiceLock in w.data
          && ServiceLock in w.procs[p].staged && w.procs[p].staged[ServiceLock] == w.data[ServiceLock])
  }

  /** A publisher is inside the section of its owner, and unless that is a restore its claim is on
      the inode that bears the name. */
  ghost predicate PublishOk(w: World) {
    && (forall g :: g in w.publishers ==>
          && w.publishers[g].owner in w.procs && w.procs[w.publishers[g].owner].service.Held?
          && !w.publishers[g].claim.Closed?)
    && (forall g :: g in w.publishers && !w.procs[w.publishers[g].owner].role.Restore? ==>
          PublishLock in w.data && w.publishers[g].claim.inode == w.data[PublishLock])
    && (forall g, h :: g in w.publishers && h in w.publishers && g != h ==>
          && !(w.publishers[g].claim.Held? && w.publishers[g].claim == w.publishers[h].claim)
          && (w.publishers[g].owner == w.publishers[h].owner ==> !w.procs[w.publishers[g].owner].role.Restore?))
  }

  ghost predicate LocksOk(w: World, plan: Plan) { ServiceOk(w, plan) && PublishOk(w) }

  lemma CreatedKeeps(w: World, l: Lock, plan: Plan)
    requires LocksOk(w, plan)
    ensures LocksOk(Created(w, l), plan)
  {}

  lemma StartKeeps(w: World, w': World, plan: Plan, p: nat, role: Role)
    requires LocksOk(w, plan) && Starts(w, w', p, role)
    ensures LocksOk(w', plan)
  {
    assert !Linked(plan, 0);
    assert PublishOk(w');
  }

  lemma OpenServiceKeeps(w: World, w': World, plan: Plan, p: nat)
    requires LocksOk(w, plan) && OpensService(w, w', p)
    ensures LocksOk(w', plan)
  {
    CreatedKeeps(w, ServiceLock, plan);
    var c := Created(w, ServiceLock);
    assert w' == c.(procs := c.procs[p := c.procs[p].(service := Opened(c.data[ServiceLock]))]);
    OpenedServiceOk(c, p, plan);
  }

  lemma OpenedServiceOk(c: World, p: nat, plan: Plan)
    requires LocksOk(c, plan) && ServiceLock in c.data && p in c.procs && c.procs[p].service.Closed?
    ensures LocksOk(c.(procs := c.procs[p := c.procs[p].(service := Opened(c.data[ServiceLock]))]), plan)
  {
    var c' := c.(procs := c.procs[p := c.procs[p].(service := Opened(c.data[ServiceLock]))]);
    assert ServiceOk(c', plan);
    assert PublishOk(c');
  }

  lemma GrantServiceKeeps(w: World, w': World, plan: Plan, p: nat)
    requires LocksOk(w, plan) && GrantsService(w, w', p)
    ensures LocksOk(w', plan)
  {}

  lemma LeavingKeeps(w: World, w': World, plan: Plan, p: nat)
    requires LocksOk(w, plan) && (ClosesService(w, w', p) || Dies(w, w', p))
    ensures LocksOk(w', plan)
  {}

  lemma OpenPublishKeeps(w: World, w': World, plan: Plan, p: nat, fd: nat)
    requires LocksOk(w, plan) && OpensPublish(w, w', p, fd)
    ensures LocksOk(w', plan)
  {
    CreatedKeeps(w, PublishLock, plan);
    assert ServiceOk(w', plan);
    OpenedPublishOk(Created(w, PublishLock), p, fd);
  }

  lemma OpenedPublishOk(c: World, p: nat, fd: nat)
    requires PublishOk(c) && PublishLock in c.data && p in c.procs && c.procs[p].service.Held? && fd !in c.publishers
    requires c.procs[p].role.Application? || forall g :: g in c.publishers ==> c.publishers[g].owner != p
    ensures PublishOk(c.(publishers := c.publishers[fd := Publisher(p, Opened(c.data[PublishLock]))]))
  {}

  lemma GrantPublishKeeps(w: World, w': World, plan: Plan, fd: nat)
    requires LocksOk(w, plan) && GrantsPublish(w, w', fd)
    ensures LocksOk(w', plan)
  {
    assert ServiceOk(w', plan);
    assert PublishOk(w');
  }

  lemma ClosePublishKeeps(w: World, w': World, plan: Plan, fd: nat)
    requires LocksOk(w, plan) && ClosesPublish(w, w', fd)
    ensures LocksOk(w', plan)
  {}

  lemma WorkKeeps(w: World, w': World, plan: Plan, p: nat)
    requires LocksOk(w, plan) && LinksFirst(plan) && Works(w, w', p, plan)
    ensures LocksOk(w', plan)
  {
    WorkKeepsService(w, w', plan, p);
    WorkKeepsPublish(w, w', plan, p);
  }

  lemma WorkKeepsService(w: World, w': World, plan: Plan, p: nat)
    requires ServiceOk(w, plan) && LinksFirst(plan) && Works(w, w', p, plan)
    ensures ServiceOk(w', plan)
  {}

  lemma WorkKeepsPublish(w: World, w': World, plan: Plan, p: nat)
    requires LocksOk(w, plan) && Works(w, w', p, plan)
    ensures PublishOk(w')
  {}

  lemma StepKeepsLocks(w: World, w': World, plan: Plan)
    requires LocksOk(w, plan) && LinksFirst(plan) && LockStep(w, w', plan)
    ensures LocksOk(w', plan)
  {
    if p, role :| Starts(w, w', p, role) {
      StartKeeps(w, w', plan, p, role);
    } else if p :| OpensService(w, w', p) {
      OpenServiceKeeps(w, w', plan, p);
    } else if p :| GrantsService(w, w', p) {
      GrantServiceKeeps(w, w', plan, p);
    } else if p :| ClosesService(w, w', p) || Dies(w, w', p) {
      LeavingKeeps(w, w', plan, p);
    } else if p, fd :| OpensPublish(w, w', p, fd) {
      OpenPublishKeeps(w, w', plan, p, fd);
    } else if fd :| GrantsPublish(w, w', fd) {
      GrantPublishKeeps(w, w', plan, fd);
    } else if fd :| ClosesPublish(w, w', fd) {
      ClosePublishKeeps(w, w', plan, fd);
    } else {
      var p :| Works(w, w', p, plan);
      WorkKeeps(w, w', plan, p);
    }
  }

  lemma {:induction false} LocksStayOk(ws: seq<World>, plan: Plan, i: nat)
    requires LockRun(ws, plan) && LinksFirst(plan) && i < |ws|
    ensures LocksOk(ws[i], plan)
  {
    if i > 0 {
      LocksStayOk(ws, plan, i - 1);
      assert LockStepAt(ws, i, plan);
      StepKeepsLocks(ws[i - 1], ws[i], plan);
    }
  }

  // ----- what it is for --------------------------------------------------------------------

  /** Nobody else is inside a section while a restore is, and no two hold the publish lock. */
  ghost predicate Exclusive(w: World) {
    && (forall p, q :: Inside(w, p) && Inside(w, q) && p != q ==>
          !w.procs[p].role.Restore? && !w.procs[q].role.Restore?)
    && (forall g, h | g in w.publishers && h in w.publishers && g != h ::
          !w.publishers[g].claim.Held? || !w.publishers[h].claim.Held?)
  }

  lemma OkMeansExclusive(w: World, plan: Plan)
    requires LocksOk(w, plan)
    ensures Exclusive(w)
  {}

  /** Over every interleaving and any number of restores, with directories exchanged under the feet
      of processes that wait for a lock: a restore overlaps no application, backup or other restore,
      and no two publishes, backups or restores overlap. */
  lemma RestoresAreAlone(ws: seq<World>, i: nat)
    requires LockRun(ws, RESTORE_PLAN) && i < |ws|
    ensures Exclusive(ws[i])
  {
    SourceLinksFirst();
    LocksStayOk(ws, RESTORE_PLAN, i);
    OkMeansExclusive(ws[i], RESTORE_PLAN);
  }

  lemma SourceLinksFirst()
    ensures LinksFirst(RESTORE_PLAN)
  {
    assert RESTORE_PLAN[0] == Link(ServiceLock);
  }

  // ----- and nobody is kept out without need -----------------------------------------------

  /** In any run, whoever has opened the service lock is granted it exactly unless it is a restore and
      somebody is inside, or a restore is inside: applications and backups share it. */
  lemma GrantedIff(ws: seq<World>, i: nat, p: nat)
    requires LockRun(ws, RESTORE_PLAN) && i < |ws| && p in ws[i].procs && ws[i].procs[p].service.Opened?
    ensures (exists w' :: GrantsService(ws[i], w', p)) <==>
            forall q :: q in ws[i].procs && q != p && ws[i].procs[q].service.Held? ==>
              ws[i].procs[p].role != Restore && ws[i].procs[q].role != Restore
  {
    var w := ws[i];
    SourceLinksFirst();
    LocksStayOk(ws, RESTORE_PLAN, i);
    var held := w.procs[p].(service := Held(w.procs[p].service.inode));
    if forall q :: q in w.procs && q != p && w.procs[q].service.Held? ==>
         w.procs[p].role != Restore && w.procs[q].role != Restore {
      assert GrantsService(w, w.(procs := w.procs[p := held]), p);
    }
    if w' :| GrantsService(w, w', p) {
      forall q | q in w.procs && q != p && w.procs[q].service.Held?
        ensures w.procs[p].role != Restore && w.procs[q].role != Restore
      {
        assert Compatible(held, w.procs[q]);
      }
    }
  }

  /** Of applications and backups, whoever has opened the publish lock is granted it exactly if none of
      them holds it; a restore is not inside then. */
  lemma PublishGrantedIff(ws: seq<World>, i: nat, fd: nat)
    requires LockRun(ws, RESTORE_PLAN) && i < |ws| && fd in ws[i].publishers && ws[i].publishers[fd].claim.Opened?
    requires ws[i].publishers[fd].owner in ws[i].procs && ws[i].procs[ws[i].publishers[fd].owner].role != Restore
    ensures (exists w' :: GrantsPublish(ws[i], w', fd)) <==>
            forall g :: g in ws[i].publishers && g != fd ==> !ws[i].publishers[g].claim.Held?
  {
    var w := ws[i];
    SourceLinksFirst();
    LocksStayOk(ws, RESTORE_PLAN, i);
    var held := Held(w.publishers[fd].claim.inode);
    forall g | g in w.publishers ensures w.publishers[g].claim.inode == held.inode {
      assert Inside(w, w.publishers[g].owner) && Inside(w, w.publishers[fd].owner);
    }
    if forall g :: g in w.publishers && g != fd ==> !w.publishers[g].claim.Held? {
      assert GrantsPublish(w, w.(publishers := w.publishers[fd := w.publishers[fd].(claim := held)]), fd);
    }
    if w' :| GrantsPublish(w, w', fd) {
      forall g | g in w.publishers && g != fd ensures !w.publishers[g].claim.Held? {
        assert w.publishers[g].claim != held;
      }
    }
  }

  /** A restore can be carried through: it takes both locks in a fresh data directory, links them and
      exchanges the directories, both of which bear the same lock files then. */
  lemma RestoreCompletes() returns (ws: seq<World>)
    ensures LockRun(ws, RESTORE_PLAN)
    ensures var w := ws[|ws| - 1];
            && 0 in w.procs && w.procs[0].role == Restore && w.procs[0].done == |RESTORE_PLAN|
            && w.data == w.procs[0].staged == map[ServiceLock := 0, PublishLock := 1]
  {
    ws := TakesLocks(RESTORE_PLAN);
    var w := ws[|ws| - 1];
    var r := w.procs[0];
    assert w.publishers[0].owner == 0 && w.publishers[0].claim.Held?;
    var w1 := w.(procs := map[0 := r.(done := 1, staged := map[ServiceLock := 0])]);
    assert Works(w, w1, 0, RESTORE_PLAN);
    RunExtends(ws, w1, RESTORE_PLAN);
    ws := ws + [w1];
    var both := map[ServiceLock := 0, PublishLock := 1];
    var w2 := w1.(procs := map[0 := r.(done := 2, staged := both)]);
    assert Works(w1, w2, 0, RESTORE_PLAN);
    RunExtends(ws, w2, RESTORE_PLAN);
    ws := ws + [w2];
    var w3 := w2.(procs := map[0 := r.(done := 3, staged := both)]);
    assert Works(w2, w3, 0, RESTORE_PLAN);
    RunExtends(ws, w3, RESTORE_PLAN);
    ws := ws + [w3];
  }

  // ----- what it rests on ------------------------------------------------------------------

  lemma RunExtends(ws: seq<World>, w: World, plan: Plan)
    requires LockRun(ws, plan) && LockStep(ws[|ws| - 1], w, plan)
    ensures LockRun(ws + [w], plan)
  {
    forall i | 0 < i < |ws + [w]| ensures LockStepAt(ws + [w], i, plan) {
      if i < |ws| {
        assert LockStepAt(ws, i, plan);
      }
    }
  }

  /** A restore that exchanges the directories having linked at most the publish lock leaves no
      service lock file in the data directory. */
  lemma UnlinkedExchange(plan: Plan, publishLinked: bool) returns (ws: seq<World>)
    requires |plan| >= 2 || (|plan| == 1 && !publishLinked)
    requires if publishLinked then plan[0] == Link(PublishLock) && plan[1] == Exchange else plan[0] == Exchange
    ensures LockRun(ws, plan)
    ensures var w := ws[|ws| - 1];
            && ServiceLock !in w.data && w.next == 2
            && w.procs.Keys == {0} && w.procs[0].role == Restore && w.procs[0].service == Held(0)
  {
    ws := TakesLocks(plan);
    var w := ws[|ws| - 1];
    var r := w.procs[0];
    assert w.publishers[0].owner == 0 && w.publishers[0].claim.Held?;
    if publishLinked {
      var linked := w.(procs := map[0 := r.(done := 1, staged := map[PublishLock := 1])]);
      assert Works(w, linked, 0, plan);
      RunExtends(ws, linked, plan);
      ws := ws + [linked];
    }
    var before := ws[|ws| - 1];
    var me := before.procs[0];
    var exchanged := before.(data := me.staged, procs := map[0 := me.(done := me.done + 1, staged := before.data)]);
    assert Works(before, exchanged, 0, plan);
    RunExtends(ws, exchanged, plan);
    ws := ws + [exchanged];
  }

  /** So another process creates one and is let in. */
  lemma Overlap(plan: Plan, publishLinked: bool) returns (ws: seq<World>)
    requires |plan| >= 2 || (|plan| == 1 && !publishLinked)
    requires if publishLinked then plan[0] == Link(PublishLock) && plan[1] == Exchange else plan[0] == Exchange
    ensures LockRun(ws, plan) && !Exclusive(ws[|ws| - 1])
  {
    ws := UnlinkedExchange(plan, publishLinked);
    var more := LetsIn(ws[|ws| - 1], plan);
    RunExtends(ws, more[0], plan);
    RunExtends(ws + [more[0]], more[1], plan);
    RunExtends(ws + [more[0]] + [more[1]], more[2], plan);
    ws := ws + [more[0]] + [more[1]] + [more[2]];
    var last := ws[|ws| - 1];
    assert Inside(last, 0) && Inside(last, 1);
  }

  /** Where there is no service lock file, an application gets in whoever is inside. */
  lemma LetsIn(w: World, plan: Plan) returns (ws: seq<World>)
    requires ServiceLock !in w.data && 1 !in w.procs
    requires forall q :: q in w.procs ==> w.procs[q].service != Held(w.next)
    ensures |ws| == 3 && LockStep(w, ws[0], plan) && LockStep(ws[0], ws[1], plan) && LockStep(ws[1], ws[2], plan)
    ensures Inside(ws[2], 1) && forall q :: q in w.procs ==> q in ws[2].procs && ws[2].procs[q] == w.procs[q]
  {
    var p := Proc(Application, Closed, 0, map[]);
    var w1 := w.(procs := w.procs[1 := p]);
    var c := Created(w, ServiceLock);
    var w2 := c.(procs := w.procs[1 := p.(service := Opened(w.next))]);
    var w3 := c.(procs := w.procs[1 := p.(service := Held(w.next))]);
    assert Starts(w, w1, 1, Application);
    assert OpensService(w1, w2, 1);
    assert GrantsService(w2, w3, 1);
    ws := [w1, w2, w3];
  }

  /** A restore takes both locks in a fresh data directory. */
  lemma TakesLocks(plan: Plan) returns (ws: seq<World>)
    ensures LockRun(ws, plan)
    ensures ws[|ws| - 1] == World(map[ServiceLock := 0, PublishLock := 1], 2,
                                  map[0 := Proc(Restore, Held(0), 0, map[])], map[0 := Publisher(0, Held(1))])
  {
    var p := Proc(Restore, Closed, 0, map[]);
    var w0 := World(map[], 0, map[], map[]);
    var w1 := w0.(procs := map[0 := p]);
    var w2 := World(map[ServiceLock := 0], 1, map[0 := p.(service := Opened(0))], map[]);
    var w3 := w2.(procs := map[0 := p.(service := Held(0))]);
    var w4 := World(map[ServiceLock := 0, PublishLock := 1], 2, w3.procs, map[0 := Publisher(0, Opened(1))]);
    var w5 := w4.(publishers := map[0 := Publisher(0, Held(1))]);
    assert Starts(w0, w1, 0, Restore);
    assert OpensService(w1, w2, 0);
    assert GrantsService(w2, w3, 0);
    assert OpensPublish(w3, w4, 0, 0);
    assert GrantsPublish(w4, w5, 0);
    ws := [w0, w1, w2, w3, w4, w5];
    forall i | 0 < i < |ws| ensures LockStepAt(ws, i, plan) {}
  }

  /** Linking the lock files only after the exchange is too late. */
  lemma LinkingLateFails() returns (ws: seq<World>)
    ensures LockRun(ws, [Exchange, LinkBack(ServiceLock), LinkBack(PublishLock)]) && !Exclusive(ws[|ws| - 1])
  {
    ws := Overlap([Exchange, LinkBack(ServiceLock), LinkBack(PublishLock)], false);
  }

  /** The plan that links some lock files and then exchanges. */
  function PlanOf(links: seq<Lock>): Plan {
    if links == [] then [Exchange] else [Link(links[0])] + PlanOf(links[1..])
  }

  lemma {:induction false} PlanOfFacts(links: seq<Lock>)
    ensures |PlanOf(links)| == |links| + 1 && PlanOf(links)[|links|] == Exchange
    ensures forall i :: 0 <= i < |links| ==> PlanOf(links)[i] == Link(links[i])
  {
    if links != [] {
      PlanOfFacts(links[1..]);
    }
  }

  /** Which of the lock files are linked first: exclusion holds in every run exactly if the service
      lock is among them.  The publish lock alone does not do, and is not needed. */
  lemma ExclusionIff(links: seq<Lock>)
    requires Distinct(links)
    ensures ServiceLock in links <==>
            forall ws: seq<World>, i :: LockRun(ws, PlanOf(links)) && 0 <= i < |ws| ==> Exclusive(ws[i])
  {
    var plan := PlanOf(links);
    PlanOfFacts(links);
    if ServiceLock in links {
      var k :| 0 <= k < |links| && links[k] == ServiceLock;
      assert plan[k] == Link(ServiceLock);
      forall ws: seq<World>, i | LockRun(ws, plan) && 0 <= i < |ws| ensures Exclusive(ws[i]) {
        LocksStayOk(ws, plan, i);
        OkMeansExclusive(ws[i], plan);
      }
    } else {
      assert forall i :: 0 <= i < |links| ==> links[i] == PublishLock;
      assert |links| <= 1;
      var ws := Overlap(plan, links != []);
      assert !Exclusive(ws[|ws| - 1]);
    }
  }
}
