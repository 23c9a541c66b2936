/** The source scheduler (prvaptmirror/source_sync.py): claiming, finishing, recovering and queueing
    sources, and the backoff between checks.  Times are whole seconds, as the tables store them. */
module Scheduler {
  import opened Basics

  datatype SourceStatus = Never | Queued | Busy | Done | Faulty

  datatype Source = Source(enabled: bool, status: SourceStatus, nextCheck: int, failures: nat, interval: nat)

  datatype RunStatus = RunBusy | RunDone | RunFaulty

  /** A row of source_runs; its id is its position. */
  datatype SourceRun = SourceRun(source: nat, status: RunStatus)

  type Table = map<nat, Source>

  // ----- claiming --------------------------------------------------------------------------

  predicate Due(s: Source, now: int) { s.enabled && s.status != Busy && s.nextCheck <= now }

  /** A source that can be claimed or queued by hand, due or not. */
  predicate Claimable(t: Table, id: nat) { id in t && t[id].enabled && t[id].status != Busy }

  /** ORDER BY next_check_at, id */
  predicate Precedes(t: Table, a: nat, b: nat)
    requires a in t && b in t
  {
    t[a].nextCheck < t[b].nextCheck || (t[a].nextCheck == t[b].nextCheck && a <= b)
  }

  predicate FirstDue(t: Table, now: int, id: nat) {
    && id in t && Due(t[id], now)
    && forall j :: j in t && Due(t[j], now) ==> Precedes(t, id, j)
  }

  function Claimed(t: Table, id: nat): Table
    requires id in t
  {
    t[id := t[id].(status := Busy)]
  }

  // ----- finishing -------------------------------------------------------------------------

  function Pow2(n: nat): (p: nat)
    ensures p >= 1
  {
    if n == 0 then 1 else 2 * Pow2(n - 1)
  }

  function Min(a: int, b: int): int { if a <= b then a else b }

  /** Seconds until the next check after the given number of failures in a row. */
  function RetrySeconds(interval: nat, failures: nat): int {
    if failures == 0 then interval * 60
    else Min(interval * 60, 60 * Pow2(Min(failures - 1, 8)))
  }

  lemma RetryTable(interval: nat, k: nat)
    requires k >= 1
    ensures RetrySeconds(interval, k) ==
            Min(60 * interval, [60, 120, 240, 480, 960, 1920, 3840, 7680, 15360][if k <= 9 then k - 1 else 8])
  {
    assert Pow2(0) == 1 && Pow2(1) == 2 && Pow2(2) == 4 && Pow2(3) == 8 && Pow2(4) == 16 && Pow2(5) == 32;
    assert Pow2(6) == 64 && Pow2(7) == 128 && Pow2(8) == 256;
  }

  function FailuresAfter(failures: nat, error: bool): nat { if error then failures + 1 else 0 }

  function Finished(t: Table, id: nat, error: bool, now: int): Table {
    if id !in t then t
    else
      var failures := FailuresAfter(t[id].failures, error);
      t[id := t[id].(status := if error then Faulty else Done, failures := failures,
                     nextCheck := now + RetrySeconds(t[id].interval, failures))]
  }

  // ----- the tables ------------------------------------------------------------------------

  class Tables {
    var sources: Table
    var runs: seq<SourceRun>

    constructor (sources: Table)
      requires forall id :: id in sources ==> sources[id].status != Busy
      ensures Valid() && this.sources == sources && runs == []
    {
      this.sources := sources;
      runs := [];
    }

    /** At most one run of a source is under way, and only while the source is marked so. */
    ghost predicate Valid()
      reads this
    {
      && (forall i :: 0 <= i < |runs| && runs[i].status == RunBusy ==>
            runs[i].source in sources && sources[runs[i].source].status == Busy)
      && (forall i, j :: 0 <= i < j < |runs| && runs[i].status == RunBusy && runs[j].status == RunBusy ==>
            runs[i].source != runs[j].source)
    }

    /** The first row of the claiming query. */
    method PickDue(now: int) returns (picked: Option<nat>)
      ensures picked == None <==> forall id :: id in sources ==> !Due(sources[id], now)
      ensures picked.Some? ==> FirstDue(sources, now, picked.value)
    {
      picked := None;
      var todo := sources.Keys;
      while todo != {}
        invariant todo <= sources.Keys
        invariant picked == None ==> forall id :: id in sources && id !in todo ==> !Due(sources[id], now)
        invariant picked.Some? ==>
                    && picked.value in sources && Due(sources[picked.value], now)
                    && forall j :: j in sources && j !in todo && Due(sources[j], now) ==>
                         Precedes(sources, picked.value, j)
      {
        var id :| id in todo;
        if Due(sources[id], now) && (picked == None || Precedes(sources, id, picked.value)) {
          picked := Some(id);
        }
        todo := todo - {id};
      }
    }

    /** _claim_source: of the enabled sources that are not being checked and whose time has come, the
        one whose time came first, and of several such the one with the least id; or the wanted one,
        whether its time has come or not. */
    method ClaimSource(now: int, wanted: Option<nat>) returns (claim: Option<(nat, nat)>)
      requires Valid()
      modifies this
      ensures Valid()
      ensures claim == None ==> sources == old(sources) && runs == old(runs)
      ensures claim.Some? ==>
                && claim.value.0 in old(sources) && old(sources)[claim.value.0].status != Busy
                && sources == old(sources)[claim.value.0 := old(sources)[claim.value.0].(status := Busy)]
                && claim.value.1 == |old(runs)| && runs == old(runs) + [SourceRun(claim.value.0, RunBusy)]
      ensures wanted == None ==>
                (claim == None <==> forall id :: id in old(sources) ==>
                   !old(sources)[id].enabled || old(sources)[id].status == Busy || old(sources)[id].nextCheck > now)
      ensures wanted == None && claim.Some? ==>
                var t, c := old(sources), claim.value.0;
                && t[c].enabled && t[c].nextCheck <= now
                && forall j :: j in t && t[j].enabled && t[j].status != Busy && j != c ==>
                     t[c].nextCheck < t[j].nextCheck || (t[c].nextCheck == t[j].nextCheck && c < j)
      ensures wanted == None && claim.Some? ==> FirstDue(old(sources), now, claim.value.0)
      ensures wanted.Some? ==>
                && (claim.Some? <==>
                      && wanted.value in old(sources) && old(sources)[wanted.value].enabled
                      && old(sources)[wanted.value].status != Busy)
                && (claim.Some? ==> claim.value.0 == wanted.value)
    {
      var picked := None;
      if wanted == None {
        picked := PickDue(now);
      } else if Claimable(sources, wanted.value) {
        picked := wanted;
      }
      if picked == None {
        return None;
      }
      var id := picked.value;
      sources := Claimed(sources, id);
      runs := runs + [SourceRun(id, RunBusy)];
      return Some((id, |runs| - 1));
    }

    /** _finish_source, for the run that its claim returned.  After a success the source is due again
        when its interval has passed; after the k-th error in a row in 1, 2, 4, 8, 16, 32, 64, 128
        minutes and from the ninth on in 256, but never later than that. */
    method FinishSource(id: nat, run: nat, error: bool, now: int)
      requires Valid() && run < |runs| && runs[run] == SourceRun(id, RunBusy)
      modifies this
      ensures Valid() && id in old(sources)
      ensures !error ==>
                var s := old(sources)[id];
                sources == old(sources)[id := s.(status := Done, failures := 0, nextCheck := now + 60 * s.interval)]
      ensures error ==>
                var s, k := old(sources)[id], old(sources)[id].failures + 1;
                var wait := [60, 120, 240, 480, 960, 1920, 3840, 7680, 15360][if k <= 9 then k - 1 else 8];
                sources == old(sources)[id := s.(status := Faulty, failures := k, nextCheck :=
                                                   now + if wait <= 60 * s.interval then wait else 60 * s.interval)]
      ensures sources == Finished(old(sources), id, error, now)
      ensures runs == old(runs)[run := SourceRun(id, if error then RunFaulty else RunDone)]
    {
      RetryTable(sources[id].interval, sources[id].failures + 1);
      sources := Finished(sources, id, error, now);
      runs := runs[run := SourceRun(id, if error then RunFaulty else RunDone)];
    }

    /** The first update of recover_interrupted_source_runs. */
    method RecoverRuns()
      requires Valid()
      modifies this
      ensures Valid() && sources == old(sources) && |runs| == |old(runs)|
      ensures forall i :: 0 <= i < |runs| ==>
                runs[i] == if old(runs)[i].status == RunBusy then old(runs)[i].(status := RunFaulty) else old(runs)[i]
    {
      runs := seq(|runs|, i requires 0 <= i < |runs| reads this =>
        if runs[i].status == RunBusy then runs[i].(status := RunFaulty) else runs[i]);
    }

    /** The second one, a commit of its own: interrupted sources are due at once. */
    method RecoverSources(now: int)
      requires Valid() && forall i :: 0 <= i < |runs| ==> runs[i].status != RunBusy
      modifies this
      ensures Valid() && runs == old(runs)
      ensures sources.Keys == old(sources).Keys
      ensures forall id :: id in sources ==>
                && sources[id].status != Busy
                && sources[id] == if old(sources)[id].status == Busy
                                  then old(sources)[id].(status := Faulty, nextCheck := now) else old(sources)[id]
    {
      sources := map id | id in sources ::
        if sources[id].status == Busy then sources[id].(status := Faulty, nextCheck := now) else sources[id];
    }

    /** queue_source: a manual request, refused while the source is busy or disabled. */
    method QueueSource(id: nat, now: int) returns (queued: bool)
      requires Valid()
      modifies this
      ensures Valid() && runs == old(runs)
      ensures queued <==> id in old(sources) && old(sources)[id].enabled && old(sources)[id].status != Busy
      ensures sources == if queued then old(sources)[id := old(sources)[id].(nextCheck := now, status := Queued)]
                         else old(sources)
    {
      queued := Claimable(sources, id);
      if queued {
        sources := sources[id := sources[id].(nextCheck := now, status := Queued)];
      }
    }
  }

  // ----- fairness --------------------------------------------------------------------------

  datatype Event = Claim(id: nat, now: int) | Finish(id: nat, error: bool, now: int)

  /** The source checks at least every so many minutes; the settings form asks for five. */
  predicate Checked(t: Table) { forall id :: id in t ==> t[id].interval >= 1 }

  ghost predicate Moves(t: Table, e: Event, t': Table) {
    match e
    case Claim(id, now) => FirstDue(t, now, id) && t' == Claimed(t, id)
    case Finish(id, error, now) => id in t && t[id].status == Busy && t' == Finished(t, id, error, now)
  }

  /** A run of the scheduler from time start on, by a clock that does not go back. */
  ghost predicate SchedulerRun(start: int, t: Table, es: seq<Event>, t': Table)
    decreases |es|
  {
    if es == [] then t == t'
    else
      && start <= es[0].now
      && exists mid :: Moves(t, es[0], mid) && SchedulerRun(es[0].now, mid, es[1..], t')
  }

  lemma RetryIsPositive(interval: nat, failures: nat)
    requires interval >= 1
    ensures RetrySeconds(interval, failures) >= 60
  {}

  ghost predicate Claims(es: seq<Event>, id: nat) { exists i :: 0 <= i < |es| && es[i].Claim? && es[i].id == id }

  ghost predicate ClaimsOnce(es: seq<Event>) {
    forall i, j :: 0 <= i < j < |es| && es[i].Claim? && es[j].Claim? ==> es[i].id != es[j].id
  }

  /** x cannot be claimed while s is waiting: it is busy, or scheduled after s. */
  ghost predicate Behind(t: Table, s: nat, x: nat)
    requires s in t
  {
    x !in t || t[x].status == Busy || t[x].nextCheck > t[s].nextCheck
  }

  lemma {:induction false} BehindStaysBehind(start: int, t: Table, es: seq<Event>, t': Table, s: nat, x: nat)
    requires SchedulerRun(start, t, es, t') && Checked(t) && x != s
    requires s in t && Due(t[s], start) && !Claims(es, s) && Behind(t, s, x)
    ensures !Claims(es, x)
    decreases |es|
  {
    if es != [] {
      var mid :| Moves(t, es[0], mid) && SchedulerRun(es[0].now, mid, es[1..], t');
      AfterOneEvent(start, t, es[0], mid, s);
      assert es[0].Claim? ==> es[0].id != x;
      assert es[0].Claim? ==> es[0].id != s by { assert !Claims(es, s); }
      if es[0].Finish? {
        RetryIsPositive(t[es[0].id].interval, FailuresAfter(t[es[0].id].failures, es[0].error));
      }
      ClaimsTail(es, s);
      ClaimsTail(es, x);
      BehindStaysBehind(es[0].now, mid, es[1..], t', s, x);
    }
  }

  lemma ClaimsTail(es: seq<Event>, id: nat)
    requires es != []
    ensures Claims(es, id) <==> (es[0].Claim? && es[0].id == id) || Claims(es[1..], id)
  {}

  lemma AfterOneEvent(start: int, t: Table, e: Event, mid: Table, s: nat)
    requires Moves(t, e, mid) && start <= e.now && Checked(t)
    requires s in t && Due(t[s], start) && !(e.Claim? && e.id == s)
    ensures Checked(mid) && s in mid && mid[s] == t[s] && Due(mid[s], e.now)
  {}

  /** While a due source waits, every other source is claimed at most once before it, whatever
      finishes in between and however it finishes. */
  lemma {:induction false} BoundedBypass(start: int, t: Table, es: seq<Event>, t': Table, s: nat)
    requires SchedulerRun(start, t, es, t') && Checked(t)
    requires s in t && Due(t[s], start) && !Claims(es, s)
    ensures ClaimsOnce(es)
    decreases |es|
  {
    if es != [] {
      var mid :| Moves(t, es[0], mid) && SchedulerRun(es[0].now, mid, es[1..], t');
      ClaimsTail(es, s);
      AfterOneEvent(start, t, es[0], mid, s);
      BoundedBypass(es[0].now, mid, es[1..], t', s);
      if es[0].Claim? {
        BehindStaysBehind(es[0].now, mid, es[1..], t', s, es[0].id);
      }
      forall i, j | 0 <= i < j < |es| && es[i].Claim? && es[j].Claim? ensures es[i].id != es[j].id {
        assert es[j] == es[1..][j - 1];
        if i > 0 {
          assert es[i] == es[1..][i - 1];
        }
      }
    }
  }

  /** So a due source is claimed after at most as many claims as there are other sources. */
  lemma WaitIsBounded(start: int, t: Table, es: seq<Event>, t': Table, s: nat)
    requires SchedulerRun(start, t, es, t') && Checked(t)
    requires s in t && Due(t[s], start) && !Claims(es, s)
    ensures |ClaimedIds(es)| <= |t| - 1
  {
    BoundedBypass(start, t, es, t', s);
    ClaimedIdsFacts(start, t, es, t');
    forall x | x in ClaimedIds(es) ensures x in t.Keys - {s} {
      ClaimedIdsAreClaims(es, x);
    }
    ClaimedIdsDistinct(es);
    DistinctFit(ClaimedIds(es), t.Keys - {s});
  }

  function ClaimedIds(es: seq<Event>): seq<nat> {
    if es == [] then [] else (if es[0].Claim? then [es[0].id] else []) + ClaimedIds(es[1..])
  }

  lemma {:induction false} ClaimedIdsAreClaims(es: seq<Event>, x: nat)
    ensures x in ClaimedIds(es) <==> Claims(es, x)
  {
    if es != [] {
      ClaimsTail(es, x);
      ClaimedIdsAreClaims(es[1..], x);
    }
  }

  lemma {:induction false} ClaimedIdsFacts(start: int, t: Table, es: seq<Event>, t': Table)
    requires SchedulerRun(start, t, es, t')
    ensures forall x :: x in ClaimedIds(es) ==> x in t
    decreases |es|
  {
    if es != [] {
      var mid :| Moves(t, es[0], mid) && SchedulerRun(es[0].now, mid, es[1..], t');
      ClaimedIdsFacts(es[0].now, mid, es[1..], t');
      assert mid.Keys == t.Keys;
    }
  }

  lemma {:induction false} ClaimedIdsDistinct(es: seq<Event>)
    requires ClaimsOnce(es)
    ensures forall i, j :: 0 <= i < j < |ClaimedIds(es)| ==> ClaimedIds(es)[i] != ClaimedIds(es)[j]
  {
    if es != [] {
      assert forall i :: 0 <= i < |es[1..]| ==> es[1..][i] == es[i + 1];
      ClaimedIdsDistinct(es[1..]);
      if es[0].Claim? {
        ClaimedIdsAreClaims(es[1..], es[0].id);
        assert !Claims(es[1..], es[0].id);
      }
    }
  }

  lemma {:induction false} DistinctFit(s: seq<nat>, within: set<nat>)
    requires (forall i, j :: 0 <= i < j < |s| ==> s[i] != s[j]) && forall x :: x in s ==> x in within
    ensures |s| <= |within|
  {
    if s != [] {
      assert s[0] in within;
      assert s == [s[0]] + s[1..];
      DistinctFit(s[1..], within - {s[0]});
    }
  }

  // ----- backoff ---------------------------------------------------------------------------

  /** How the checks of a source ended in the course of a run: true for an error. */
  function Outcomes(es: seq<Event>, id: nat): seq<bool> {
    if es == [] then []
    else (if es[0].Finish? && es[0].id == id then [es[0].error] else []) + Outcomes(es[1..], id)
  }

  /** A failure counter after these outcomes. */
  function CounterAfter(before: nat, outcomes: seq<bool>): nat {
    if outcomes == [] then before
    else FailuresAfter(CounterAfter(before, outcomes[..|outcomes| - 1]), outcomes[|outcomes| - 1])
  }

  lemma {:induction false} CounterAfterHead(before: nat, x: bool, rest: seq<bool>)
    ensures CounterAfter(before, [x] + rest) == CounterAfter(FailuresAfter(before, x), rest)
  {
    if rest == [] {
      assert [x] + rest == [x] && ([x])[..0] == [];
    } else {
      assert ([x] + rest)[..|rest|] == [x] + rest[..|rest| - 1];
      CounterAfterHead(before, x, rest[..|rest| - 1]);
    }
  }

  lemma {:induction false} CounterOverRun(start: int, t: Table, es: seq<Event>, t': Table, id: nat)
    requires SchedulerRun(start, t, es, t') && id in t
    ensures id in t' && t'[id].failures == CounterAfter(t[id].failures, Outcomes(es, id))
    decreases |es|
  {
    if es != [] {
      var mid :| Moves(t, es[0], mid) && SchedulerRun(es[0].now, mid, es[1..], t');
      CounterOverRun(es[0].now, mid, es[1..], t', id);
      if es[0].Finish? && es[0].id == id {
        CounterAfterHead(t[id].failures, es[0].error, Outcomes(es[1..], id));
      } else {
        assert [] + Outcomes(es[1..], id) == Outcomes(es[1..], id);
      }
    }
  }

  lemma {:induction false} TrailingErrors(before: nat, outcomes: seq<bool>)
    ensures var k := CounterAfter(before, outcomes);
            if forall i :: 0 <= i < |outcomes| ==> outcomes[i] then k == before + |outcomes|
            else
              && k < |outcomes| && !outcomes[|outcomes| - k - 1]
              && forall i :: |outcomes| - k <= i < |outcomes| ==> outcomes[i]
  {
    if outcomes != [] {
      TrailingErrors(before, outcomes[..|outcomes| - 1]);
    }
  }

  /** Over any run of the scheduler the counter of a source is the length of the trailing block of
      errors among its own checks, added to what it was if all of them were errors. */
  lemma CounterIsTrailingErrors(start: int, t: Table, es: seq<Event>, t': Table, id: nat)
    requires SchedulerRun(start, t, es, t') && id in t
    ensures id in t'
    ensures var outcomes, k := Outcomes(es, id), t'[id].failures;
            if forall i :: 0 <= i < |outcomes| ==> outcomes[i] then k == t[id].failures + |outcomes|
            else
              && k < |outcomes| && !outcomes[|outcomes| - k - 1]
              && forall i :: |outcomes| - k <= i < |outcomes| ==> outcomes[i]
  {
    CounterOverRun(start, t, es, t', id);
    TrailingErrors(t[id].failures, Outcomes(es, id));
  }

  lemma {:induction false} Pow2Grows(a: nat, b: nat)
    requires a <= b
    ensures Pow2(a) <= Pow2(b)
  {
    if a < b {
      Pow2Grows(a, b - 1);
    }
  }

  /** Waits after failures never shrink, are at least a minute and at most the interval. */
  lemma WaitsGrow(interval: nat, j: nat, k: nat)
    requires interval >= 1 && 1 <= j <= k
    ensures 60 <= RetrySeconds(interval, j) <= RetrySeconds(interval, k) <= 60 * interval
  {}

  lemma {:induction false} ClockGoesOn(start: int, t: Table, es: seq<Event>, t': Table, k: nat)
    requires SchedulerRun(start, t, es, t') && k < |es|
    ensures start <= es[k].now
    decreases |es|
  {
    if k > 0 {
      var mid :| Moves(t, es[0], mid) && SchedulerRun(es[0].now, mid, es[1..], t');
      ClockGoesOn(es[0].now, mid, es[1..], t', k - 1);
    }
  }

  /** A source that is not being checked is left alone until its time has come. */
  lemma {:induction false} NotBefore(start: int, t: Table, es: seq<Event>, t': Table, id: nat, k: nat)
    requires SchedulerRun(start, t, es, t') && id in t && t[id].status != Busy
    requires k < |es| && es[k].id == id
    ensures t[id].nextCheck <= es[k].now
    decreases |es|
  {
    var mid :| Moves(t, es[0], mid) && SchedulerRun(es[0].now, mid, es[1..], t');
    if es[0].id == id {
      if k > 0 {
        ClockGoesOn(es[0].now, mid, es[1..], t', k - 1);
      }
    } else {
      NotBefore(es[0].now, mid, es[1..], t', id, k - 1);
    }
  }

  /** Whatever else the scheduler does, and short of a manual request: when a check of a source ends in
      success, its next check does not begin, let alone end, before its interval has passed; when it
      ends in an error, not before a minute or the interval has. */
  lemma {:induction false} ChecksAreSpaced(start: int, t: Table, es: seq<Event>, t': Table, id: nat, i: nat, k: nat)
    requires SchedulerRun(start, t, es, t') && id in t
    requires i < k < |es| && es[i].Finish? && es[i].id == id && es[k].id == id
    ensures !es[i].error ==> es[k].now >= es[i].now + 60 * t[id].interval
    ensures es[i].error && t[id].interval >= 1 ==> es[k].now >= es[i].now + 60
    decreases |es|
  {
    var mid :| Moves(t, es[0], mid) && SchedulerRun(es[0].now, mid, es[1..], t');
    if i == 0 {
      NotBefore(es[0].now, mid, es[1..], t', id, k - 1);
    } else {
      ChecksAreSpaced(es[0].now, mid, es[1..], t', id, i - 1, k - 1);
    }
  }

  /** The waits after the first k failures in a row. */
  function TotalWait(interval: nat, k: nat): int {
    if k == 0 then 0 else TotalWait(interval, k - 1) + RetrySeconds(interval, k)
  }

  lemma {:induction false} WaitsDouble(interval: nat, k: nat)
    requires k <= 9 && (k > 0 ==> Pow2(k - 1) <= interval)
    ensures TotalWait(interval, k) == 60 * (Pow2(k) - 1)
  {
    if k > 0 {
      if k > 1 {
        Pow2Grows(k - 2, k - 1);
      }
      WaitsDouble(interval, k - 1);
    }
  }
}
