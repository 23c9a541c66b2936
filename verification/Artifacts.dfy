/** One batch of remote assets of a source (prvaptmirror/source_sync.py, _process_assets), on top of
    the repository that takes the packages in. */
module Artifacts {
  import opened Basics
  import opened RepositoryState
  import opened Engine

  datatype Status = Pending | Imported | Skipped | Rejected | Conflict | Failed

  /** What downloading and parsing an asset comes to: a validation error or any other exception,
      before or after the file had landed under some path, or an incoming file and what it was parsed
      as. */
  datatype Fetch = Invalid(landed: Option<string>) | Broken(landed: Option<string>) | Fetched(item: Item)

  datatype Asset = Asset(id: string, fetch: Fetch)

  type Table = map<string, Status>

  predicate Final(s: Status) { s.Imported? || s.Skipped? || s.Rejected? || s.Conflict? }

  predicate Retryable(s: Status) { s.Rejected? || s.Conflict? }

  /** _begin_artifact goes ahead with the asset. */
  predicate Begins(t: Table, id: string, manual: bool) {
    id in t && Final(t[id]) ==> manual && Retryable(t[id])
  }

  /** A batch goes ahead with an asset that is new, pending or failed, and on a manual request with one
      that was rejected or in conflict. */
  predicate Goes(t: Table, id: string, manual: bool) {
    || id !in t || t[id] == Pending || t[id] == Status.Failed
    || (manual && (t[id] == Rejected || t[id] == Conflict))
  }

  /** What no batch changes: all others. */
  ghost predicate Absorbs(before: Table, after: Table, manual: bool) {
    forall id :: id in before && !Goes(before, id, manual) ==> id in after && after[id] == before[id]
  }

  /** The repository has this very package. */
  predicate Registered(d: Disk, item: Item) { item.nva in d.rows && d.rows[item.nva].sha == item.sha }

  /** What becomes of a fetched asset: it went in, it was there already, or another one was. */
  function Verdict(d: Disk, item: Item, p: Placement): Status {
    if p.Placed? then Imported
    else if Registered(d, item) then Skipped
    else Conflict
  }

  /** The status says truly whether the repository has the package that was fetched. */
  predicate Honest(d: Disk, item: Item, s: Status) {
    && (s.Imported? || s.Skipped? || s.Conflict?)
    && (s.Conflict? <==> !Registered(d, item))
  }

  /** What a batch that returns normally makes of an asset it went ahead with. */
  predicate Settled(d: Disk, a: Asset, s: Status) {
    match a.fetch
    case Invalid(_) => s.Rejected?
    case Broken(_) => s == Status.Failed
    case Fetched(item) => Honest(d, item, s)
  }

  function PlacedCount(results: seq<Placement>): nat {
    if results == [] then 0
    else PlacedCount(results[..|results| - 1]) + if results[|results| - 1].Placed? then 1 else 0
  }

  lemma {:induction false} SomePlaced(results: seq<Placement>)
    ensures PlacedCount(results) > 0 <==> exists p :: p in results && p.Placed?
  {
    if results != [] {
      SomePlaced(results[..|results| - 1]);
      assert results == results[..|results| - 1] + [results[|results| - 1]];
    }
  }

  /** The incoming file the asset was downloaded to, if it got that far. */
  function PathOf(a: Asset): Option<string> {
    match a.fetch
    case Fetched(item) => Some(item.path)
    case Invalid(landed) => landed
    case Broken(landed) => landed
  }

  /** Incoming files get names nobody used. */
  ghost predicate FreshPaths(d: Disk, assets: seq<Asset>) {
    && (forall a :: a in assets && PathOf(a).Some? ==> PathOf(a).value !in d.incoming)
    && (forall i, j :: 0 <= i < j < |assets| && PathOf(assets[i]).Some? && PathOf(assets[j]).Some? ==>
          PathOf(assets[i]) != PathOf(assets[j]))
  }

  /** The mode admits the files of all assets: in a strict repository, none would move the file name
      of a listed package. */
  ghost predicate InPlace(mode: Mode, d: Disk, assets: seq<Asset>) {
    forall a :: a in assets && a.fetch.Fetched? ==> Admits(mode, d, PoolFile(d.saved.component, a.fetch.item.nva))
  }

  // ----- the first loop, as a function -----------------------------------------------------

  /** The artifact table, what was fetched under which id, and the counters. */
  datatype Batch = Batch(table: Table, items: seq<Item>, ids: seq<string>, skipped: nat, failed: nat)

  function AfterAsset(b: Batch, a: Asset, manual: bool): Batch {
    if !Begins(b.table, a.id, manual) then b.(skipped := b.skipped + 1)
    else
      match a.fetch
      case Fetched(item) => b.(table := b.table[a.id := Pending], items := b.items + [item], ids := b.ids + [a.id])
      case Invalid(_) => b.(table := b.table[a.id := Rejected], skipped := b.skipped + 1)
      case Broken(_) => b.(table := b.table[a.id := Status.Failed], failed := b.failed + 1)
  }

  function AfterAssets(t: Table, assets: seq<Asset>, manual: bool): Batch {
    if assets == [] then Batch(t, [], [], 0, 0)
    else AfterAsset(AfterAssets(t, assets[..|assets| - 1], manual), assets[|assets| - 1], manual)
  }

  lemma AfterAssetsStep(t: Table, assets: seq<Asset>, manual: bool, i: nat)
    requires i < |assets|
    ensures AfterAssets(t, assets[..i + 1], manual) ==
            AfterAsset(AfterAssets(t, assets[..i], manual), assets[i], manual)
  {
    assert assets[..i + 1][..i] == assets[..i];
  }

  /** Every asset is counted once, and settled artifacts are left alone. */
  lemma {:induction false} FetchingFacts(t: Table, assets: seq<Asset>, manual: bool)
    ensures var b := AfterAssets(t, assets, manual);
            && |b.items| == |b.ids| && |assets| == |b.items| + b.skipped + b.failed
            && Absorbs(t, b.table, manual)
            && (forall id :: id in b.ids ==> Begins(t, id, manual))
            && (forall id :: id in t && Begins(b.table, id, manual) ==> Begins(t, id, manual))
            && (forall it :: it in b.items ==> exists k :: 0 <= k < |assets| && assets[k].fetch == Fetched(it))
  {
    if assets != [] {
      FetchingFacts(t, assets[..|assets| - 1], manual);
    }
  }

  ghost predicate DistinctIds(assets: seq<Asset>) {
    forall i, j :: 0 <= i < j < |assets| ==> assets[i].id != assets[j].id
  }

  function IdsOf(assets: seq<Asset>): set<string> { set a | a in assets :: a.id }

  lemma {:induction false} FetchedIds(t: Table, assets: seq<Asset>, manual: bool)
    ensures forall id :: id in AfterAssets(t, assets, manual).ids ==> id in IdsOf(assets)
  {
    if assets != [] {
      FetchedIds(t, assets[..|assets| - 1], manual);
      assert assets == assets[..|assets| - 1] + [assets[|assets| - 1]];
      assert assets[|assets| - 1].id in IdsOf(assets);
    }
  }

  /** An asset the batch went ahead with is rejected, failed, or among the fetched. */
  ghost predicate Taken(b: Batch, a: Asset) {
    match a.fetch
    case Invalid(_) => a.id in b.table && b.table[a.id] == Rejected && a.id !in b.ids
    case Broken(_) => a.id in b.table && b.table[a.id] == Status.Failed && a.id !in b.ids
    case Fetched(item) => exists i :: 0 <= i < |b.ids| && i < |b.items| && b.ids[i] == a.id && b.items[i] == item
  }

  lemma {:induction false} OthersUntouched(t: Table, assets: seq<Asset>, manual: bool, id: string)
    requires id !in IdsOf(assets)
    ensures var b := AfterAssets(t, assets, manual);
            id !in b.ids && (id in b.table <==> id in t) && (id in t ==> b.table[id] == t[id])
  {
    if assets != [] {
      var before, a := assets[..|assets| - 1], assets[|assets| - 1];
      assert assets == before + [a];
      assert a in assets && id != a.id;
      OthersUntouched(t, before, manual, id);
    }
  }

  /** With distinct ids the batch takes each asset on its own. */
  lemma {:induction false} BatchFacts(t: Table, assets: seq<Asset>, manual: bool)
    requires DistinctIds(assets)
    ensures var b := AfterAssets(t, assets, manual);
            && |b.items| == |b.ids|
            && Distinct(b.ids)
            && (forall k :: 0 <= k < |assets| && Begins(t, assets[k].id, manual) ==> Taken(b, assets[k]))
  {
    if assets != [] {
      var before, a := assets[..|assets| - 1], assets[|assets| - 1];
      BatchFacts(t, before, manual);
      var b0, b := AfterAssets(t, before, manual), AfterAssets(t, assets, manual);
      assert a.id !in IdsOf(before);
      OthersUntouched(t, before, manual, a.id);
      forall k | 0 <= k < |before| && Begins(t, assets[k].id, manual) ensures Taken(b, assets[k]) {
        assert before[k] == assets[k];
        TakenStays(b0, a, manual, before[k]);
      }
      if a.fetch.Fetched? && Begins(t, a.id, manual) {
        assert b.ids[|b0.ids|] == a.id && b.items[|b0.ids|] == a.fetch.item;
      }
    }
  }

  lemma TakenStays(b: Batch, a: Asset, manual: bool, x: Asset)
    requires |b.items| == |b.ids| && Taken(b, x) && x.id != a.id
    ensures Taken(AfterAsset(b, a, manual), x)
  {
    if x.fetch.Fetched? {
      var c := AfterAsset(b, a, manual);
      var i :| 0 <= i < |b.ids| && b.ids[i] == x.id && b.items[i] == x.fetch.item;
      assert c.ids[i] == x.id && c.items[i] == x.fetch.item;
    }
  }

  /** The fetched ones come out as the second loop settled them, the others as the first left them. */
  lemma BatchSettles(t: Table, assets: seq<Asset>, manual: bool, after: Table, d: Disk)
    requires DistinctIds(assets)
    requires var b := AfterAssets(t, assets, manual);
             && (forall id :: id in b.table && id !in b.ids ==> id in after && after[id] == b.table[id])
             && (forall i :: 0 <= i < |b.ids| && i < |b.items| ==>
                   b.ids[i] in after && Honest(d, b.items[i], after[b.ids[i]]))
    ensures AllSettled(t, assets, manual, after, d)
  {
    BatchFacts(t, assets, manual);
    var b := AfterAssets(t, assets, manual);
    forall k | 0 <= k < |assets| && Begins(t, assets[k].id, manual)
      ensures assets[k].id in after && Settled(d, assets[k], after[assets[k].id])
    {
      assert Taken(b, assets[k]);
    }
  }

  ghost predicate AllSettled(t: Table, assets: seq<Asset>, manual: bool, after: Table, d: Disk) {
    forall k :: 0 <= k < |assets| && Goes(t, assets[k].id, manual) ==>
      assets[k].id in after && Settled(d, assets[k], after[assets[k].id])
  }

  // ----- the counters ----------------------------------------------------------------------

  /** The assets the batch went ahead with that ended with this status. */
  ghost function EndedAs(t: Table, assets: seq<Asset>, manual: bool, after: Table, s: Status): set<string> {
    set a | a in assets && Goes(t, a.id, manual) && a.id in after && after[a.id] == s :: a.id
  }

  ghost function ImportedIds(ids: seq<string>, after: Table): set<string> {
    set id | id in ids && id in after && after[id] == Imported
  }

  ghost function BrokenIds(t: Table, assets: seq<Asset>, manual: bool): set<string> {
    set a | a in assets && Goes(t, a.id, manual) && a.fetch.Broken? :: a.id
  }

  lemma BrokenIdsSnoc(t: Table, before: seq<Asset>, a: Asset, manual: bool)
    ensures BrokenIds(t, before + [a], manual) ==
            BrokenIds(t, before, manual) + if Goes(t, a.id, manual) && a.fetch.Broken? then {a.id} else {}
  {
    var all := before + [a];
    forall x ensures x in all <==> x in before || x == a {}
  }

  lemma FailedStep(t: Table, before: seq<Asset>, a: Asset, manual: bool)
    requires a.id !in IdsOf(before)
    ensures AfterAssets(t, before + [a], manual).failed ==
            AfterAssets(t, before, manual).failed + if Goes(t, a.id, manual) && a.fetch.Broken? then 1 else 0
  {
    assert (before + [a])[..|before|] == before;
    OthersUntouched(t, before, manual, a.id);
  }

  lemma {:induction false} FailedAreCounted(t: Table, assets: seq<Asset>, manual: bool)
    requires DistinctIds(assets)
    ensures AfterAssets(t, assets, manual).failed == |BrokenIds(t, assets, manual)|
  {
    if assets != [] {
      var before, a := assets[..|assets| - 1], assets[|assets| - 1];
      assert assets == before + [a];
      FailedAreCounted(t, before, manual);
      NewId(before, a);
      FailedStep(t, before, a, manual);
      BrokenIdsSnoc(t, before, a, manual);
      assert a.id !in BrokenIds(t, before, manual);
    } else {
      assert BrokenIds(t, assets, manual) == {};
    }
  }

  lemma NewId(before: seq<Asset>, a: Asset)
    requires DistinctIds(before + [a])
    ensures DistinctIds(before) && a.id !in IdsOf(before)
  {
    var all := before + [a];
    assert all[|before|] == a && forall i :: 0 <= i < |before| ==> all[i] == before[i];
  }

  ghost function PlacedIds(ids: seq<string>, results: seq<Placement>): set<string>
    requires |ids| == |results|
  {
    set j | 0 <= j < |ids| && results[j].Placed? :: ids[j]
  }

  lemma {:induction false} PlacedAreCounted(ids: seq<string>, results: seq<Placement>)
    requires |ids| == |results| && Distinct(ids)
    ensures PlacedCount(results) == |PlacedIds(ids, results)|
  {
    if ids != [] {
      var n := |ids| - 1;
      PlacedAreCounted(ids[..n], results[..n]);
      var fewer := PlacedIds(ids[..n], results[..n]);
      if results[n].Placed? {
        assert PlacedIds(ids, results) == fewer + {ids[n]};
        assert ids[n] !in fewer;
      } else {
        assert PlacedIds(ids, results) == fewer;
      }
    }
  }

  lemma ImportedAreCounted(ids: seq<string>, results: seq<Placement>, after: Table)
    requires |ids| == |results| && Distinct(ids)
    requires forall i :: 0 <= i < |ids| ==> ids[i] in after && (after[ids[i]] == Imported <==> results[i].Placed?)
    ensures PlacedCount(results) == |ImportedIds(ids, after)|
  {
    PlacedAreCounted(ids, results);
    assert ImportedIds(ids, after) == PlacedIds(ids, results);
  }

  lemma VerdictsAreHonest(d: Disk, items: seq<Item>, ids: seq<string>, results: seq<Placement>, after: Table)
    requires |items| == |ids| == |results| && Distinct(ids)
    requires forall i :: 0 <= i < |ids| ==> ids[i] in after && after[ids[i]] == Verdict(d, items[i], results[i])
    requires forall i :: 0 <= i < |ids| && results[i].Placed? ==> Registered(d, items[i])
    ensures forall i :: 0 <= i < |ids| ==> ids[i] in after && Honest(d, items[i], after[ids[i]])
    ensures PlacedCount(results) == |ImportedIds(ids, after)|
  {
    ImportedAreCounted(ids, results, after);
  }

  lemma SettledAsset(t: Table, assets: seq<Asset>, manual: bool, after: Table, d: Disk, a: Asset)
    requires DistinctIds(assets) && AllSettled(t, assets, manual, after, d) && a in assets && Goes(t, a.id, manual)
    ensures a.id in after && Settled(d, a, after[a.id])
    ensures a.fetch.Fetched? ==> a.id in AfterAssets(t, assets, manual).ids
  {
    var k :| 0 <= k < |assets| && assets[k] == a;
    BatchFacts(t, assets, manual);
    assert Taken(AfterAssets(t, assets, manual), a);
  }

  /** With distinct ids the counters say how many assets ended as imported and as failed. */
  lemma CountersAreRight(t: Table, assets: seq<Asset>, manual: bool, after: Table, d: Disk)
    requires DistinctIds(assets) && AllSettled(t, assets, manual, after, d)
    ensures EndedAs(t, assets, manual, after, Status.Failed) == BrokenIds(t, assets, manual)
    ensures EndedAs(t, assets, manual, after, Imported) ==
            ImportedIds(AfterAssets(t, assets, manual).ids, after)
  {
    var ids := AfterAssets(t, assets, manual).ids;
    FetchingFacts(t, assets, manual);
    FetchedIds(t, assets, manual);
    forall a | a in assets && Goes(t, a.id, manual)
      ensures a.id in after && Settled(d, a, after[a.id]) && (a.fetch.Fetched? ==> a.id in ids)
    {
      SettledAsset(t, assets, manual, after, d, a);
    }
    FetchedIdsGo(t, assets, manual, ids);
  }

  lemma BatchEnds(t: Table, assets: seq<Asset>, manual: bool, after: Table, d: Disk)
    requires DistinctIds(assets)
    requires var b := AfterAssets(t, assets, manual);
             && (forall id :: id in b.table && id !in b.ids ==> id in after && after[id] == b.table[id])
             && (forall i :: 0 <= i < |b.ids| && i < |b.items| ==>
                   b.ids[i] in after && Honest(d, b.items[i], after[b.ids[i]]))
    ensures AllSettled(t, assets, manual, after, d)
    ensures |EndedAs(t, assets, manual, after, Status.Failed)| == AfterAssets(t, assets, manual).failed
    ensures EndedAs(t, assets, manual, after, Imported) ==
            ImportedIds(AfterAssets(t, assets, manual).ids, after)
  {
    BatchSettles(t, assets, manual, after, d);
    CountersAreRight(t, assets, manual, after, d);
    FailedAreCounted(t, assets, manual);
  }

  lemma FetchedIdsGo(t: Table, assets: seq<Asset>, manual: bool, ids: seq<string>)
    requires forall id :: id in ids ==> Begins(t, id, manual) && id in IdsOf(assets)
    ensures forall id :: id in ids ==> exists a :: a in assets && a.id == id && Goes(t, id, manual)
  {}

  lemma SettledIdsDiffer(t: Table, assets: seq<Asset>, manual: bool)
    ensures DistinctIds(assets) ==>
              var ids := AfterAssets(t, assets, manual).ids; Distinct(ids)
  {
    if DistinctIds(assets) {
      BatchFacts(t, assets, manual);
    }
  }

  /** The incoming directory after the items landed there. */
  function Received(incoming: map<string, Digest>, items: seq<Item>): map<string, Digest> {
    if items == [] then incoming
    else Received(incoming, items[..|items| - 1])[items[|items| - 1].path := items[|items| - 1].sha]
  }

  lemma {:induction false} ReceivedKeys(incoming: map<string, Digest>, items: seq<Item>)
    ensures forall f :: f in Received(incoming, items) <==> f in incoming || exists it :: it in items && it.path == f
  {
    if items != [] {
      ReceivedKeys(incoming, items[..|items| - 1]);
      assert items == items[..|items| - 1] + [items[|items| - 1]];
    }
  }

  /** The file of the last asset is none of those that were fetched before it. */
  lemma FetchedPathsDiffer(t: Table, assets: seq<Asset>, manual: bool, d: Disk)
    requires FreshPaths(d, assets) && assets != [] && PathOf(assets[|assets| - 1]).Some?
    ensures forall it :: it in AfterAssets(t, assets[..|assets| - 1], manual).items ==>
              it.path != PathOf(assets[|assets| - 1]).value
  {
    var before := assets[..|assets| - 1];
    FetchingFacts(t, before, manual);
    forall it | it in AfterAssets(t, before, manual).items ensures it.path != PathOf(assets[|assets| - 1]).value {
      var k :| 0 <= k < |before| && before[k].fetch == Fetched(it);
      assert assets[k] == before[k];
    }
  }

  ghost predicate AllReceived(incoming: map<string, Digest>, items: seq<Item>) {
    forall it :: it in items ==> it.path in incoming && incoming[it.path] == it.sha
  }

  lemma ReceivedNext(incoming: map<string, Digest>, items: seq<Item>, next: Item)
    requires AllReceived(Received(incoming, items), items) && forall it :: it in items ==> it.path != next.path
    ensures AllReceived(Received(incoming, items + [next]), items + [next])
  {
    assert (items + [next])[..|items|] == items;
  }

  lemma {:induction false} ReceivedFacts(t: Table, assets: seq<Asset>, manual: bool, d: Disk)
    requires FreshPaths(d, assets)
    ensures var items := AfterAssets(t, assets, manual).items; AllReceived(Received(d.incoming, items), items)
  {
    if assets != [] {
      var a, items := assets[|assets| - 1], AfterAssets(t, assets[..|assets| - 1], manual).items;
      ReceivedFacts(t, assets[..|assets| - 1], manual, d);
      if a.fetch.Fetched? {
        FetchedPathsDiffer(t, assets, manual, d);
        ReceivedNext(d.incoming, items, a.fetch.item);
      }
    }
  }

  lemma NextPathIsFree(t: Table, assets: seq<Asset>, manual: bool, d: Disk, i: nat)
    requires FreshPaths(d, assets) && i < |assets|
    ensures PathOf(assets[i]).Some? ==>
              PathOf(assets[i]).value !in Received(d.incoming, AfterAssets(t, assets[..i], manual).items)
  {
    if PathOf(assets[i]).Some? {
      var upto := assets[..i + 1];
      assert upto[|upto| - 1] == assets[i] && upto[..|upto| - 1] == assets[..i];
      assert assets[i] in assets;
      FetchedPathsDiffer(t, upto, manual, d);
      ReceivedKeys(d.incoming, AfterAssets(t, assets[..i], manual).items);
    }
  }

  class SourceArtifacts {
    var table: Table

    /** The downloaded file lands in incoming under a name of its own. */
    method Download(r: Repository, path: string, sha: Digest)
      requires r.Linked()
      modifies r
      ensures r.Kept() && r.disk == old(r.disk).(incoming := old(r.disk).incoming[path := sha])
    {
      r.WriteMinor(r.disk.(incoming := r.disk.incoming[path := sha]));
    }

    /** A file that landed and was refused is downloaded and then removed again. */
    method DownloadInVain(r: Repository, landed: Option<string>)
      requires r.Linked() && (landed.Some? ==> landed.value !in r.disk.incoming)
      modifies r
      ensures r.Kept() && r.disk == old(r.disk)
    {
      if landed.Some? {
        var sha: Digest := *;
        Download(r, landed.value, sha);
        r.WriteMinor(r.disk.(incoming := r.disk.incoming - {landed.value}));
        assert r.disk.incoming == old(r.disk).incoming;
      }
    }

    /** One turn of the first loop, for an asset that is not settled yet. */
    method FetchOne(r: Repository, a: Asset) returns (item: Option<Item>, failed: bool)
      requires r.Linked() && (PathOf(a).Some? ==> PathOf(a).value !in r.disk.incoming)
      modifies this, r
      ensures r.Kept() && (failed <==> a.fetch.Broken?)
      ensures item == if a.fetch.Fetched? then Some(a.fetch.item) else None
      ensures table == old(table)[a.id := if item.Some? then Pending else if failed then Status.Failed else Rejected]
      ensures var before := old(r.disk);
              r.disk == if item.Some? then before.(incoming := before.incoming[item.value.path := item.value.sha])
                        else before
    {
      item, failed := None, false;
      table := table[a.id := Pending];
      match a.fetch {
        case Fetched(it) =>
          Download(r, it.path, it.sha);
          item := Some(it);
        case Invalid(landed) =>
          DownloadInVain(r, landed);
          table := table[a.id := Rejected];
        case Broken(landed) =>
          DownloadInVain(r, landed);
          table := table[a.id := Status.Failed];
          failed := true;
      }
    }

    /** The first loop: assets already settled are skipped, the others are fetched. */
    method FetchAll(r: Repository, assets: seq<Asset>, manual: bool)
      returns (items: seq<Item>, ids: seq<string>, skipped: nat, failed: nat)
      requires r.Linked() && FreshPaths(r.disk, assets)
      modifies this, r
      ensures r.Kept()
      ensures Batch(table, items, ids, skipped, failed) == AfterAssets(old(table), assets, manual)
      ensures r.disk == old(r.disk).(incoming := Received(old(r.disk).incoming, items))
    {
      items, ids, skipped, failed := [], [], 0, 0;
      for i := 0 to |assets|
        invariant r.Kept()
        invariant Batch(table, items, ids, skipped, failed) == AfterAssets(old(table), assets[..i], manual)
        invariant r.disk == old(r.disk).(incoming := Received(old(r.disk).incoming, items))
      {
        var a := assets[i];
        AfterAssetsStep(old(table), assets, manual, i);
        if !Begins(table, a.id, manual) {
          skipped := skipped + 1;
        } else {
          NextPathIsFree(old(table), assets, manual, old(r.disk), i);
          var item, broken := FetchOne(r, a);
          if item.Some? {
            assert (items + [item.value])[..|items|] == items;
            items, ids := items + [item.value], ids + [a.id];
          } else if broken {
            failed := failed + 1;
          } else {
            skipped := skipped + 1;
          }
        }
      }
      assert assets[..|assets|] == assets;
    }

    method SettleOne(r: Repository, item: Item, id: string, result: Placement) returns (placed: bool)
      modifies this
      ensures table == old(table)[id := Verdict(r.disk, item, result)] && placed == result.Placed?
    {
      placed := result.Placed?;
      if placed {
        table := table[id := Imported];
      } else if Registered(r.disk, item) {
        table := table[id := Skipped];
      } else {
        table := table[id := Conflict];
      }
    }

    /** The second loop: settle each fetched asset by what became of its package. */
    method Settle(r: Repository, items: seq<Item>, ids: seq<string>, results: seq<Placement>)
      returns (imported: nat, skipped: nat)
      requires |items| == |ids| == |results|
      modifies this
      ensures imported + skipped == |items| && imported == PlacedCount(results)
      ensures forall id :: id in old(table) && id !in ids ==> id in table && table[id] == old(table)[id]
      ensures Distinct(ids) ==>
                forall i :: 0 <= i < |ids| ==>
                  && ids[i] in table
                  && table[ids[i]] ==
                     if results[i].Placed? then Imported
                     else if items[i].nva in r.disk.rows && r.disk.rows[items[i].nva].sha == items[i].sha then Skipped
                     else Conflict
    {
      imported, skipped := 0, 0;
      for i := 0 to |items|
        invariant imported + skipped == i && imported == PlacedCount(results[..i])
        invariant forall id :: id in old(table) && id !in ids ==> id in table && table[id] == old(table)[id]
        invariant Distinct(ids) ==>
                    forall j :: 0 <= j < i ==> ids[j] in table && table[ids[j]] == Verdict(r.disk, items[j], results[j])
      {
        assert ids[i] in ids;
        assert results[..i + 1][..i] == results[..i];
        var placed := SettleOne(r, items[i], ids[i], results[i]);
        if placed {
          imported := imported + 1;
        } else {
          skipped := skipped + 1;
        }
      }
      assert results[..|items|] == results;
    }

    /** upload_commit of what was fetched. */
    method UploadItems(r: Repository, items: seq<Item>, fault: Fault) returns (results: seq<Placement>, raised: bool)
      requires r.Linked()
      modifies r
      ensures r.Linked()
      ensures old(r.Safe()) && Fit(r.mode, old(r.disk), old(r.disk).saved, items) ==> r.Safe()
      ensures old(r.Steady()) ==> r.Steady()
      ensures results == AfterAll(old(r.disk), old(r.disk).saved, items).1
      ensures r.disk.incoming.Keys <= old(r.disk).incoming.Keys
      ensures !raised ==> |results| == |items|
      ensures !raised ==> forall i :: 0 <= i < |items| ==> items[i].path !in r.disk.incoming
      ensures !raised ==> forall i :: 0 <= i < |items| && results[i].Placed? ==> Registered(r.disk, items[i])
      ensures !raised ==> r.disk.runs == old(r.disk).runs + if PlacedCount(results) > 0 then 1 else 0
    {
      ghost var mid := AfterAll(r.disk, r.disk.saved, items).0;
      PlacedItems(r.disk, r.disk.saved, items);
      var pub;
      results, pub, raised := r.UploadCommit(items, fault);
      PublishKeepsDigests(mid, old(r.disk).saved, fault, r.disk);
      SomePlaced(results);
    }

    /** What _process_assets does with what it fetched. */
    method ImportFetched(r: Repository, items: seq<Item>, ids: seq<string>, fault: Fault)
      returns (raised: bool, imported: nat, skipped: nat)
      requires r.Linked() && |items| == |ids|
      modifies this, r
      ensures r.Linked()
      ensures old(r.Safe()) && Fit(r.mode, old(r.disk), old(r.disk).saved, items) ==> r.Safe()
      ensures old(r.Steady()) ==> r.Steady()
      ensures forall id :: id in old(table) && id !in ids ==> id in table && table[id] == old(table)[id]
      ensures r.disk.incoming.Keys <= old(r.disk).incoming.Keys
      ensures !raised ==> imported + skipped == |items|
      ensures !raised ==> r.disk.runs == old(r.disk).runs + if imported > 0 then 1 else 0
      ensures !raised ==> forall i :: 0 <= i < |items| ==> items[i].path !in r.disk.incoming
      ensures !raised && Distinct(ids) ==>
                && (forall i :: 0 <= i < |ids| ==> ids[i] in table && Honest(r.disk, items[i], table[ids[i]]))
                && imported == |ImportedIds(ids, table)|
    {
      imported, skipped := 0, 0;
      var results;
      results, raised := UploadItems(r, items, fault);
      if !raised {
        imported, skipped := Settle(r, items, ids, results);
        if Distinct(ids) {
          VerdictsAreHonest(r.disk, items, ids, results, table);
        }
      }
    }

    /** ... unless there is nothing. */
    method ImportIfAny(r: Repository, items: seq<Item>, ids: seq<string>, fault: Fault)
      returns (raised: bool, imported: nat, skipped: nat)
      requires r.Linked() && |items| == |ids|
      modifies this, r
      ensures r.Linked()
      ensures old(r.Safe()) && Fit(r.mode, old(r.disk), old(r.disk).saved, items) ==> r.Safe()
      ensures old(r.Steady()) ==> r.Steady()
      ensures forall id :: id in old(table) && id !in ids ==> id in table && table[id] == old(table)[id]
      ensures r.disk.incoming.Keys <= old(r.disk).incoming.Keys
      ensures !raised ==> imported + skipped == |items|
      ensures !raised ==> r.disk.runs == old(r.disk).runs + if imported > 0 then 1 else 0
      ensures !raised ==> forall i :: 0 <= i < |items| ==> items[i].path !in r.disk.incoming
      ensures !raised && Distinct(ids) ==>
                && (forall i :: 0 <= i < |ids| ==> ids[i] in table && Honest(r.disk, items[i], table[ids[i]]))
                && imported == |ImportedIds(ids, table)|
    {
      raised, imported, skipped := false, 0, 0;
      if items != [] {
        raised, imported, skipped := ImportFetched(r, items, ids, fault);
      } else {
        assert ImportedIds(ids, table) == {};
      }
    }

    /** _process_assets.  On normal return every asset is accounted for by the counters, no incoming file
        of the batch is left, and the repository was published exactly once iff a package was placed. */
    method ProcessAssets(r: Repository, assets: seq<Asset>, manual: bool, fault: Fault)
      returns (raised: bool, imported: nat, skipped: nat, failed: nat)
      requires r.Linked() && FreshPaths(r.disk, assets)
      modifies this, r
      ensures r.Linked()
      ensures Absorbs(old(table), table, manual)
      ensures old(r.Safe()) && InPlace(r.mode, old(r.disk), assets) ==> r.Safe()
      ensures old(r.Steady()) ==> r.Steady()
      ensures !raised ==> |assets| == imported + skipped + failed
      ensures !raised ==> r.disk.incoming.Keys <= old(r.disk).incoming.Keys
      ensures !raised ==> r.disk.runs == old(r.disk).runs + if imported > 0 then 1 else 0
      ensures !raised && DistinctIds(assets) ==>
                && AllSettled(old(table), assets, manual, table, r.disk)
                && imported == |EndedAs(old(table), assets, manual, table, Imported)|
                && failed == |EndedAs(old(table), assets, manual, table, Status.Failed)|
    {
      var items, ids, more;
      ghost var t0, d0 := table, r.disk;
      BatchCounts(t0, assets, manual);
      if InPlace(r.mode, d0, assets) {
        FetchedIsFit(r.mode, d0, t0, assets, manual);
      }
      items, ids, skipped, failed := FetchAll(r, assets, manual);
      raised, imported, more := ImportIfAny(r, items, ids, fault);
      skipped := skipped + more;
      AbsorbsThrough(t0, assets, manual, table);
      if !raised {
        NothingLeft(d0.incoming, items, r.disk.incoming);
      }
      if !raised && DistinctIds(assets) {
        BatchEnds(t0, assets, manual, table, r.disk);
      }
    }
  }

  lemma PlacedItems(d: Disk, cfg: Config, items: seq<Item>)
    ensures var (a, results) := AfterAll(d, cfg, items);
            && a.incoming.Keys <= d.incoming.Keys && |results| <= |items|
            && (|results| < |items| ==> exists r :: r in results && r.Raised?)
            && (forall i :: 0 <= i < |results| ==> items[i].path !in a.incoming)
            && (forall i :: 0 <= i < |results| && results[i].Placed? ==> Registered(a, items[i]))
  {
    AfterAllFacts(d, cfg, items);
    PlacedStayRegistered(d, cfg, items);
  }

  lemma PublishKeepsDigests(d: Disk, cfg: Config, fault: Fault, after: Disk)
    requires after == d || after == Published(d, cfg) || PublishFailed(d, cfg, fault, after)
    ensures forall item :: Registered(d, item) ==> Registered(after, item)
  {}

  lemma BatchCounts(t: Table, assets: seq<Asset>, manual: bool)
    ensures var b := AfterAssets(t, assets, manual);
            && |b.items| == |b.ids| && |assets| == |b.items| + b.skipped + b.failed
            && (DistinctIds(assets) ==> Distinct(b.ids))
  {
    FetchingFacts(t, assets, manual);
    SettledIdsDiffer(t, assets, manual);
  }

  /** The second loop touches nothing but what the first one went ahead with. */
  lemma AbsorbsThrough(t: Table, assets: seq<Asset>, manual: bool, after: Table)
    requires var b := AfterAssets(t, assets, manual);
             forall id :: id in b.table && id !in b.ids ==> id in after && after[id] == b.table[id]
    ensures Absorbs(t, after, manual)
  {
    FetchingFacts(t, assets, manual);
  }

  lemma NothingLeft(incoming: map<string, Digest>, items: seq<Item>, after: map<string, Digest>)
    requires after.Keys <= Received(incoming, items).Keys
    requires forall i :: 0 <= i < |items| ==> items[i].path !in after
    ensures after.Keys <= incoming.Keys
  {
    ReceivedKeys(incoming, items);
  }

  /** What was fetched can be placed. */
  lemma FetchedIsFit(mode: Mode, d: Disk, t: Table, assets: seq<Asset>, manual: bool)
    requires FreshPaths(d, assets) && InPlace(mode, d, assets)
    ensures var items := AfterAssets(t, assets, manual).items;
            Fit(mode, d.(incoming := Received(d.incoming, items)), d.saved, items)
  {
    FetchingFacts(t, assets, manual);
    ReceivedFacts(t, assets, manual, d);
    var items := AfterAssets(t, assets, manual).items;
    forall it | it in items ensures Admits(mode, d, PoolFile(d.saved.component, it.nva)) {
      var k :| 0 <= k < |assets| && assets[k].fetch == Fetched(it);
      assert assets[k] in assets;
    }
  }

  /** Over any number of batches an imported or skipped artifact stays as it is, and a rejected or
      conflicting one stays until a batch that was requested by hand. */
  lemma {:induction false} SettledForGood(tables: seq<Table>, manual: seq<bool>, id: string, n: nat)
    requires |tables| == |manual| + 1 && n < |tables|
    requires forall i :: 0 <= i < |manual| ==> Absorbs(tables[i], tables[i + 1], manual[i])
    requires id in tables[0]
    requires || tables[0][id] == Imported || tables[0][id] == Skipped
             || ((tables[0][id] == Rejected || tables[0][id] == Conflict) && forall i :: 0 <= i < n ==> !manual[i])
    ensures id in tables[n] && tables[n][id] == tables[0][id]
  {
    if n > 0 {
      SettledForGood(tables, manual, id, n - 1);
      assert Absorbs(tables[n - 1], tables[n - 1 + 1], manual[n - 1]);
    }
  }
}
