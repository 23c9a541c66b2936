/** Guarantees of by-hash retention over any number of publishes. */
module ByHashRuns {
  import opened Basics
  import opened ByHash

  // ----- one publish -----------------------------------------------------------------------

  /** Every current digest and every digest of a history resolves to a file, and every file holds
      the bytes its name promises. */
  ghost predicate Closed(g: Gen) {
    && CurrentKeys(g.indexes) <= g.files.Keys
    && Guarded(g.history) <= g.files.Keys
    && (forall k :: k in g.files ==> g.files[k].content == k.digest)
  }

  lemma {:induction false} DedupFacts(s: seq<Digest>)
    ensures forall x :: x in Dedup(s) <==> x in s
    ensures forall i, j :: 0 <= i < j < |Dedup(s)| ==> Dedup(s)[i] != Dedup(s)[j]
    ensures s != [] ==> Dedup(s) != [] && Dedup(s)[0] == s[0]
  {
    if s != [] {
      var t := s[..|s| - 1];
      assert s == t + [s[|s| - 1]];
      DedupFacts(t);
      if t == [] {
        assert Dedup(s) == [s[0]];
      }
    }
  }

  lemma PromotedFacts(d: Digest, previous: seq<Digest>)
    ensures var v := Promoted(d, previous);
            && v != [] && v[0] == d && |v| <= 3
            && (forall x :: x in v ==> x == d || x in previous)
  {
    DedupFacts([d] + previous);
    forall x | x in Promoted(d, previous) ensures x == d || x in previous {
      assert x in Dedup([d] + previous) && x in [d] + previous;
    }
  }

  lemma NextIsClosed(indexes: map<IndexKey, Digest>, live: Gen, now: real)
    requires Closed(live)
    ensures Closed(Next(indexes, live, now))
  {
    var g := Next(indexes, live, now);
    forall k | k in Guarded(g.history) ensures k in g.files {
      var i, v :| i in g.history && g.history[i].Versions? && v in g.history[i].list && k == HashKey(i.dir, v);
      PromotedFacts(indexes[i], Previous(live.history, i));
      if v == indexes[i] {
        assert k == KeyOf(i, indexes[i]);
      } else {
        assert k in Guarded(live.history);
      }
    }
  }

  /** What is there after a publish: the current files, and of those that were live the ones that were
      current until now, that a history names, or that are at most seven days old. */
  lemma NextIsBounded(indexes: map<IndexKey, Digest>, live: Gen, now: real, k: HashKey)
    ensures var g := Next(indexes, live, now);
            g.indexes == indexes &&
            (k in g.files <==>
              || (exists i :: i in indexes && k == HashKey(i.dir, indexes[i]))
              || (k in live.files &&
                   (|| (exists i :: i in live.indexes && k == HashKey(i.dir, live.indexes[i]))
                    || (exists i :: i in g.history && g.history[i].Versions? && k.dir == i.dir &&
                                    k.digest in g.history[i].list)
                    || live.files[k].mtime >= now - 7.0 * 86400.0)))
  {
    var g := Next(indexes, live, now);
    assert (exists i :: i in indexes && k == HashKey(i.dir, indexes[i])) <==> k in CurrentKeys(indexes);
    assert (exists i :: i in live.indexes && k == HashKey(i.dir, live.indexes[i])) <==> k in CurrentKeys(live.indexes);
    assert k in Guarded(g.history) <==> exists i :: i in g.history && g.history[i].Versions? && k.dir == i.dir &&
                                                    k.digest in g.history[i].list;
  }

  /** Its time stamp is that of this publish, if it is current or was current until now, and else the
      one it had. */
  lemma NextStamps(indexes: map<IndexKey, Digest>, live: Gen, now: real, k: HashKey)
    requires k in Next(indexes, live, now).files
    ensures Next(indexes, live, now).files[k] ==
            if exists i :: i in indexes && k == HashKey(i.dir, indexes[i]) then Stamp(k.digest, now)
            else if exists i :: i in live.indexes && k == HashKey(i.dir, live.indexes[i])
            then Stamp(live.files[k].content, now)
            else live.files[k]
  {
    assert (exists i :: i in indexes && k == HashKey(i.dir, indexes[i])) <==> k in CurrentKeys(indexes);
    assert (exists i :: i in live.indexes && k == HashKey(i.dir, live.indexes[i])) <==> k in CurrentKeys(live.indexes);
  }

  // ----- any number of publishes -----------------------------------------------------------

  /** g[i] was published at t[i], out of g[i - 1]; the clock does not go back. */
  ghost predicate Published(g: seq<Gen>, t: seq<real>) {
    && |g| == |t|
    && (forall i :: 0 < i < |g| ==> PublishedAt(g, t, i))
  }

  ghost predicate PublishedAt(g: seq<Gen>, t: seq<real>, i: int)
    requires 0 < i < |g| == |t|
  {
    t[i - 1] <= t[i] && g[i] == Next(g[i].indexes, g[i - 1], t[i])
  }

  lemma {:induction false} AlwaysClosed(g: seq<Gen>, t: seq<real>, i: nat)
    requires Published(g, t) && i < |g| && Closed(g[0])
    ensures Closed(g[i])
  {
    if i > 0 {
      AlwaysClosed(g, t, i - 1);
      assert PublishedAt(g, t, i);
      NextIsClosed(g[i].indexes, g[i - 1], t[i]);
    }
  }

  lemma {:induction false} StampsAreThePast(g: seq<Gen>, t: seq<real>, i: nat, j: nat)
    requires Published(g, t) && i <= j < |g|
    ensures t[i] <= t[j]
  {
    if i < j {
      StampsAreThePast(g, t, i, j - 1);
      assert PublishedAt(g, t, j);
    }
  }

  /** One publish carries over what was current or is young, without making it older. */
  lemma NextKeeps(indexes: map<IndexKey, Digest>, live: Gen, now: real, k: HashKey)
    requires k in live.files && (k in CurrentKeys(live.indexes) || live.files[k].mtime >= now - 7.0 * 86400.0)
    ensures var g := Next(indexes, live, now);
            && k in g.files
            && (g.files[k].mtime == now || (g.files[k].mtime == live.files[k].mtime && k !in CurrentKeys(live.indexes)))
  {}

  lemma {:induction false} KeptForAWeek(g: seq<Gen>, t: seq<real>, i: nat, j: nat, k: HashKey)
    requires Published(g, t) && 0 < i <= j < |g|
    requires k in CurrentKeys(g[i - 1].indexes) && k in g[i - 1].files
    requires t[j] <= t[i] + 7.0 * 86400.0
    ensures k in g[j].files && g[j].files[k].mtime >= t[i]
  {
    assert PublishedAt(g, t, j);
    if i < j {
      KeptForAWeek(g, t, i, j - 1, k);
      StampsAreThePast(g, t, i, j);
    }
    NextKeeps(g[j].indexes, g[j - 1], t[j], k);
  }

  /** An index version that was current until publish i stays fetchable for seven days from then
      on, through any number of publishes, however old it was. */
  lemma RetainedForAWeek(g: seq<Gen>, t: seq<real>, i: nat, j: nat, k: HashKey)
    requires Published(g, t) && 0 < i <= j < |g| && Closed(g[0])
    requires exists x :: x in g[i - 1].indexes && k == HashKey(x.dir, g[i - 1].indexes[x])
    requires t[j] <= t[i] + 7.0 * 86400.0
    ensures k in g[j].files && g[j].files[k].content == k.digest
  {
    AlwaysClosed(g, t, i - 1);
    assert k in CurrentKeys(g[i - 1].indexes);
    KeptForAWeek(g, t, i, j, k);
    AlwaysClosed(g, t, j);
  }

  // ----- the truncated history -------------------------------------------------------------

  /** All distinct digests ever published, the most recently current first. */
  function MostRecent(published: seq<Digest>): seq<Digest> {
    if published == [] then []
    else
      var d := published[|published| - 1];
      [d] + Removed(MostRecent(published[..|published| - 1]), d)
  }

  function Removed(s: seq<Digest>, d: Digest): seq<Digest> {
    if s == [] then [] else (if s[0] == d then [] else [s[0]]) + Removed(s[1..], d)
  }

  lemma {:induction false} RemovedFacts(s: seq<Digest>, d: Digest)
    ensures forall x :: x in Removed(s, d) <==> x in s && x != d
    ensures Distinct(s) ==> Distinct(Removed(s, d))
    ensures d !in s ==> Removed(s, d) == s
  {
    if s != [] {
      RemovedFacts(s[1..], d);
      assert s == [s[0]] + s[1..];
      if Distinct(s) {
        assert forall i, j :: 0 <= i < j < |s[1..]| ==> s[1..][i] == s[i + 1] && s[1..][j] == s[j + 1];
        assert s[0] !in s[1..];
      }
    }
  }

  /** Promoting on the full list is promoting on a list without repetitions. */
  lemma {:induction false} DedupPromotes(d: Digest, s: seq<Digest>)
    requires Distinct(s)
    ensures Dedup([d] + s) == [d] + Removed(s, d)
  {
    if s == [] {
      assert [d] + s == [d] && ([d])[..0] == [];
    } else {
      var n := |s| - 1;
      var t, x := s[..n], s[n];
      DedupPromotes(d, t);
      assert ([d] + s)[..n + 1] == [d] + t;
      RemovedAppend(t, x, d);
      assert s == t + [x];
      RemovedFacts(t, d);
      assert x !in t;
    }
  }

  lemma {:induction false} RemovedAppend(s: seq<Digest>, x: Digest, d: Digest)
    ensures Removed(s + [x], d) == Removed(s, d) + (if x == d then [] else [x])
  {
    if s == [] {
      assert s + [x] == [x] && ([x])[1..] == [];
    } else {
      assert (s + [x])[1..] == s[1..] + [x];
      RemovedAppend(s[1..], x, d);
    }
  }

  /** Removing from the first three and removing from all agree on the first two. */
  lemma {:induction false} RemovedPrefix(s: seq<Digest>, n: nat, d: Digest)
    requires n <= |s| && Distinct(s)
    ensures Removed(s[..n], d) <= Removed(s, d)
    ensures |Removed(s[..n], d)| >= n - 1
    ensures d !in s[..n] ==> |Removed(s[..n], d)| == n
  {
    if n > 0 {
      assert s[..n][1..] == s[1..][..n - 1];
      RemovedPrefix(s[1..], n - 1, d);
      if s[0] == d {
        assert d !in s[1..];
        RemovedFacts(s[1..][..n - 1], d);
      }
    }
  }

  lemma PromoteTruncated(d: Digest, s: seq<Digest>)
    requires Distinct(s)
    ensures Promoted(d, Take3(s)) == Take3([d] + Removed(s, d))
  {
    DedupPromotes(d, Take3(s));
    if |s| > 3 {
      RemovedPrefix(s, 3, d);
    }
  }

  lemma {:induction false} MostRecentFacts(published: seq<Digest>)
    ensures Distinct(MostRecent(published))
    ensures forall x :: x in MostRecent(published) <==> x in published
  {
    if published != [] {
      var n := |published| - 1;
      MostRecentFacts(published[..n]);
      RemovedFacts(MostRecent(published[..n]), published[n]);
      assert published == published[..n] + [published[n]];
    }
  }

  /** The last time a digest was published. */
  function LastUse(published: seq<Digest>, d: Digest): int {
    if published == [] then -1
    else if published[|published| - 1] == d then |published| - 1
    else LastUse(published[..|published| - 1], d)
  }

  ghost predicate NewestFirst(published: seq<Digest>, s: seq<Digest>) {
    forall i, j :: 0 <= i < j < |s| ==> LastUse(published, s[i]) > LastUse(published, s[j])
  }

  lemma {:induction false} RemovedKeepsOrder(published: seq<Digest>, s: seq<Digest>, d: Digest)
    requires NewestFirst(published, s)
    ensures NewestFirst(published, Removed(s, d))
  {
    if s != [] {
      assert forall i :: 0 <= i < |s[1..]| ==> s[1..][i] == s[i + 1];
      RemovedKeepsOrder(published, s[1..], d);
      RemovedFacts(s[1..], d);
      forall j | 0 <= j < |Removed(s[1..], d)|
        ensures LastUse(published, s[0]) > LastUse(published, Removed(s[1..], d)[j])
      {
        assert Removed(s[1..], d)[j] in s[1..];
      }
    }
  }

  /** MostRecent orders the digests by when they were last published. */
  lemma {:induction false} MostRecentOrder(published: seq<Digest>)
    ensures NewestFirst(published, MostRecent(published))
  {
    if published != [] {
      var n := |published| - 1;
      var before, d := published[..n], published[n];
      MostRecentOrder(before);
      RemovedKeepsOrder(before, MostRecent(before), d);
      RemovedFacts(MostRecent(before), d);
      var rest := Removed(MostRecent(before), d);
      forall j | 0 <= j < |rest| ensures LastUse(published, rest[j]) == LastUse(before, rest[j]) < n {
        assert rest[j] in rest;
        LastUseBound(before, rest[j]);
      }
    }
  }

  lemma {:induction false} LastUseBound(published: seq<Digest>, d: Digest)
    ensures LastUse(published, d) < |published|
  {
    if published != [] {
      LastUseBound(published[..|published| - 1], d);
    }
  }

  /** What was published under index i, from generation 1 on. */
  function DigestsOf(g: seq<Gen>, i: IndexKey, n: nat): seq<Digest>
    requires n < |g| && forall j :: 0 < j <= n ==> i in g[j].indexes
  {
    if n == 0 then [] else DigestsOf(g, i, n - 1) + [g[n].indexes[i]]
  }

  lemma HistoryStep(indexes: map<IndexKey, Digest>, live: Gen, now: real, i: IndexKey, ds: seq<Digest>)
    requires i in indexes && Previous(live.history, i) == Take3(MostRecent(ds))
    ensures Previous(Next(indexes, live, now).history, i) == Take3(MostRecent(ds + [indexes[i]]))
  {
    assert (ds + [indexes[i]])[..|ds|] == ds;
    MostRecentFacts(ds);
    PromoteTruncated(indexes[i], MostRecent(ds));
  }

  /** Although each publish sees only the three digests the last one kept, the stored history is
      always the first three of all the distinct digests ever published. */
  lemma {:induction false} HistoryIsMostRecent(g: seq<Gen>, t: seq<real>, i: IndexKey, n: nat)
    requires Published(g, t) && n < |g| && i !in g[0].history
    requires forall j :: 0 < j <= n ==> i in g[j].indexes
    ensures Previous(g[n].history, i) == Take3(MostRecent(DigestsOf(g, i, n)))
  {
    if n > 0 {
      HistoryIsMostRecent(g, t, i, n - 1);
      assert PublishedAt(g, t, n);
      HistoryStep(g[n].indexes, g[n - 1], t[n], i, DigestsOf(g, i, n - 1));
    }
  }

  lemma {:induction false} DigestsAt(g: seq<Gen>, i: IndexKey, n: nat, k: nat)
    requires n < |g| && forall j :: 0 < j <= n ==> i in g[j].indexes
    ensures |DigestsOf(g, i, n)| == n
    ensures k < n ==> DigestsOf(g, i, n)[k] == g[k + 1].indexes[i]
  {
    if n > 0 {
      DigestsAt(g, i, n - 1, k);
    }
  }

  /** d was published, and x was not at that time or since. */
  ghost predicate Since(published: seq<Digest>, d: Digest, x: Digest) {
    exists p :: 0 <= p < |published| && published[p] == d && x !in published[p..]
  }

  lemma {:induction false} LastUseIsLast(published: seq<Digest>, d: Digest)
    ensures var p := LastUse(published, d);
            && -1 <= p < |published| && d !in published[p + 1..]
            && (if d in published then 0 <= p && published[p] == d else p == -1)
  {
    if published != [] && published[|published| - 1] != d {
      var n := |published| - 1;
      LastUseIsLast(published[..n], d);
      var p := LastUse(published, d);
      assert published == published[..n] + [published[n]];
      assert published[p + 1..] == published[..n][p + 1..] + [published[n]];
    }
  }

  lemma LaterIsSince(published: seq<Digest>, d: Digest, x: Digest)
    requires LastUse(published, d) > LastUse(published, x)
    ensures Since(published, d, x)
  {
    LastUseIsLast(published, d);
    LastUseIsLast(published, x);
    var p := LastUse(published, d);
    assert published[p..] == published[LastUse(published, x) + 1..][p - LastUse(published, x) - 1..];
  }

  lemma TakenInOrder(published: seq<Digest>, h: seq<Digest>)
    requires h == Take3(MostRecent(published))
    ensures Distinct(h) && |h| <= 3
    ensures forall x :: x in h ==> x in published
    ensures forall a, b :: 0 <= a < b < |h| ==> Since(published, h[a], h[b])
    ensures forall x :: x in published && x !in h ==> |h| == 3 && forall y :: y in h ==> Since(published, y, x)
  {
    var all := MostRecent(published);
    MostRecentFacts(published);
    MostRecentOrder(published);
    assert forall a :: 0 <= a < |h| ==> h[a] == all[a] && h[a] in all;
    forall a, b | 0 <= a < b < |h| ensures Since(published, h[a], h[b]) {
      LaterIsSince(published, all[a], all[b]);
    }
    forall x | x in published && x !in h ensures |h| == 3 && forall y :: y in h ==> Since(published, y, x) {
      assert x in all;
      var b :| 0 <= b < |all| && all[b] == x;
      forall a | 0 <= a < |h| ensures Since(published, h[a], x) {
        LaterIsSince(published, all[a], all[b]);
      }
    }
  }

  /** The same in terms of what was published: at most three digests, each published, the latest first,
      and one that is missing was not published since any of the three that are there. */
  lemma HistoryIsLastThree(g: seq<Gen>, t: seq<real>, i: IndexKey, n: nat, published: seq<Digest>)
    requires Published(g, t) && 0 < n < |g| && i !in g[0].history
    requires |published| == n && forall j :: 0 < j <= n ==> i in g[j].indexes && published[j - 1] == g[j].indexes[i]
    ensures i in g[n].history && g[n].history[i].Versions?
    ensures var h := g[n].history[i].list;
            && Distinct(h) && |h| <= 3 && (forall x :: x in h ==> x in published)
            && (forall a, b :: 0 <= a < b < |h| ==> Since(published, h[a], h[b]))
            && (forall x :: x in published && x !in h ==> |h| == 3 && forall y :: y in h ==> Since(published, y, x))
  {
    assert PublishedAt(g, t, n);
    HistoryIsMostRecent(g, t, i, n);
    forall k: nat | k < n ensures |DigestsOf(g, i, n)| == n && DigestsOf(g, i, n)[k] == published[k] {
      DigestsAt(g, i, n, k);
    }
    DigestsAt(g, i, n, 0);
    assert DigestsOf(g, i, n) == published;
    TakenInOrder(published, g[n].history[i].list);
  }

  /** So a digest that was ever current stays fetchable, however long ago, until three others have been
      published since. */
  lemma LastThreeAreFetchable(g: seq<Gen>, t: seq<real>, i: IndexKey, n: nat, published: seq<Digest>, d: Digest)
    requires Published(g, t) && 0 < n < |g| && Closed(g[0]) && i !in g[0].history
    requires |published| == n && forall j :: 0 < j <= n ==> i in g[j].indexes && published[j - 1] == g[j].indexes[i]
    requires d in published
    ensures || (HashKey(i.dir, d) in g[n].files && g[n].files[HashKey(i.dir, d)].content == d)
            || exists x, y, z :: x != y && x != z && y != z &&
                                 Since(published, x, d) && Since(published, y, d) && Since(published, z, d)
  {
    HistoryIsLastThree(g, t, i, n, published);
    AlwaysClosed(g, t, n);
    var h := g[n].history[i].list;
    if d in h {
      assert HashKey(i.dir, d) in Guarded(g[n].history);
    } else {
      assert h[0] in h && h[1] in h && h[2] in h;
    }
  }

  /** Publishing never writes a history that a later publish would refuse. */
  lemma {:induction false} HistoryStaysReadable(g: seq<Gen>, t: seq<real>, n: nat, i: IndexKey)
    requires Published(g, t) && n < |g|
    requires forall e :: e in g[0].history ==> ValidEntry(g[0].history[e])
    requires forall j, e :: 0 < j <= n && e in g[j].indexes ==> HexDigest(g[j].indexes[e])
    ensures Readable(g[n].history, i)
  {
    if n > 0 && i in g[n].history {
      assert PublishedAt(g, t, n);
      HistoryStaysReadable(g, t, n - 1, i);
      PromotedFacts(g[n].indexes[i], Previous(g[n - 1].history, i));
    }
  }
}
