/** The history and retention of index files under by-hash (prvaptmirror/byhash.py).  A file's bytes
    are represented by their SHA256 digest. */
module ByHash {

  type Digest = string

  datatype IndexName = Packages | PackagesGz | Release

  /** An index file of a dists tree, and the by-hash file next to it that holds a digest. */
  datatype IndexKey = IndexKey(dir: string, name: IndexName)
  datatype HashKey = HashKey(dir: string, digest: Digest)

  /** An entry of the history file: a list of strings, or any other JSON value. */
  datatype Entry = Versions(list: seq<string>) | Malformed

  const RETENTION_SECONDS: real := 604800.0

  // ----- files on disk ---------------------------------------------------------------------

  class Inode {
    const content: Digest
    var mtime: real

    constructor (content: Digest, mtime: real)
      ensures this.content == content && this.mtime == mtime
    {
      this.content := content;
      this.mtime := mtime;
    }
  }

  /** A dists tree.  Hard links are entries that share an inode. */
  class Dists {
    var indexes: map<IndexKey, Inode>
    var byHash: map<HashKey, Inode>
    var history: map<IndexKey, Entry>

    constructor (indexes: map<IndexKey, Inode>)
      ensures this.indexes == indexes && byHash == map[] && history == map[]
    {
      this.indexes := indexes;
      byHash := map[];
      history := map[];
    }
  }

  // ----- the same, as values ---------------------------------------------------------------

  datatype Stamp = Stamp(content: Digest, mtime: real)

  datatype Gen = Gen(indexes: map<IndexKey, Digest>, files: map<HashKey, Stamp>, history: map<IndexKey, Entry>)

  ghost function Contents(m: map<IndexKey, Inode>): map<IndexKey, Digest> { map i | i in m :: m[i].content }

  ghost function Snapshot(t: Dists): Gen
    reads t, t.byHash.Values
  {
    Gen(Contents(t.indexes), map k | k in t.byHash :: Stamp(t.byHash[k].content, t.byHash[k].mtime), t.history)
  }

  /** The by-hash file of an index. */
  function KeyOf(i: IndexKey, digest: Digest): HashKey { HashKey(i.dir, digest) }

  function CurrentKeys(indexes: map<IndexKey, Digest>): set<HashKey> {
    set i | i in indexes :: KeyOf(i, indexes[i])
  }

  predicate HexDigest(s: string) {
    |s| == 64 && forall k :: 0 <= k < 64 ==> '0' <= s[k] <= '9' || 'a' <= s[k] <= 'f'
  }

  predicate ValidEntry(e: Entry) {
    e.Versions? && forall v :: v in e.list ==> HexDigest(v)
  }

  /** list(dict.fromkeys(s)): the first occurrence of each value, in order. */
  function Dedup(s: seq<Digest>): seq<Digest> {
    if s == [] then []
    else
      var r := Dedup(s[..|s| - 1]);
      if s[|s| - 1] in r then r else r + [s[|s| - 1]]
  }

  function Take3(s: seq<Digest>): seq<Digest> { if |s| <= 3 then s else s[..3] }

  function Promoted(digest: Digest, previous: seq<Digest>): seq<Digest> { Take3(Dedup([digest] + previous)) }

  function Previous(history: map<IndexKey, Entry>, i: IndexKey): seq<Digest> {
    if i in history && history[i].Versions? then history[i].list else []
  }

  /** The history entries that make prepare_by_hash raise. */
  predicate Readable(history: map<IndexKey, Entry>, i: IndexKey) {
    i in history ==> ValidEntry(history[i])
  }

  lemma ReadableMeans(e: Entry)
    ensures ValidEntry(e) <==>
            && e.Versions?
            && forall v :: v in e.list ==> |v| == 64 && forall c :: c in v ==> '0' <= c <= '9' || 'a' <= c <= 'f'
  {
    if e.Versions? {
      forall v | v in e.list
        ensures HexDigest(v) <==> |v| == 64 && forall c :: c in v ==> '0' <= c <= '9' || 'a' <= c <= 'f'
      {
        if |v| == 64 && forall c :: c in v ==> '0' <= c <= '9' || 'a' <= c <= 'f' {
          assert forall k :: 0 <= k < 64 ==> v[k] in v;
        }
      }
    }
  }

  function NextHistory(indexes: map<IndexKey, Digest>, history: map<IndexKey, Entry>): map<IndexKey, Entry> {
    map i | i in indexes :: Versions(Promoted(indexes[i], Previous(history, i)))
  }

  /** The by-hash files a history names. */
  function Guarded(history: map<IndexKey, Entry>): set<HashKey> {
    set i, v | i in history && history[i].Versions? && v in history[i].list :: HashKey(i.dir, v)
  }

  /** A live by-hash file is carried over when it was current until now, is in the new history, or
      is young enough. */
  predicate Keeps(live: Gen, history: map<IndexKey, Entry>, now: real, k: HashKey)
    requires k in live.files
  {
    || k in CurrentKeys(live.indexes)
    || k in Guarded(history)
    || live.files[k].mtime >= now - RETENTION_SECONDS
  }

  /** What one publish makes of the live tree and the freshly rendered indexes. */
  function Next(indexes: map<IndexKey, Digest>, live: Gen, now: real): Gen {
    var history := NextHistory(indexes, live.history);
    Gen(indexes,
        map k | k in CurrentKeys(indexes) + live.files.Keys &&
                (k in CurrentKeys(indexes) || Keeps(live, history, now, k)) ::
          if k in CurrentKeys(indexes) then Stamp(k.digest, now)
          else if k in CurrentKeys(live.indexes) then Stamp(live.files[k].content, now)
          else live.files[k],
        history)
  }

  // ----- prepare_by_hash -------------------------------------------------------------------

  /** staged is freshly rendered: its inodes are its own, and it has no by-hash files yet. */
  ghost predicate Fresh(staged: Dists, live: Dists)
    reads staged, live
  {
    && staged != live && staged.byHash == map[]
    && staged.indexes.Values !! live.byHash.Values
  }

  function KeysOf(indexes: map<IndexKey, Inode>, done: set<IndexKey>): set<HashKey> {
    set i | i in done && i in indexes :: KeyOf(i, indexes[i].content)
  }

  lemma KeysOfStep(indexes: map<IndexKey, Inode>, done: set<IndexKey>, i: IndexKey)
    requires i in indexes
    ensures KeysOf(indexes, done + {i}) == KeysOf(indexes, done) + {KeyOf(i, indexes[i].content)}
  {}

  lemma KeysOfAll(indexes: map<IndexKey, Inode>)
    ensures KeysOf(indexes, indexes.Keys) == CurrentKeys(Contents(indexes))
  {
    var c := Contents(indexes);
    forall k ensures k in KeysOf(indexes, indexes.Keys) <==> k in CurrentKeys(c) {
      if i :| i in indexes && k == KeyOf(i, indexes[i].content) {
        assert i in c && k == KeyOf(i, c[i]);
      }
      if i :| i in c && k == KeyOf(i, c[i]) {
        assert i in indexes.Keys && k == KeyOf(i, indexes[i].content);
      }
    }
  }

  /** The digests that are current in the live tree. */
  method PreviousCurrent(live: Dists) returns (keys: set<HashKey>)
    ensures keys == CurrentKeys(Contents(live.indexes))
  {
    keys := {};
    var todo := live.indexes.Keys;
    ghost var done := {};
    while todo != {}
      invariant todo !! done && todo + done == live.indexes.Keys
      invariant keys == KeysOf(live.indexes, done)
    {
      var i :| i in todo;
      KeysOfStep(live.indexes, done, i);
      keys := keys + {KeyOf(i, live.indexes[i].content)};
      todo := todo - {i};
      done := done + {i};
    }
    assert done == live.indexes.Keys;
    KeysOfAll(live.indexes);
  }

  /** The by-hash files so far are links to staged indexes, stamped with this publish. */
  ghost predicate LinkedNow(staged: Dists, now: real)
    reads staged, staged.indexes.Values
  {
    forall k :: k in staged.byHash ==>
      staged.byHash[k] in staged.indexes.Values && staged.byHash[k].content == k.digest && staged.byHash[k].mtime == now
  }

  method LinkIndex(staged: Dists, i: IndexKey, now: real)
    requires i in staged.indexes && LinkedNow(staged, now)
    modifies staged`byHash, staged.indexes.Values
    ensures LinkedNow(staged, now)
    ensures staged.byHash.Keys == old(staged.byHash).Keys + {KeyOf(i, staged.indexes[i].content)}
  {
    var inode := staged.indexes[i];
    var destination := KeyOf(i, inode.content);
    if destination !in staged.byHash {
      assert inode in staged.indexes.Values;
      staged.byHash := staged.byHash[destination := inode];
      inode.mtime := now;
    }
  }

  lemma GuardedAdded(history: map<IndexKey, Entry>, i: IndexKey, versions: seq<Digest>)
    requires i !in history
    ensures Guarded(history[i := Versions(versions)]) == Guarded(history) + set v | v in versions :: HashKey(i.dir, v)
  {}

  function PartHistory(indexes: map<IndexKey, Inode>, done: set<IndexKey>, old': map<IndexKey, Entry>)
    : map<IndexKey, Entry>
  {
    map i | i in done && i in indexes :: Versions(Promoted(indexes[i].content, Previous(old', i)))
  }

  lemma PartHistoryStep(indexes: map<IndexKey, Inode>, done: set<IndexKey>, old': map<IndexKey, Entry>, i: IndexKey,
                        versions: seq<Digest>)
    requires i in indexes && i !in done && versions == Promoted(indexes[i].content, Previous(old', i))
    ensures var h := PartHistory(indexes, done, old');
            && i !in h
            && PartHistory(indexes, done + {i}, old') == h[i := Versions(versions)]
  {}

  lemma PartHistoryAll(indexes: map<IndexKey, Inode>, old': map<IndexKey, Entry>)
    ensures PartHistory(indexes, indexes.Keys, old') == NextHistory(Contents(indexes), old')
  {}

  /** The first loop: extend each index's history and link its current digest. */
  method LinkCurrent(staged: Dists, live: Dists, now: real)
    returns (ok: bool, history: map<IndexKey, Entry>, guarded: set<HashKey>)
    requires Fresh(staged, live)
    modifies staged`byHash, staged.indexes.Values
    ensures ok <==> forall i :: i in staged.indexes ==> Readable(live.history, i)
    ensures ok ==> history == NextHistory(Contents(staged.indexes), live.history) && guarded == Guarded(history)
    ensures ok ==> staged.byHash.Keys == CurrentKeys(Contents(staged.indexes)) && LinkedNow(staged, now)
    ensures Snapshot(live) == old(Snapshot(live))
  {
    history, guarded := map[], {};
    var todo := staged.indexes.Keys;
    ghost var done := {};
    while todo != {}
      invariant todo !! done && todo + done == staged.indexes.Keys
      invariant forall i :: i in done ==> Readable(live.history, i)
      invariant history == PartHistory(staged.indexes, done, live.history) && guarded == Guarded(history)
      invariant staged.byHash.Keys == KeysOf(staged.indexes, done) && LinkedNow(staged, now)
    {
      var i :| i in todo;
      if i in live.history && !ValidEntry(live.history[i]) {
        return false, history, guarded;
      }
      var versions := Promoted(staged.indexes[i].content, Previous(live.history, i));
      PartHistoryStep(staged.indexes, done, live.history, i, versions);
      GuardedAdded(history, i, versions);
      history := history[i := Versions(versions)];
      guarded := guarded + set v | v in versions :: HashKey(i.dir, v);
      KeysOfStep(staged.indexes, done, i);
      LinkIndex(staged, i, now);
      todo := todo - {i};
      done := done + {i};
    }
    assert done == staged.indexes.Keys;
    KeysOfAll(staged.indexes);
    PartHistoryAll(staged.indexes, live.history);
    ok := true;
  }

  // ----- the second loop -------------------------------------------------------------------

  /** Carries one live by-hash file over: a copy with a new stamp if it retires now, else a link. */
  method CarryFile(staged: Dists, live: Dists, k: HashKey, retiring: bool, now: real)
    requires staged != live && k in live.byHash && k !in staged.byHash
    modifies staged`byHash
    ensures staged.byHash.Keys == old(staged.byHash).Keys + {k}
    ensures forall j :: j in old(staged.byHash) ==> staged.byHash[j] == old(staged.byHash)[j]
    ensures staged.byHash[k].content == live.byHash[k].content
    ensures staged.byHash[k].mtime == if retiring then now else live.byHash[k].mtime
    ensures staged.byHash[k] == live.byHash[k] || fresh(staged.byHash[k])
  {
    var inode := live.byHash[k];
    if retiring {
      inode := new Inode(inode.content, now);
    }
    staged.byHash := staged.byHash[k := inode];
  }

  /** The test that keeps a live by-hash file. */
  ghost predicate KeepsInode(live: Dists, retired: set<HashKey>, guarded: set<HashKey>, now: real, k: HashKey)
    requires k in live.byHash
    reads live, live.byHash.Values
  {
    k in retired || k in guarded || live.byHash[k].mtime >= now - RETENTION_SECONDS
  }

  method CarryOver(staged: Dists, live: Dists, retired: set<HashKey>, guarded: set<HashKey>, now: real)
    requires staged != live
    modifies staged`byHash
    ensures forall k :: k in staged.byHash <==>
              k in old(staged.byHash) || (k in live.byHash && KeepsInode(live, retired, guarded, now, k))
    ensures forall k :: k in old(staged.byHash) ==> staged.byHash[k] == old(staged.byHash)[k]
    ensures forall k :: k in staged.byHash && k !in old(staged.byHash) ==>
              && staged.byHash[k].content == live.byHash[k].content
              && staged.byHash[k].mtime == if k in retired then now else live.byHash[k].mtime
    ensures Snapshot(live) == old(Snapshot(live))
  {
    var todo := live.byHash.Keys;
    while todo != {}
      invariant todo <= live.byHash.Keys
      invariant forall k :: k in staged.byHash <==>
                  || k in old(staged.byHash)
                  || (k in live.byHash && k !in todo && KeepsInode(live, retired, guarded, now, k))
      invariant forall k :: k in old(staged.byHash) ==> staged.byHash[k] == old(staged.byHash)[k]
      invariant forall k :: k in staged.byHash && k !in old(staged.byHash) ==>
                  && staged.byHash[k].content == live.byHash[k].content
                  && staged.byHash[k].mtime == if k in retired then now else live.byHash[k].mtime
    {
      var k :| k in todo;
      var retiring := k in retired;
      if (retiring || k in guarded || live.byHash[k].mtime >= now - RETENTION_SECONDS) && k !in staged.byHash {
        CarryFile(staged, live, k, retiring, now);
      }
      todo := todo - {k};
    }
  }

  /** The two loops together compute Next. */
  lemma LoopsMakeNext(staged: Dists, indexes: map<IndexKey, Digest>, live: Gen, now: real)
    requires staged.history == NextHistory(indexes, live.history) && Contents(staged.indexes) == indexes
    requires forall k :: k in staged.byHash <==>
               k in CurrentKeys(indexes) || (k in live.files && Keeps(live, staged.history, now, k))
    requires forall k :: k in staged.byHash && k in CurrentKeys(indexes) ==>
               staged.byHash[k].content == k.digest && staged.byHash[k].mtime == now
    requires forall k :: k in staged.byHash && k !in CurrentKeys(indexes) ==>
               && staged.byHash[k].content == live.files[k].content
               && staged.byHash[k].mtime == if k in CurrentKeys(live.indexes) then now else live.files[k].mtime
    ensures Snapshot(staged) == Next(indexes, live, now)
  {
    assert Snapshot(staged).files == Next(indexes, live, now).files;
  }

  lemma KeepsOnValues(live: Dists, retired: set<HashKey>, guarded: set<HashKey>, history: map<IndexKey, Entry>,
                      now: real)
    requires retired == CurrentKeys(Contents(live.indexes)) && guarded == Guarded(history)
    ensures forall k :: k in live.byHash ==>
              (KeepsInode(live, retired, guarded, now, k) <==> Keeps(Snapshot(live), history, now, k))
  {}

  method FinishGeneration(staged: Dists, live: Dists, retired: set<HashKey>, guarded: set<HashKey>,
                          history: map<IndexKey, Entry>, now: real)
    requires staged != live && LinkedNow(staged, now)
    requires staged.byHash.Keys == CurrentKeys(Contents(staged.indexes))
    requires retired == CurrentKeys(Contents(live.indexes))
    requires history == NextHistory(Contents(staged.indexes), live.history) && guarded == Guarded(history)
    modifies staged`byHash, staged`history
    ensures Snapshot(staged) == Next(Contents(staged.indexes), old(Snapshot(live)), now)
    ensures Snapshot(live) == old(Snapshot(live))
  {
    CarryOver(staged, live, retired, guarded, now);
    staged.history := history;
    KeepsOnValues(live, retired, guarded, history, now);
    LoopsMakeNext(staged, Contents(staged.indexes), Snapshot(live), now);
  }

  /** prepare_by_hash.  Unless a history entry is not a list of strings of 64 lower-case hexadecimal
      digits, the staged tree becomes the next generation; the live tree, its files and their time
      stamps are not touched. */
  method PrepareByHash(staged: Dists, live: Dists, now: real) returns (ok: bool)
    requires Fresh(staged, live)
    modifies staged`byHash, staged`history, staged.indexes.Values
    ensures ok <==> forall i :: i in staged.indexes && i in live.history ==>
                      && live.history[i].Versions?
                      && forall v :: v in live.history[i].list ==>
                           |v| == 64 && forall c :: c in v ==> '0' <= c <= '9' || 'a' <= c <= 'f'
    ensures ok ==> Snapshot(staged) == Next(Contents(staged.indexes), old(Snapshot(live)), now)
    ensures Snapshot(live) == old(Snapshot(live))
  {
    var retired := PreviousCurrent(live);
    var history, guarded;
    ok, history, guarded := LinkCurrent(staged, live, now);
    forall i | i in staged.indexes && i in live.history { ReadableMeans(live.history[i]); }
    if !ok {
      return;
    }
    FinishGeneration(staged, live, retired, guarded, history, now);
  }
}
