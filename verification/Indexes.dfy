/** Which index lists which package (prvaptmirror/indexer.py, rebuild_dists). */
module Indexes {
  import opened Basics
  import opened PoolPath
  import opened RepositoryState

  datatype Package = Package(pkg: Pkg, active: bool)

  function Count(archs: seq<string>, a: string): nat {
    if archs == [] then 0 else (if archs[0] == a then 1 else 0) + Count(archs[1..], a)
  }

  /** How often the loop appends a package to the list of index a. */
  function Copies(p: Package, archs: seq<string>, a: string): nat {
    if !p.active || a !in archs then 0
    else if p.pkg.nva.arch == "all" then (if a == "all" then 1 else Count(archs, a))
    else if p.pkg.nva.arch == a then 1 else 0
  }

  function Repeat(p: Package, n: nat): seq<Package> { if n == 0 then [] else Repeat(p, n - 1) + [p] }

  function Listing(packages: seq<Package>, archs: seq<string>, a: string): seq<Package> {
    if packages == [] then []
    else Listing(packages[..|packages| - 1], archs, a) +
         Repeat(packages[|packages| - 1], Copies(packages[|packages| - 1], archs, a))
  }

  /** The active packages no index takes. */
  predicate Unlisted(p: Package, archs: seq<string>) {
    p.active && p.pkg.nva.arch != "all" && p.pkg.nva.arch !in archs
  }

  function Skips(packages: seq<Package>, archs: seq<string>): seq<Package> {
    if packages == [] then []
    else Skips(packages[..|packages| - 1], archs) +
         (if Unlisted(packages[|packages| - 1], archs) then [packages[|packages| - 1]] else [])
  }

  // ----- the loops -------------------------------------------------------------------------

  function AppendTo(m: map<string, seq<Package>>, a: string, p: Package): map<string, seq<Package>> {
    if a in m then m[a := m[a] + [p]] else m
  }

  /** The lists when p has been appended to the list all and to those of done. */
  function Appended(byArch: map<string, seq<Package>>, p: Package, done: seq<string>): map<string, seq<Package>> {
    if done == [] then AppendTo(byArch, "all", p)
    else
      var m, a := Appended(byArch, p, done[..|done| - 1]), done[|done| - 1];
      if a == "all" then m else AppendTo(m, a, p)
  }

  /** Each of them has gained p once for every time its name comes up, the list all only once. */
  lemma {:induction false} AppendedCopies(byArch: map<string, seq<Package>>, p: Package, done: seq<string>, a: string)
    requires a in byArch
    ensures var m := Appended(byArch, p, done);
            a in m && m[a] == byArch[a] + Repeat(p, if a == "all" then 1 else Count(done, a))
    ensures Appended(byArch, p, done).Keys == byArch.Keys
  {
    if done == [] {
      assert Repeat(p, 1) == Repeat(p, 0) + [p];
    } else {
      var front, x := done[..|done| - 1], done[|done| - 1];
      AppendedCopies(byArch, p, front, a);
      CountSnoc(front, x);
      assert done == front + [x];
      if x == a && a != "all" {
        var k := Count(front, a);
        assert Repeat(p, k + 1) == Repeat(p, k) + [p];
        assert (byArch[a] + Repeat(p, k)) + [p] == byArch[a] + (Repeat(p, k) + [p]);
      }
    }
  }

  /** by_arch["all"] once, then every other entry of the architecture list. */
  method ListEverywhere(byArch: map<string, seq<Package>>, archs: seq<string>, p: Package)
    returns (r: map<string, seq<Package>>)
    requires p.active && p.pkg.nva.arch == "all" && forall a :: a in byArch <==> a in archs
    ensures r.Keys == byArch.Keys
    ensures forall a :: a in byArch ==> r[a] == byArch[a] + Repeat(p, Copies(p, archs, a))
  {
    r := AppendEverywhere(byArch, archs, p);
    forall a | a in byArch ensures a in r && r[a] == byArch[a] + Repeat(p, Copies(p, archs, a)) {
      AppendedCopies(byArch, p, archs, a);
    }
  }

  method AppendEverywhere(byArch: map<string, seq<Package>>, archs: seq<string>, p: Package)
    returns (r: map<string, seq<Package>>)
    requires forall a :: a in byArch <==> a in archs
    ensures r == Appended(byArch, p, archs) && r.Keys == byArch.Keys
  {
    r := byArch;
    if "all" in r {
      r := r["all" := r["all"] + [p]];
    }
    for i := 0 to |archs|
      invariant r == Appended(byArch, p, archs[..i]) && r.Keys == byArch.Keys
    {
      assert archs[i] in archs;
      assert archs[..i + 1][..i] == archs[..i];
      if archs[i] != "all" {
        r := r[archs[i] := r[archs[i]] + [p]];
      }
    }
    assert archs[..|archs|] == archs;
  }

  lemma {:induction false} CountSnoc(archs: seq<string>, x: string)
    ensures forall a :: Count(archs + [x], a) == Count(archs, a) + if x == a then 1 else 0
  {
    if archs == [] {
      assert archs + [x] == [x];
      assert ([x])[1..] == [];
    } else {
      assert (archs + [x])[1..] == archs[1..] + [x];
      CountSnoc(archs[1..], x);
    }
  }

  /** rebuild_dists, where it sorts the packages into lists.  When no architecture is configured twice,
      each list is the active packages of its architecture and of all, each once and in order; what is
      skipped are the active packages of any other architecture. */
  method GroupByIndex(packages: seq<Package>, archs: seq<string>)
    returns (byArch: map<string, seq<Package>>, skipped: seq<Package>)
    ensures forall a :: a in byArch <==> a in archs
    ensures forall a :: a in archs ==> byArch[a] == Listing(packages, archs, a)
    ensures Distinct(archs) ==> forall a :: a in archs ==> byArch[a] == Chosen(packages, a)
    ensures skipped == Skips(packages, archs)
    ensures forall p :: p in skipped <==>
              p in packages && p.active && p.pkg.nva.arch != "all" && p.pkg.nva.arch !in archs
  {
    byArch, skipped := map a | a in archs :: [], [];
    for i := 0 to |packages|
      invariant forall a :: a in byArch <==> a in archs
      invariant forall a :: a in archs ==> byArch[a] == Listing(packages[..i], archs, a)
      invariant skipped == Skips(packages[..i], archs)
    {
      var p := packages[i];
      assert packages[..i + 1][..i] == packages[..i];
      var arch := p.pkg.nva.arch;
      if p.active {
        if arch == "all" {
          byArch := ListEverywhere(byArch, archs, p);
        } else if arch in byArch {
          assert Repeat(p, 1) == [p] by { assert Repeat(p, 0) + [p] == [p]; }
          byArch := byArch[arch := byArch[arch] + [p]];
        } else {
          skipped := skipped + [p];
        }
      }
    }
    assert packages[..|packages|] == packages;
    if Distinct(archs) {
      forall a | a in archs ensures byArch[a] == Chosen(packages, a) {
        PartitionIsExact(packages, archs, a);
      }
    }
    forall p ensures p in skipped <==> p in packages && Unlisted(p, archs) {
      SkipsMembers(packages, archs, p);
    }
  }

  // ----- the partition ---------------------------------------------------------------------

  lemma {:induction false} CountFacts(archs: seq<string>, a: string)
    ensures Count(archs, a) > 0 <==> a in archs
    ensures Distinct(archs) ==> Count(archs, a) <= 1
  {
    if archs != [] {
      CountFacts(archs[1..], a);
      assert archs == [archs[0]] + archs[1..];
      if Distinct(archs) {
        assert forall i :: 0 <= i < |archs[1..]| ==> archs[1..][i] == archs[i + 1];
        assert archs[0] !in archs[1..];
      }
    }
  }

  lemma {:induction false} CountTwice(archs: seq<string>, i: nat, j: nat)
    requires i < j < |archs| && archs[i] == archs[j]
    ensures Count(archs, archs[i]) >= 2
  {
    if i == 0 {
      assert archs[1..][j - 1] == archs[j];
      CountFacts(archs[1..], archs[j]);
    } else {
      assert archs[1..][i - 1] == archs[i] && archs[1..][j - 1] == archs[j];
      CountTwice(archs[1..], i - 1, j - 1);
    }
  }

  /** The active packages of an index, each once and in their order. */
  function Chosen(packages: seq<Package>, a: string): seq<Package> {
    if packages == [] then []
    else Chosen(packages[..|packages| - 1], a) +
         (var p := packages[|packages| - 1];
          if p.active && (p.pkg.nva.arch == a || p.pkg.nva.arch == "all") then [p] else [])
  }

  lemma OneCopy(p: Package, archs: seq<string>, a: string)
    requires Distinct(archs) && a in archs
    ensures Repeat(p, Copies(p, archs, a)) ==
            if p.active && (p.pkg.nva.arch == a || p.pkg.nva.arch == "all") then [p] else []
  {
    CountFacts(archs, a);
    assert Repeat(p, 1) == [p] by { assert Repeat(p, 0) + [p] == [p]; }
  }

  /** Without repeated architectures every index lists exactly its own packages and those of
      architecture all, each once. */
  lemma {:induction false} PartitionIsExact(packages: seq<Package>, archs: seq<string>, a: string)
    requires Distinct(archs) && a in archs
    ensures Listing(packages, archs, a) == Chosen(packages, a)
  {
    if packages != [] {
      PartitionIsExact(packages[..|packages| - 1], archs, a);
      OneCopy(packages[|packages| - 1], archs, a);
    }
  }

  /** One copy in each index it belongs to and none elsewhere, for every active package: that is
      the case exactly when no architecture other than all is configured twice. */
  lemma UniqueIffDistinct(archs: seq<string>)
    ensures (forall p: Package, a :: p.active && a in archs ==>
               Copies(p, archs, a) == if p.pkg.nva.arch == a || p.pkg.nva.arch == "all" then 1 else 0) <==>
            (forall i, j :: 0 <= i < j < |archs| && archs[i] == archs[j] ==> archs[i] == "all")
  {
    if i, j :| 0 <= i < j < |archs| && archs[i] == archs[j] && archs[i] != "all" {
      CountTwice(archs, i, j);
      var p := Package(Pkg(Nva("", "", "all"), Stray(""), ""), true);
      assert archs[i] in archs && Copies(p, archs, archs[i]) == Count(archs, archs[i]);
    } else {
      forall a | a in archs && a != "all" ensures Count(archs, a) == 1 {
        CountFacts(archs, a);
        CountOnce(archs, a);
      }
    }
  }

  lemma {:induction false} CountOnce(archs: seq<string>, a: string)
    requires forall i, j :: 0 <= i < j < |archs| ==> archs[i] != archs[j] || archs[i] != a
    ensures Count(archs, a) <= 1
  {
    if archs != [] {
      assert forall i :: 0 <= i < |archs[1..]| ==> archs[1..][i] == archs[i + 1];
      CountOnce(archs[1..], a);
      CountFacts(archs[1..], a);
    }
  }

  lemma {:induction false} SkipsMembers(packages: seq<Package>, archs: seq<string>, p: Package)
    ensures p in Skips(packages, archs) <==> p in packages && Unlisted(p, archs)
  {
    if packages != [] {
      var rest := packages[..|packages| - 1];
      SkipsMembers(rest, archs, p);
      assert packages == rest + [packages[|packages| - 1]];
    }
  }

  /** The skipped packages are exactly the active ones that no configured index takes. */
  lemma SkippedIsTheRest(packages: seq<Package>, archs: seq<string>, p: Package)
    requires archs != []
    ensures p in Skips(packages, archs) <==>
            p in packages && p.active && forall a :: a in archs ==> p.pkg.nva.arch != a && p.pkg.nva.arch != "all"
  {
    assert archs[0] in archs;
    SkipsMembers(packages, archs, p);
  }

  lemma {:induction false} ChosenMembers(packages: seq<Package>, a: string, p: Package)
    ensures p in Chosen(packages, a) <==> p in packages && p.active && Belongs(p.pkg.nva.arch, a)
  {
    if packages != [] {
      var rest := packages[..|packages| - 1];
      ChosenMembers(rest, a, p);
      assert packages == rest + [packages[|packages| - 1]];
    }
  }

  /** The lists the loops build are the indexes of RepositoryState.Rebuild. */
  lemma ListingsAreRebuild(cfg: Config, packages: seq<Package>, a: string, q: Pkg)
    requires Distinct(cfg.archs) && a in cfg.archs
    ensures q in Rebuild(cfg, set p | p in packages && p.active :: p.pkg).index[a] <==>
            exists p :: p in Listing(packages, cfg.archs, a) && p.pkg == q
  {
    PartitionIsExact(packages, cfg.archs, a);
    forall p ensures p in Listing(packages, cfg.archs, a) <==> p in packages && p.active && Belongs(p.pkg.nva.arch, a) {
      ChosenMembers(packages, a, p);
    }
  }
}
