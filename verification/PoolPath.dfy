/** Where a package lives in the pool (prvaptmirror/storage.py) and how a file name is read
    back into a package identity (prvaptmirror/source_sync.py). */
module PoolPath {
  import opened Basics
  import opened Text

  /** The UNIQUE key of the packages table. */
  datatype Nva = Nva(name: string, version: string, arch: string)

  // ----- alphabets -------------------------------------------------------------------------

  predicate LowerAlnum(c: char) { 'a' <= c <= 'z' || Digit(c) }

  predicate NameChar(c: char) { LowerAlnum(c) || c == '+' || c == '.' || c == '-' }

  predicate VersionChar(c: char) {
    LowerAlnum(c) || 'A' <= c <= 'Z' || c == '.' || c == '+' || c == ':' || c == '~' || c == '-'
  }

  predicate ArchChar(c: char) { LowerAlnum(c) || c == '-' }

  /** A version as section 5.6.12 of Debian Policy spells it: a colon only after a numeric epoch. */
  predicate VersionOk(s: string) {
    && s != []
    && (forall i :: 0 <= i < |s| ==> VersionChar(s[i]))
    && (':' in s ==>
          exists k :: 0 < k < |s| - 1 && s[k] == ':' && forall i :: 0 <= i < k ==> Digit(s[i]))
  }

  /** What parse_deb accepts of name and version, and of an architecture it has no list for. */
  predicate Accepted(p: Nva) {
    && |p.name| >= 2 && LowerAlnum(p.name[0]) && (forall i :: 0 <= i < |p.name| ==> NameChar(p.name[i]))
    && VersionOk(p.version)
    && p.arch != [] && '/' !in p.arch
  }

  /** What it accepts given an architecture list that passed the settings validator. */
  predicate ValidNva(p: Nva) {
    && Accepted(p)
    && p.arch != [] && (forall i :: 0 <= i < |p.arch| ==> ArchChar(p.arch[i]))
  }

  // ----- writing a path --------------------------------------------------------------------

  function PoolPrefix(name: string): string
    requires name != []
  {
    if "lib" <= name && |name| >= 4 then name[..4] else [name[0]]
  }

  function DebName(p: Nva): string { p.name + "_" + p.version + "_" + p.arch + ".deb" }

  /** What follows the component in a pool path. */
  function BelowComponent(p: Nva): string
    requires p.name != []
  {
    "/" + PoolPrefix(p.name) + "/" + p.name + "/" + DebName(p)
  }

  function PoolRelative(component: string, p: Nva): string
    requires p.name != []
  {
    "pool/" + component + BelowComponent(p)
  }

  /** A library whose name has a fourth letter is filed under four letters, everything else under one. */
  lemma PathIs(component: string, p: Nva)
    requires p.name != []
    ensures var letters := if |p.name| >= 4 && p.name[..3] == "lib" then p.name[..4] else p.name[..1];
            PoolRelative(component, p) ==
            "pool/" + component + "/" + letters + "/" + p.name + "/" +
            p.name + "_" + p.version + "_" + p.arch + ".deb"
  {
    PutTogether("pool/" + component, PoolPrefix(p.name), p);
  }

  lemma PutTogether(front: string, letters: string, p: Nva)
    ensures front + ("/" + letters + "/" + p.name + "/" + DebName(p)) ==
            front + "/" + letters + "/" + p.name + "/" + p.name + "_" + p.version + "_" + p.arch + ".deb"
  {
    var dir := front + "/" + letters + "/" + p.name + "/";
    assert front + ("/" + letters + "/" + p.name + "/" + DebName(p)) == dir + DebName(p);
    assert dir + DebName(p) == dir + p.name + "_" + p.version + "_" + p.arch + ".deb";
  }

  // ----- reading a file name ---------------------------------------------------------------

  /** Position of the last c in s, or -1 (str.rfind). */
  function LastIndexOf(s: string, c: char): (k: int)
    ensures -1 <= k < |s|
    ensures k >= 0 ==> s[k] == c
    ensures forall i :: k < i < |s| ==> s[i] != c
  {
    if s == [] then -1
    else if s[|s| - 1] == c then |s| - 1
    else LastIndexOf(s[..|s| - 1], c)
  }

  function LastSegment(path: string): string { path[LastIndexOf(path, '/') + 1..] }

  /** str.lower, as far as letters go that it maps into ASCII; the Kelvin sign is the only one outside
      ASCII.  What it does to the others is left out: they end up outside every alphabet either way. */
  function LowerChar(c: char): char {
    if 'A' <= c <= 'Z' then (c as int + 32) as char else if c == '\U{212a}' then 'k' else c
  }

  function Lower(s: string): string { seq(|s|, i requires 0 <= i < |s| => LowerChar(s[i])) }

  predicate EndsWith(s: string, suffix: string) { |s| >= |suffix| && s[|s| - |suffix|..] == suffix }

  /** The two rightmost underscores separate name, version and architecture. */
  function StemIdentity(stem: string): Option<Nva> {
    var j := LastIndexOf(stem, '_');
    if j < 0 then None
    else
      var i := LastIndexOf(stem[..j], '_');
      if i < 0 then None
      else
        var name, version, arch := stem[..i], stem[i + 1..j], stem[j + 1..];
        if name == [] || arch == [] || !VersionOk(version) then None
        else Some(Nva(Lower(name), version, Lower(arch)))
  }

  /** _directory_deb_identity */
  function DirectoryIdentity(filename: string): Option<Nva> {
    if !EndsWith(Lower(filename), ".deb") then None else StemIdentity(filename[..|filename| - 4])
  }

  /** The package a pool path belongs to, judged by its last segment alone. */
  function Owner(path: string): Option<Nva> { DirectoryIdentity(LastSegment(path)) }

  // ----- the two are inverse ---------------------------------------------------------------

  lemma {:induction false} LastIndexOfSplit(a: string, c: char, b: string)
    requires c !in b
    ensures LastIndexOf(a + [c] + b, c) == |a|
  {
    var s := a + [c] + b;
    if b == [] {
      assert s[|s| - 1] == c;
    } else {
      assert s[..|s| - 1] == a + [c] + b[..|b| - 1];
      assert s[|s| - 1] == b[|b| - 1] && b[|b| - 1] in b;
      LastIndexOfSplit(a, c, b[..|b| - 1]);
    }
  }

  lemma LowerFixes(s: string)
    requires forall i :: 0 <= i < |s| ==> !('A' <= s[i] <= 'Z') && s[i] != '\U{212a}'
    ensures Lower(s) == s
  {}

  lemma DebNameHasNoSlash(p: Nva)
    requires Accepted(p)
    ensures '/' !in DebName(p)
  {}

  function Stem(p: Nva): string { p.name + "_" + p.version + "_" + p.arch }

  lemma StemReadsBack(p: Nva)
    requires Accepted(p) && '_' !in p.arch
    ensures StemIdentity(Stem(p)) == Some(p.(arch := Lower(p.arch)))
  {
    var front, stem := p.name + "_" + p.version, Stem(p);
    LastIndexOfSplit(front, '_', p.arch);
    var j := LastIndexOf(stem, '_');
    assert stem[..j] == p.name + ['_'] + p.version;
    assert '_' !in p.version by { assert !VersionChar('_'); }
    LastIndexOfSplit(p.name, '_', p.version);
    assert stem[..|p.name|] == p.name;
    assert stem[|p.name| + 1..j] == p.version;
    assert stem[j + 1..] == p.arch;
    assert forall i :: 0 <= i < |p.name| ==> NameChar(p.name[i]);
    LowerFixes(p.name);
  }

  lemma StemMisread(p: Nva)
    requires '_' in p.arch
    ensures StemIdentity(Stem(p)) != Some(p)
  {}

  lemma DebNameStem(p: Nva)
    ensures DirectoryIdentity(DebName(p)) == StemIdentity(Stem(p))
  {
    var f := DebName(p);
    assert f == Stem(p) + ".deb";
    assert f[..|f| - 4] == Stem(p);
    assert Lower(f)[|f| - 4..] == ".deb" by { assert f[|f| - 4..] == ".deb"; }
  }

  /** A package file name is read back exactly when the architecture is lower-case and holds no
      underscore. */
  lemma IdentityIff(p: Nva)
    requires Accepted(p)
    ensures DirectoryIdentity(DebName(p)) == Some(p) <==> '_' !in p.arch && Lower(p.arch) == p.arch
  {
    DebNameStem(p);
    if '_' in p.arch {
      StemMisread(p);
    } else {
      StemReadsBack(p);
    }
  }

  /** The same for the last segment of its pool path, under any component. */
  lemma OwnerIff(component: string, p: Nva)
    requires Accepted(p)
    ensures Owner(PoolRelative(component, p)) == Some(p) <==> '_' !in p.arch && Lower(p.arch) == p.arch
  {
    var dir := "pool/" + component + ("/" + PoolPrefix(p.name) + "/" + p.name);
    assert PoolRelative(component, p) == dir + ['/'] + DebName(p);
    DebNameHasNoSlash(p);
    LastIndexOfSplit(dir, '/', DebName(p));
    assert LastSegment(PoolRelative(component, p)) == DebName(p);
    IdentityIff(p);
  }

  /** The last segment of every pool path names exactly the package it was built for. */
  lemma OwnerOfPoolRelative(component: string, p: Nva)
    requires ValidNva(p)
    ensures Owner(PoolRelative(component, p)) == Some(p)
  {
    assert '_' !in p.arch by { assert !ArchChar('_'); }
    assert forall i :: 0 <= i < |p.arch| ==> ArchChar(p.arch[i]);
    LowerFixes(p.arch);
    OwnerIff(component, p);
  }

  lemma CancelAround(pre: string, c: string, c': string, tail: string)
    requires pre + c + tail == pre + c' + tail
    ensures c == c'
  {
    var s, s' := pre + c + tail, pre + c' + tail;
    assert |s| == |s'|;
    assert c == s[|pre|..|pre| + |c|];
    assert c' == s'[|pre|..|pre| + |c'|];
  }

  /** No two packages, and no two components, share a pool path. */
  lemma PoolRelativeInjective(c: string, p: Nva, c': string, p': Nva)
    requires ValidNva(p) && ValidNva(p')
    requires PoolRelative(c, p) == PoolRelative(c', p')
    ensures c == c' && p == p'
  {
    OwnerOfPoolRelative(c, p);
    OwnerOfPoolRelative(c', p');
    CancelAround("pool/", c, c', BelowComponent(p));
  }

  /** It happens to a caller that gives parse_deb no architecture list. */
  lemma MisreadHappens() returns (p: Nva)
    ensures Accepted(p) && DirectoryIdentity(DebName(p)) != Some(p)
  {
    p := Nva("ab", "1", "x_y");
    assert p.arch[1] == '_';
    IdentityIff(p);
  }
}
