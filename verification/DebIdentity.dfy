/** The identity checks of parse_deb (prvaptmirror/debparse.py): name, version and architecture of an
    accepted package. */
module DebIdentity {
  import opened Basics
  import opened Text
  import opened PoolPath
  import Settings

  datatype IdentityError = MissingField | BadName | UnsafePath | BadVersion | ForeignArchitecture

  type Fields = map<string, string>

  /** A required field is there and not blank. */
  predicate Present(fields: Fields, key: string) { key in fields && Strip(fields[key]) != "" }

  /** The package name pattern: a lower-case letter or digit, then at least one more character. */
  predicate NameMatches(s: string) {
    |s| >= 2 && LowerAlnum(s[0]) && forall i :: 0 <= i < |s| ==> NameChar(s[i])
  }

  predicate HasDots(s: string) { exists i :: 0 <= i < |s| - 1 && s[i] == '.' && s[i + 1] == '.' }

  /** _unsafe_path_fragment */
  predicate UnsafeFragment(s: string, allowColon: bool) {
    '\0' in s || '/' in s || '\\' in s || HasDots(s) || (!allowColon && ':' in s)
  }

  function Identity(fields: Fields, allowed: Option<seq<string>>): Result<Nva, IdentityError> {
    if !Present(fields, "Package") || !Present(fields, "Version") || !Present(fields, "Architecture")
    then Err(MissingField)
    else
      var name := Lower(Strip(fields["Package"]));
      var version, arch := Strip(fields["Version"]), Strip(fields["Architecture"]);
      if !NameMatches(name) then Err(BadName)
      else if UnsafeFragment(name, false) || UnsafeFragment(arch, false) || UnsafeFragment(version, true)
      then Err(UnsafePath)
      else if !VersionOk(version) then Err(BadVersion)
      else if allowed.Some? && arch !in allowed.value then Err(ForeignArchitecture)
      else Ok(Nva(name, version, arch))
  }

  // ----- the same, spelled out -------------------------------------------------------------

  /** Two dots in a row. */
  ghost predicate TwoDots(s: string) { exists a, b :: s == a + ".." + b }

  /** At least two lower-case letters, digits, pluses, dots and dashes, a letter or digit first. */
  ghost predicate GoodName(s: string) {
    && |s| >= 2 && s[0] !in {'+', '.', '-'} && !TwoDots(s)
    && forall c :: c in s ==> 'a' <= c <= 'z' || '0' <= c <= '9' || c in {'+', '.', '-'}
  }

  /** Letters, digits, dots, pluses, tildes and dashes; and colons after an epoch: the first comes after
      at least one digit and nothing else, and something comes after it. */
  ghost predicate GoodVersion(s: string) {
    && s != "" && !TwoDots(s)
    && (forall c :: c in s ==>
          'a' <= c <= 'z' || 'A' <= c <= 'Z' || '0' <= c <= '9' || c in {'.', '+', '~', '-', ':'})
    && (':' in s ==>
          exists k :: 0 < k < |s| - 1 && s[k] == ':' && forall c :: c in s[..k] ==> '0' <= c <= '9')
  }

  /** A name for a file on its own. */
  ghost predicate GoodArch(s: string) {
    !TwoDots(s) && forall c :: c in s ==> c !in {'\0', '/', '\\', ':'}
  }

  lemma DotsAre(s: string)
    ensures HasDots(s) <==> TwoDots(s)
  {
    if i :| 0 <= i < |s| - 1 && s[i] == '.' && s[i + 1] == '.' {
      assert s == s[..i] + ".." + s[i + 2..];
    }
    if a, b :| s == a + ".." + b {
      assert s[|a|] == '.' && s[|a| + 1] == '.';
    }
  }

  /** b is a with every capital letter, and the Kelvin sign, made small. */
  ghost predicate InLowerCase(a: string, b: string) {
    && |a| == |b|
    && forall i :: 0 <= i < |a| ==>
         b[i] == if 'A' <= a[i] <= 'Z' then (a[i] as int - 'A' as int + 'a' as int) as char
                 else if a[i] == '\U{212a}' then 'k' else a[i]
  }

  lemma LowerIs(a: string, b: string)
    ensures Lower(a) == b <==> InLowerCase(a, b)
  {}

  lemma NameIs(s: string)
    ensures NameMatches(s) && !UnsafeFragment(s, false) <==> GoodName(s)
  {
    DotsAre(s);
    assert forall i :: 0 <= i < |s| ==> s[i] in s;
  }

  lemma VersionIs(s: string)
    ensures VersionOk(s) && !UnsafeFragment(s, true) <==> GoodVersion(s)
  {
    DotsAre(s);
    assert forall i :: 0 <= i < |s| ==> s[i] in s;
    if VersionOk(s) && ':' in s {
      var k :| 0 < k < |s| - 1 && s[k] == ':' && forall i :: 0 <= i < k ==> Digit(s[i]);
      assert forall c :: c in s[..k] ==> exists i :: 0 <= i < k && s[i] == c;
    }
    if GoodVersion(s) && ':' in s {
      var k :| 0 < k < |s| - 1 && s[k] == ':' && forall c :: c in s[..k] ==> '0' <= c <= '9';
      assert forall i :: 0 <= i < k ==> s[..k][i] == s[i] && s[..k][i] in s[..k];
    }
  }

  lemma ArchIs(s: string)
    ensures !UnsafeFragment(s, false) <==> GoodArch(s)
  {
    DotsAre(s);
  }

  /** Which control fields are accepted, and as what package: all three are there and not blank, name and
      version are good, and the architecture is on the list if there is one. */
  lemma AcceptedIff(fields: Fields, allowed: Option<seq<string>>, n: Nva)
    ensures Identity(fields, allowed) == Ok(n) <==>
            && "Package" in fields && "Version" in fields && "Architecture" in fields
            && InLowerCase(Strip(fields["Package"]), n.name)
            && n.version == Strip(fields["Version"]) && n.arch == Strip(fields["Architecture"])
            && GoodName(n.name) && GoodVersion(n.version) && GoodArch(n.arch) && n.arch != ""
            && (allowed.Some? ==> n.arch in allowed.value)
  {
    if "Package" in fields && "Version" in fields && "Architecture" in fields {
      LowerIs(Strip(fields["Package"]), n.name);
      NameIs(n.name);
      VersionIs(Strip(fields["Version"]));
      ArchIs(Strip(fields["Architecture"]));
    }
  }

  // ----- and what follows ------------------------------------------------------------------

  /** With a validated architecture list, what parse_deb accepts is a valid identity; its pool path
      stays below its component directory and names the package again. */
  lemma AcceptedIdentity(fields: Fields, archs: seq<string>, component: string)
    requires forall a :: a in archs ==> Settings.ArchOk(a)
    requires Identity(fields, Some(archs)).Ok?
    ensures var n := Identity(fields, Some(archs)).value;
            && ValidNva(n) && !HasDots(n.name) && !HasDots(n.version)
            && Owner(PoolRelative(component, n)) == Some(n)
  {
    var n := Identity(fields, Some(archs)).value;
    assert Settings.ArchOk(n.arch);
    assert forall i :: 0 <= i < |n.arch| ==> ArchChar(n.arch[i]);
    OwnerOfPoolRelative(component, n);
  }

  /** Without a list the pool path still names the package exactly when the architecture is
      lower-case and holds no underscore. */
  lemma UnlistedIdentity(fields: Fields, component: string)
    requires Identity(fields, None).Ok?
    ensures var n := Identity(fields, None).value;
            Accepted(n) && (Owner(PoolRelative(component, n)) == Some(n) <==> '_' !in n.arch && Lower(n.arch) == n.arch)
  {
    OwnerIff(component, Identity(fields, None).value);
  }
}
