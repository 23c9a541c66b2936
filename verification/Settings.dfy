/** The repository settings (prvaptmirror/settings.py): validating what the form sends, saving it as
    text and loading it again. */
module Settings {
  import opened Basics
  import opened Text
  import opened PoolPath
  import opened RepositoryState

  /** Accepted, refused by a validator, or refused by the startup check. */
  datatype Checked<+T> = Valid(value: T) | Invalid | Unstartable

  /** All ten settings the web form manages. */
  datatype AppConfig = AppConfig(repo: Config, publicUrl: string, maxUploadMb: int, maxUploadFiles: int,
                                 sessionDays: int)

  /** The settings as text, the way the form and the settings table hold them. */
  datatype RepoValues = RepoValues(suite: string, codename: string, component: string,
                                   architectures: string, origin: string, title: string)

  datatype Values = Values(repo: RepoValues, publicUrl: string, maxUploadMb: string, maxUploadFiles: string,
                           sessionDays: string)

  /** What urllib.parse says about an address. */
  datatype Url = Url(scheme: string, netloc: string, hostname: Option<string>, user: bool, password: bool,
                     query: string, fragment: string, portOk: bool)

  /** The library functions the validators rest on: urlparse, whether ip_address takes a host for a
      loopback address, and the value of a decimal digit outside ASCII. */
  datatype Library = Library(parse: string -> Url, loopback: string -> bool, decimal: char -> Option<nat>)

  /** What the startup check reads from the environment. */
  datatype Environment = Environment(insecureNoAuth: bool, cookieSecure: string)

  // ----- validators ------------------------------------------------------------------------

  predicate Alnum(c: char) { 'A' <= c <= 'Z' || LowerAlnum(c) }

  predicate RepoNameOk(s: string) {
    && 1 <= |s| <= 64 && Alnum(s[0])
    && forall i :: 0 <= i < |s| ==> Alnum(s[i]) || s[i] == '.' || s[i] == '_' || s[i] == '+' || s[i] == '-'
  }

  function RepoName(raw: string): Checked<string> {
    var value := Strip(raw);
    if RepoNameOk(value) then Valid(value) else Invalid
  }

  predicate DisplayOk(s: string) { 1 <= |s| <= 100 && forall i :: 0 <= i < |s| ==> s[i] >= ' ' }

  function DisplayText(raw: string): Checked<string> {
    var value := Strip(raw);
    if DisplayOk(value) then Valid(value) else Invalid
  }

  predicate UrlChar(c: char) {
    || Alnum(c) || c == ':' || c == '/' || c == '.' || c == '_' || c == '~'
    || c == '%' || c == '+' || c == '[' || c == ']' || c == '-'
  }

  predicate UrlOk(lib: Library, url: string) {
    var u := lib.parse(url);
    && u.portOk && (u.scheme == "http" || u.scheme == "https") && u.netloc != ""
    && u.hostname.Some? && u.hostname.value != "" && !u.user && !u.password && u.query == "" && u.fragment == ""
    && 1 <= |url| <= 2048 && forall i :: 0 <= i < |url| ==> UrlChar(url[i])
  }

  function PublicUrl(lib: Library, raw: string): Checked<string> {
    var url := RStripSlashes(Strip(raw));
    if UrlOk(lib, url) then Valid(url) else Invalid
  }

  function AsciiDigit(lib: Library, c: char): char {
    if c < '\U{80}' then c
    else
      match lib.decimal(c)
      case Some(d) => if d < 10 then DigitChar(d) else c
      case None => c
  }

  /** int() first writes every decimal digit in ASCII. */
  function AsciiDigits(lib: Library, s: string): string {
    seq(|s|, i requires 0 <= i < |s| => AsciiDigit(lib, s[i]))
  }

  /** int(raw) within bounds. */
  function BoundedInt(lib: Library, raw: string, min: int, max: int): Checked<int> {
    match PyInt(AsciiDigits(lib, Strip(raw)))
    case None => Invalid
    case Some(n) => if min <= n <= max then Valid(n) else Invalid
  }

  /** validate_startup */
  predicate StartupOk(lib: Library, env: Environment, url: string) {
    && (env.insecureNoAuth ==> IsLoopback(lib, lib.parse(url).hostname))
    && (env.cookieSecure == "auto" || env.cookieSecure == "true" || env.cookieSecure == "false")
  }

  predicate IsLoopback(lib: Library, host: Option<string>) {
    && host.Some? && host.value != ""
    && (Lower(host.value) == "localhost" || Lower(host.value) == "localhost." || lib.loopback(host.value))
  }

  predicate ArchOk(s: string) {
    && 1 <= |s| <= 32 && LowerAlnum(s[0])
    && forall i :: 0 <= i < |s| ==> ArchChar(s[i])
  }

  /** One turn of the loop over the architecture list. */
  function AddArch(archs: seq<string>, item: string): Checked<seq<string>> {
    var arch := Lower(Strip(item));
    if arch == "" then Valid(archs)
    else if !ArchOk(arch) then Invalid
    else if arch in archs then Valid(archs)
    else Valid(archs + [arch])
  }

  function AddArchs(archs: seq<string>, items: seq<string>): Checked<seq<string>>
    decreases |items|
  {
    if items == [] then Valid(archs)
    else
      match AddArch(archs, items[0])
      case Valid(more) => AddArchs(more, items[1..])
      case _ => Invalid
  }

  function Architectures(raw: string): Checked<seq<string>> {
    match AddArchs([], Split(raw, ','))
    case Valid(archs) => if 1 <= |archs| <= 16 then Valid(archs) else Invalid
    case _ => Invalid
  }

  method ParseArchitectures(raw: string) returns (r: Checked<seq<string>>)
    ensures r == Architectures(raw)
  {
    var items := Split(raw, ',');
    var archs: seq<string> := [];
    var i := 0;
    while i < |items|
      invariant 0 <= i <= |items|
      invariant AddArchs([], items) == AddArchs(archs, items[i..])
    {
      assert items[i..][0] == items[i] && items[i..][1..] == items[i + 1..];
      var arch := Lower(Strip(items[i]));
      if arch != "" {
        if !ArchOk(arch) {
          return Invalid;
        }
        if arch !in archs {
          archs := archs + [arch];
        }
      }
      i := i + 1;
    }
    if archs == [] || |archs| > 16 {
      return Invalid;
    }
    return Valid(archs);
  }

  // ----- text to config and back -----------------------------------------------------------

  function RepoFromValues(v: RepoValues): Checked<Config> {
    var archs := Architectures(v.architectures);
    var suite, codename, component := RepoName(v.suite), RepoName(v.codename), RepoName(v.component);
    var origin, title := DisplayText(v.origin), DisplayText(v.title);
    if !archs.Valid? || !suite.Valid? || !codename.Valid? || !component.Valid? || !origin.Valid? || !title.Valid?
    then Invalid
    else Valid(Config(suite.value, codename.value, component.value, archs.value, origin.value, title.value))
  }

  /** The validators of config_from_app_values. */
  function Validated(lib: Library, v: Values): Checked<AppConfig> {
    var repo, url := RepoFromValues(v.repo), PublicUrl(lib, v.publicUrl);
    var mb, files := BoundedInt(lib, v.maxUploadMb, 1, 10240), BoundedInt(lib, v.maxUploadFiles, 1, 100);
    var days := BoundedInt(lib, v.sessionDays, 1, 365);
    if !repo.Valid? || !url.Valid? || !mb.Valid? || !files.Valid? || !days.Valid? then Invalid
    else Valid(AppConfig(repo.value, url.value, mb.value, files.value, days.value))
  }

  /** config_from_app_values */
  function ConfigFromValues(lib: Library, env: Environment, v: Values): Checked<AppConfig> {
    var c := Validated(lib, v);
    if c.Valid? && !StartupOk(lib, env, c.value.publicUrl) then Unstartable else c
  }

  /** str(n) */
  function IntText(n: int): string { if n < 0 then "-" + Decimal(-n) else Decimal(n) }

  /** app_setting_values */
  function AppValues(c: AppConfig): Values {
    Values(RepoTexts(c.repo), c.publicUrl, IntText(c.maxUploadMb), IntText(c.maxUploadFiles), IntText(c.sessionDays))
  }

  function RepoTexts(c: Config): RepoValues {
    RepoValues(c.suite, c.codename, c.component, Join(c.archs, ","), c.origin, c.title)
  }

  /** What validation promises about the settings, spelled out. */
  ghost predicate Normal(lib: Library, c: AppConfig) {
    && NormalRepo(c.repo)
    && NormalUrl(lib, c.publicUrl)
    && 1 <= c.maxUploadMb <= 10240 && 1 <= c.maxUploadFiles <= 100 && 1 <= c.sessionDays <= 365
  }

  /** An http or https address of at most 2048 characters with a host, without user, password, query,
      fragment or a slash at the end. */
  ghost predicate NormalUrl(lib: Library, url: string) {
    var u := lib.parse(url);
    && u.portOk && (u.scheme == "http" || u.scheme == "https") && u.netloc != ""
    && u.hostname.Some? && u.hostname.value != "" && !u.user && !u.password && u.query == "" && u.fragment == ""
    && 1 <= |url| <= 2048 && url[|url| - 1] != '/'
    && forall c :: c in url ==>
         || 'A' <= c <= 'Z' || 'a' <= c <= 'z' || '0' <= c <= '9'
         || c in {':', '/', '.', '_', '~', '%', '+', '[', ']', '-'}
  }

  ghost predicate NormalRepo(c: Config) {
    && NormalName(c.suite) && NormalName(c.codename) && NormalName(c.component)
    && NormalText(c.origin) && NormalText(c.title)
    && NormalArchs(c.archs)
  }

  /** 1 to 64 letters, digits, dots, underscores, pluses and dashes, a letter or digit first. */
  ghost predicate NormalName(s: string) {
    && 1 <= |s| <= 64 && s[0] !in {'.', '_', '+', '-'}
    && forall c :: c in s ==>
         'A' <= c <= 'Z' || 'a' <= c <= 'z' || '0' <= c <= '9' || c in {'.', '_', '+', '-'}
  }

  /** 1 to 100 characters, no control characters, no white space at either end. */
  ghost predicate NormalText(s: string) {
    && 1 <= |s| <= 100 && (forall c :: c in s ==> c >= ' ')
    && !Whitespace(s[0]) && !Whitespace(s[|s| - 1])
  }

  /** 1 to 16 different architectures, each of 1 to 32 lower-case letters, digits and dashes, a letter or
      digit first. */
  ghost predicate NormalArchs(archs: seq<string>) {
    && 1 <= |archs| <= 16
    && (forall a :: a in archs ==> NormalArch(a))
    && (forall i, j :: 0 <= i < j < |archs| ==> archs[i] != archs[j])
  }

  ghost predicate NormalArch(a: string) {
    1 <= |a| <= 32 && a[0] != '-' && forall c :: c in a ==> 'a' <= c <= 'z' || '0' <= c <= '9' || c == '-'
  }

  lemma NamesAreNormal(s: string)
    ensures RepoNameOk(s) <==> NormalName(s)
  {
    assert forall i :: 0 <= i < |s| ==> s[i] in s;
    if NormalName(s) {
      assert s[0] in s;
    }
  }

  lemma TextsAreNormal(s: string)
    ensures DisplayOk(s) && Strip(s) == s <==> NormalText(s)
  {
    assert forall i :: 0 <= i < |s| ==> s[i] in s;
    LStripEnds(s);
    RStripEnds(LStrip(s));
    if NormalText(s) {
      StripNothing(s);
    }
  }

  lemma ArchsAreNormal(s: string)
    ensures ArchOk(s) <==> NormalArch(s)
  {
    assert forall i :: 0 <= i < |s| ==> s[i] in s;
    if NormalArch(s) {
      assert s[0] in s;
    }
  }

  lemma UrlsAreNormal(lib: Library, url: string)
    ensures UrlOk(lib, url) && url[|url| - 1] != '/' <==> NormalUrl(lib, url)
  {
    assert forall i :: 0 <= i < |url| ==> url[i] in url;
  }

  lemma {:induction false} LStripEnds(s: string)
    ensures LStrip(s) == [] || !Whitespace(LStrip(s)[0])
    ensures LStrip(s) == [] || LStrip(s)[|LStrip(s)| - 1] == s[|s| - 1]
  {
    if s != [] && Whitespace(s[0]) {
      LStripEnds(s[1..]);
    }
  }

  lemma {:induction false} RStripEnds(s: string)
    ensures RStrip(s) == [] || !Whitespace(RStrip(s)[|RStrip(s)| - 1])
    ensures RStrip(s) == [] || RStrip(s)[0] == s[0]
  {
    if s != [] && Whitespace(s[|s| - 1]) {
      RStripEnds(s[..|s| - 1]);
    }
  }

  lemma StripTwice(s: string)
    ensures Strip(Strip(s)) == Strip(s)
  {
    LStripEnds(s);
    RStripEnds(LStrip(s));
  }

  lemma StripNothing(s: string)
    requires s == [] || (!Whitespace(s[0]) && !Whitespace(s[|s| - 1]))
    ensures Strip(s) == s
  {}

  lemma {:induction false} AddArchsFacts(archs: seq<string>, items: seq<string>)
    requires forall a :: a in archs ==> ArchOk(a)
    requires forall i, j :: 0 <= i < j < |archs| ==> archs[i] != archs[j]
    requires AddArchs(archs, items).Valid?
    ensures var r := AddArchs(archs, items).value;
            && (forall a :: a in r ==> ArchOk(a))
            && (forall i, j :: 0 <= i < j < |r| ==> r[i] != r[j])
    decreases |items|
  {
    if items != [] {
      AddArchsFacts(AddArch(archs, items[0]).value, items[1..]);
    }
  }

  lemma {:induction false} NoSlashAtEnd(s: string)
    ensures RStripSlashes(s) == [] || RStripSlashes(s)[|RStripSlashes(s)| - 1] != '/'
  {
    if s != [] && s[|s| - 1] == '/' {
      NoSlashAtEnd(s[..|s| - 1]);
    }
  }

  lemma AcceptedRepoIsNormal(v: RepoValues, c: Config)
    requires RepoFromValues(v) == Valid(c)
    ensures NormalRepo(c)
    ensures c.suite == Strip(v.suite) && c.codename == Strip(v.codename) && c.component == Strip(v.component)
    ensures c.origin == Strip(v.origin) && c.title == Strip(v.title)
  {
    AddArchsFacts([], Split(v.architectures, ','));
    forall a | a in c.archs ensures NormalArch(a) {
      ArchsAreNormal(a);
    }
    NamesAreNormal(c.suite);
    NamesAreNormal(c.codename);
    NamesAreNormal(c.component);
    StripTwice(v.origin);
    StripTwice(v.title);
    TextsAreNormal(c.origin);
    TextsAreNormal(c.title);
  }

  lemma AcceptedUrlIsNormal(lib: Library, raw: string, url: string)
    requires PublicUrl(lib, raw) == Valid(url)
    ensures NormalUrl(lib, url) && url == RStripSlashes(Strip(raw))
  {
    NoSlashAtEnd(Strip(raw));
    UrlsAreNormal(lib, url);
  }

  /** Whatever the form sends, what is accepted is normal: in particular no architecture twice. */
  lemma AcceptedIsNormal(lib: Library, env: Environment, v: Values)
    requires ConfigFromValues(lib, env, v).Valid?
    ensures Normal(lib, ConfigFromValues(lib, env, v).value)
    ensures StartupOk(lib, env, ConfigFromValues(lib, env, v).value.publicUrl)
  {
    ValidatedIsNormal(lib, v, ConfigFromValues(lib, env, v).value);
  }

  /** ... and it is what was sent, without white space around it. */
  lemma AcceptedIsSent(lib: Library, env: Environment, v: Values, c: AppConfig)
    requires ConfigFromValues(lib, env, v) == Valid(c)
    ensures c.repo.suite == Strip(v.repo.suite) && c.repo.codename == Strip(v.repo.codename)
    ensures c.repo.component == Strip(v.repo.component)
    ensures c.repo.origin == Strip(v.repo.origin) && c.repo.title == Strip(v.repo.title)
    ensures c.publicUrl == RStripSlashes(Strip(v.publicUrl))
    ensures PyInt(AsciiDigits(lib, Strip(v.maxUploadMb))) == Some(c.maxUploadMb)
    ensures PyInt(AsciiDigits(lib, Strip(v.maxUploadFiles))) == Some(c.maxUploadFiles)
    ensures PyInt(AsciiDigits(lib, Strip(v.sessionDays))) == Some(c.sessionDays)
    ensures forall a :: a in c.repo.archs <==>
              a != "" && exists item :: item in Split(v.repo.architectures, ',') && a == Lower(Strip(item))
  {
    NumbersAreSent(lib, v, c);
    ValidatedRest(lib, v, c);
    AcceptedRepoIsNormal(v.repo, c.repo);
    ArchsAreSent(v.repo, c.repo);
  }

  lemma NumbersAreSent(lib: Library, v: Values, c: AppConfig)
    requires Validated(lib, v) == Valid(c)
    ensures PyInt(AsciiDigits(lib, Strip(v.maxUploadMb))) == Some(c.maxUploadMb)
    ensures PyInt(AsciiDigits(lib, Strip(v.maxUploadFiles))) == Some(c.maxUploadFiles)
    ensures PyInt(AsciiDigits(lib, Strip(v.sessionDays))) == Some(c.sessionDays)
  {}

  lemma ArchsAreSent(v: RepoValues, c: Config)
    requires RepoFromValues(v) == Valid(c)
    ensures forall a :: a in c.archs <==>
              a != "" && exists item :: item in Split(v.architectures, ',') && a == Lower(Strip(item))
  {
    AddArchsTakes([], Split(v.architectures, ','));
  }

  /** The names on the list, trimmed and in lower case, but the empty ones. */
  lemma {:induction false} AddArchsTakes(archs: seq<string>, items: seq<string>)
    requires AddArchs(archs, items).Valid?
    ensures forall a :: a in AddArchs(archs, items).value <==>
              a in archs || (a != "" && exists item :: item in items && a == Lower(Strip(item)))
    decreases |items|
  {
    if items != [] {
      var more := AddArch(archs, items[0]).value;
      AddArchsTakes(more, items[1..]);
      assert items == [items[0]] + items[1..];
      assert forall a :: a in more <==> a in archs || (a != "" && a == Lower(Strip(items[0])));
    }
  }

  lemma ValidatedIsNormal(lib: Library, v: Values, c: AppConfig)
    requires Validated(lib, v) == Valid(c)
    ensures Normal(lib, c)
  {
    ValidatedRepo(lib, v, c);
    ValidatedRest(lib, v, c);
  }

  lemma ValidatedRepo(lib: Library, v: Values, c: AppConfig)
    requires Validated(lib, v) == Valid(c)
    ensures NormalRepo(c.repo)
  {
    AcceptedRepoIsNormal(v.repo, c.repo);
  }

  lemma ValidatedRest(lib: Library, v: Values, c: AppConfig)
    requires Validated(lib, v) == Valid(c)
    ensures NormalUrl(lib, c.publicUrl) && c.publicUrl == RStripSlashes(Strip(v.publicUrl))
    ensures 1 <= c.maxUploadMb <= 10240 && 1 <= c.maxUploadFiles <= 100 && 1 <= c.sessionDays <= 365
  {
    AcceptedUrlIsNormal(lib, v.publicUrl, c.publicUrl);
  }

  lemma {:induction false} AddNormalArchs(archs: seq<string>, items: seq<string>)
    requires forall a :: a in items ==> ArchOk(a)
    requires forall i, j :: 0 <= i < j < |archs + items| ==> (archs + items)[i] != (archs + items)[j]
    ensures AddArchs(archs, items) == Valid(archs + items)
    decreases |items|
  {
    if items == [] {
      assert archs + items == archs;
    } else {
      var a := items[0];
      assert a in items;
      assert forall i :: 0 <= i < |a| ==> ArchChar(a[i]);
      LowerFixes(a);
      StripNothing(a);
      assert (archs + items)[|archs|] == a;
      assert a !in archs by {
        assert forall i :: 0 <= i < |archs| ==> (archs + items)[i] == archs[i];
      }
      assert (archs + [a]) + items[1..] == archs + items;
      AddNormalArchs(archs + [a], items[1..]);
    }
  }

  lemma ArchsReadBack(archs: seq<string>)
    requires NormalArchs(archs)
    ensures Architectures(Join(archs, ",")) == Valid(archs)
  {
    forall a | a in archs ensures ',' !in a && ArchOk(a) {
      ArchsAreNormal(a);
    }
    SplitJoin(archs, ',');
    assert [] + archs == archs;
    AddNormalArchs([], archs);
  }

  lemma NameReadsBack(name: string)
    requires NormalName(name)
    ensures RepoName(name) == Valid(name)
  {
    NamesAreNormal(name);
    assert Alnum(name[0]) && !Whitespace(name[|name| - 1]);
    StripNothing(name);
  }

  lemma RepoReadsBack(c: Config)
    requires NormalRepo(c)
    ensures RepoFromValues(RepoTexts(c)) == Valid(c)
  {
    ArchsReadBack(c.archs);
    NameReadsBack(c.suite);
    NameReadsBack(c.codename);
    NameReadsBack(c.component);
    TextsAreNormal(c.origin);
    TextsAreNormal(c.title);
  }

  lemma IntReadsBack(lib: Library, n: int, max: int)
    requires 1 <= n <= max
    ensures BoundedInt(lib, IntText(n), 1, max) == Valid(n)
  {
    var s := Decimal(n);
    assert Digit(s[0]) && Digit(s[|s| - 1]);
    StripNothing(s);
    assert AsciiDigits(lib, s) == s;
    PyIntOfDecimal(n);
  }

  lemma UrlReadsBack(lib: Library, url: string)
    requires NormalUrl(lib, url)
    ensures PublicUrl(lib, url) == Valid(url)
  {
    UrlsAreNormal(lib, url);
    assert UrlChar(url[0]) && UrlChar(url[|url| - 1]);
    StripNothing(url);
  }

  lemma PartsValidate(lib: Library, v: Values, c: AppConfig)
    requires RepoFromValues(v.repo) == Valid(c.repo) && PublicUrl(lib, v.publicUrl) == Valid(c.publicUrl)
    requires BoundedInt(lib, v.maxUploadMb, 1, 10240) == Valid(c.maxUploadMb)
    requires BoundedInt(lib, v.maxUploadFiles, 1, 100) == Valid(c.maxUploadFiles)
    requires BoundedInt(lib, v.sessionDays, 1, 365) == Valid(c.sessionDays)
    ensures Validated(lib, v) == Valid(c)
  {}

  lemma TextsValidate(lib: Library, c: AppConfig)
    requires Normal(lib, c)
    ensures Validated(lib, AppValues(c)) == Valid(c)
  {
    RepoReadsBack(c.repo);
    UrlReadsBack(lib, c.publicUrl);
    IntReadsBack(lib, c.maxUploadMb, 10240);
    IntReadsBack(lib, c.maxUploadFiles, 100);
    IntReadsBack(lib, c.sessionDays, 365);
    PartsValidate(lib, AppValues(c), c);
  }

  /** Normal settings survive being written as text and validated again, except that the startup
      check has its say with the environment of that moment. */
  lemma NormalReadsBack(lib: Library, env: Environment, c: AppConfig)
    requires Normal(lib, c)
    ensures ConfigFromValues(lib, env, AppValues(c)) ==
            if StartupOk(lib, env, c.publicUrl) then Valid(c) else Unstartable
  {
    TextsValidate(lib, c);
  }

  /** repository_settings_changed compares the texts; that is comparing the configs. */
  lemma ChangedMeansDifferent(a: Config, b: Config)
    requires NormalRepo(a) && NormalRepo(b)
    ensures RepoTexts(a) != RepoTexts(b) <==> a != b
  {
    RepoReadsBack(a);
    RepoReadsBack(b);
  }

  // ----- the settings table ----------------------------------------------------------------

  datatype Key =
    | Suite | Codename | Component | ArchList | Origin | Title
    | PublicAddress | MaxUploadMb | MaxUploadFiles | SessionDays
    | Other(name: string)

  /** save_app_config */
  function Saved(table: map<Key, string>, c: AppConfig): map<Key, string> {
    var v := AppValues(c);
    table[Suite := v.repo.suite][Codename := v.repo.codename][Component := v.repo.component]
         [ArchList := v.repo.architectures][Origin := v.repo.origin][Title := v.repo.title]
         [PublicAddress := v.publicUrl][MaxUploadMb := v.maxUploadMb][MaxUploadFiles := v.maxUploadFiles]
         [SessionDays := v.sessionDays]
  }

  function Lookup(table: map<Key, string>, k: Key, default: string): string {
    if k in table then table[k] else default
  }

  /** The environment's values, overridden by what the table holds. */
  function Stored(base: AppConfig, table: map<Key, string>): Values {
    var v := AppValues(base);
    Values(
      RepoValues(
        Lookup(table, Suite, v.repo.suite), Lookup(table, Codename, v.repo.codename),
        Lookup(table, Component, v.repo.component), Lookup(table, ArchList, v.repo.architectures),
        Lookup(table, Origin, v.repo.origin), Lookup(table, Title, v.repo.title)),
      Lookup(table, PublicAddress, v.publicUrl), Lookup(table, MaxUploadMb, v.maxUploadMb),
      Lookup(table, MaxUploadFiles, v.maxUploadFiles), Lookup(table, SessionDays, v.sessionDays))
  }

  /** load_app_config */
  function Loaded(lib: Library, env: Environment, base: AppConfig, table: map<Key, string>): Checked<AppConfig> {
    ConfigFromValues(lib, env, Stored(base, table))
  }

  /** Each setting is saved under its own key. */
  lemma SavedUnder(table: map<Key, string>, c: AppConfig)
    ensures var t := Saved(table, c);
            && t[Suite] == c.repo.suite && t[Codename] == c.repo.codename && t[Component] == c.repo.component
            && t[ArchList] == Join(c.repo.archs, ",") && t[Origin] == c.repo.origin && t[Title] == c.repo.title
            && t[PublicAddress] == c.publicUrl
            && (c.maxUploadMb >= 0 ==> t[MaxUploadMb] == Decimal(c.maxUploadMb))
            && (c.maxUploadFiles >= 0 ==> t[MaxUploadFiles] == Decimal(c.maxUploadFiles))
            && (c.sessionDays >= 0 ==> t[SessionDays] == Decimal(c.sessionDays))
  {}

  lemma SavedIsStored(base: AppConfig, table: map<Key, string>, c: AppConfig)
    ensures Stored(base, Saved(table, c)) == AppValues(c)
    ensures forall k: Key :: k.Other? && k in table ==> k in Saved(table, c) && Saved(table, c)[k] == table[k]
  {}

  /** What the startup check asks, spelled out: with authentication off, an address on the machine
      itself; and one of the three values for secure cookies. */
  ghost predicate Starts(lib: Library, env: Environment, url: string) {
    && (env.insecureNoAuth ==>
          var host := lib.parse(url).hostname;
          && host.Some? && host.value != ""
          && (Lower(host.value) == "localhost" || Lower(host.value) == "localhost." || lib.loopback(host.value)))
    && (env.cookieSecure == "auto" || env.cookieSecure == "true" || env.cookieSecure == "false")
  }

  lemma StartsIs(lib: Library, env: Environment, url: string)
    ensures Starts(lib, env, url) <==> StartupOk(lib, env, url)
  {}

  /** Settings were validated under one environment, saved, and are loaded under another: what comes
      back is what was saved if the startup check accepts it there, and otherwise loading raises.
      The environment has no other say, and saving touches no other key. */
  lemma LoadAfterSave(lib: Library, saving: Environment, loading: Environment, base: AppConfig,
                      table: map<Key, string>, v: Values)
    requires ConfigFromValues(lib, saving, v).Valid?
    ensures var c := ConfigFromValues(lib, saving, v).value;
            && (Loaded(lib, loading, base, Saved(table, c)) == Valid(c) <==> Starts(lib, loading, c.publicUrl))
            && (Loaded(lib, loading, base, Saved(table, c)) == Unstartable <==> !Starts(lib, loading, c.publicUrl))
            && forall k: Key :: k.Other? && k in table ==> k in Saved(table, c) && Saved(table, c)[k] == table[k]
  {
    var c := ConfigFromValues(lib, saving, v).value;
    AcceptedIsNormal(lib, saving, v);
    StartsIs(lib, loading, c.publicUrl);
    NormalReadsBack(lib, loading, c);
    SavedIsStored(base, table, c);
  }

  /** It raises when authentication is switched off in the environment of an installation that saved
      a public address. */
  lemma LoadRefused(lib: Library, base: AppConfig, table: map<Key, string>, c: AppConfig)
    requires Normal(lib, c) && !IsLoopback(lib, lib.parse(c.publicUrl).hostname)
    ensures Loaded(lib, Environment(false, "auto"), base, Saved(table, c)) == Valid(c)
    ensures Loaded(lib, Environment(true, "auto"), base, Saved(table, c)) == Unstartable
  {
    NormalReadsBack(lib, Environment(false, "auto"), c);
    NormalReadsBack(lib, Environment(true, "auto"), c);
    SavedIsStored(base, table, c);
  }

  const PLAIN_REPO := Config("stable", "stable", "main", ["amd64"], "o", "t")

  lemma PlainRepoIsNormal()
    ensures NormalRepo(PLAIN_REPO)
  {}

  /** Such settings exist. */
  lemma PublicSettingsExist() returns (lib: Library, c: AppConfig)
    ensures Normal(lib, c) && !IsLoopback(lib, lib.parse(c.publicUrl).hostname)
  {
    var url := Url("http", "example.org", Some("example.org"), false, false, "", "", true);
    lib := Library((s: string) => url, (s: string) => false, (d: char) => None);
    c := AppConfig(PLAIN_REPO, "http://example.org", 512, 20, 7);
    PlainRepoIsNormal();
    assert NormalUrl(lib, c.publicUrl);
    assert Lower("example.org")[0] == 'e' && "localhost"[0] == 'l' && "localhost."[0] == 'l';
  }
}
