/** Which database a branch has: computed once by the proxy's configuration and once more by the driver. */
module DatabaseNames {
  import opened Text
  import opened BranchNames

  /** The settings that decide names: connection.base_database and proxy.default_branch */
  datatype Config = Config(baseDatabase: string, defaultBranch: string)

  predicate Blank(s: string) {
    TrimSpace(s) == ""
  }

  /** The names that mean the base database when no default branch is set */
  predicate IsUsualDefault(sanitized: string) {
    sanitized == "main" || sanitized == "master" || sanitized == "default"
  }

  /** config.go: DatabaseNameForBranch */
  function DatabaseNameForBranch(cfg: Config, sanitized: string): string {
    if sanitized == "" then cfg.baseDatabase
    else
      var def := TrimSpace(cfg.defaultBranch);
      if def == "" then
        if IsUsualDefault(sanitized) then cfg.baseDatabase else cfg.baseDatabase + "_" + sanitized
      else if sanitized == SanitizeBranchName(def) then cfg.baseDatabase
      else cfg.baseDatabase + "_" + sanitized
  }

  /** postgres.go and mysql.go: isBaseBranch */
  predicate IsBaseBranch(drv: Config, sanitized: string) {
    var def := TrimSpace(drv.defaultBranch);
    if def == "" then IsUsualDefault(sanitized) else sanitized == SanitizeBranchName(def)
  }

  /** postgres.go and mysql.go: formatDBName */
  function FormatDBName(drv: Config, branch: string): string {
    var sanitized := SanitizeBranchName(branch);
    if IsBaseBranch(drv, sanitized) then drv.baseDatabase else drv.baseDatabase + "_" + sanitized
  }

  /** postgres.go and mysql.go: listedDefaultBranch */
  function ListedDefaultBranch(drv: Config): string {
    var def := TrimSpace(drv.defaultBranch);
    if def == "" then "main" else SanitizeBranchName(def)
  }

  const DriverBaseDatabase := "myapp_dev"

  /** main.go: driverParamsForConfig, as far as names go; `path` is the SQLite setting. */
  method DriverParamsForConfig(cfg: Config, path: string) returns (params: map<string, string>)
    ensures DriverConfig(params) == DriverView(cfg)
    ensures "path" in params <==> path != "" || cfg.baseDatabase != ""
    ensures "path" in params ==> params["path"] == if path != "" then path else cfg.baseDatabase
  {
    params := map["base_database" := cfg.baseDatabase];
    if TrimSpace(cfg.defaultBranch) != "" {
      params := params["default_branch" := cfg.defaultBranch];
    }
    if path != "" {
      params := params["path" := path];
    } else if cfg.baseDatabase != "" {
      params := params["path" := cfg.baseDatabase];
    }
  }

  /** The drivers' init: what a driver makes of its parameters */
  function DriverConfig(params: map<string, string>): Config {
    Config(
      if "base_database" in params && params["base_database"] != "" then params["base_database"] else DriverBaseDatabase,
      if "default_branch" in params && TrimSpace(params["default_branch"]) != "" then params["default_branch"] else "")
  }

  /** What a driver sees of a configuration */
  function DriverView(cfg: Config): Config {
    Config(if cfg.baseDatabase != "" then cfg.baseDatabase else DriverBaseDatabase,
           if Blank(cfg.defaultBranch) then "" else cfg.defaultBranch)
  }

  /** Routing and provisioning name the same database for every branch and every default branch,
      if and only if a base database is configured: without one, the driver uses its own. */
  lemma RoutingIsProvisioning(cfg: Config, branch: string)
    ensures var s := SanitizeBranchName(branch);
            DatabaseNameForBranch(cfg, s) == FormatDBName(DriverView(cfg), s) <==> cfg.baseDatabase != ""
  {
    var s := SanitizeBranchName(branch);
    SanitizeIdempotent(branch);
    SanitizedNonEmpty(branch);
    assert TrimSpace("") == "";
    if cfg.baseDatabase == "" {
      assert |DatabaseNameForBranch(cfg, s)| < |FormatDBName(DriverView(cfg), s)|;
    }
  }

  // ---- Isolation ----

  function DatabaseOf(cfg: Config, branch: string): string {
    DatabaseNameForBranch(cfg, SanitizeBranchName(branch))
  }

  /** The base database for the default branch, or for the usual names if no default branch is set; for every other branch the
      base name, an underscore and the branch's words in lower case. */
  lemma DatabaseOfBranch(cfg: Config, branch: string)
    ensures var s, def := Joined(Names(branch)), cfg.defaultBranch;
            DatabaseOf(cfg, branch) ==
            if (if Blank(def) then s in {"main", "master", "default"} else s == Joined(Names(def)))
            then cfg.baseDatabase else cfg.baseDatabase + "_" + s
  {
    SanitizeIsNames(branch);
    SanitizedNonEmpty(branch);
    WordsTrimSpace(cfg.defaultBranch);
    SanitizeIsNames(TrimSpace(cfg.defaultBranch));
  }

  lemma SuffixInjective(base: string, a: string, b: string)
    ensures base + "_" + a == base + "_" + b <==> a == b
    ensures base + "_" + a != base
  {
    assert (base + "_" + a)[|base| + 1..] == a && (base + "_" + b)[|base| + 1..] == b;
  }

  /** Two branches share a database exactly when they have the same sanitised name, or when the default branch is blank
      and both are among the usual names of a default branch. */
  lemma SharedDatabase(cfg: Config, a: string, b: string)
    ensures DatabaseOf(cfg, a) == DatabaseOf(cfg, b) <==>
            (|| SanitizeBranchName(a) == SanitizeBranchName(b)
             || (Blank(cfg.defaultBranch) && IsUsualDefault(SanitizeBranchName(a)) && IsUsualDefault(SanitizeBranchName(b))))
  {
    SanitizedNonEmpty(a);
    SanitizedNonEmpty(b);
    SuffixInjective(cfg.baseDatabase, SanitizeBranchName(a), SanitizeBranchName(b));
    SuffixInjective(cfg.baseDatabase, SanitizeBranchName(b), SanitizeBranchName(a));
  }

  /** resolver.go: ValidateBranchNameUnique over the local branches */
  method ValidateBranchNameUnique(branches: seq<string>, branch: string) returns (ok: bool)
    ensures ok <==> IsUnique(branches, branch)
  {
    var current := SanitizeBranchName(branch);
    for i := 0 to |branches|
      invariant forall k :: 0 <= k < i ==> branches[k] == branch || SanitizeBranchName(branches[k]) != current
    {
      if branches[i] != branch && SanitizeBranchName(branches[i]) == current { return false; }
    }
    return true;
  }

  /** No other branch has the same sanitised name. */
  ghost predicate IsUnique(branches: seq<string>, branch: string) {
    forall b :: b in branches && b != branch ==> SanitizeBranchName(b) != SanitizeBranchName(branch)
  }

  /** No other local branch has the same database. */
  ghost predicate IsIsolated(cfg: Config, branches: seq<string>, branch: string) {
    forall b :: b in branches && b != branch ==> DatabaseOf(cfg, b) != DatabaseOf(cfg, branch)
  }

  /** Another branch stands for the base database only because no default branch is set. */
  ghost predicate SharesBase(cfg: Config, branches: seq<string>, branch: string) {
    Blank(cfg.defaultBranch) && IsUsualDefault(SanitizeBranchName(branch)) &&
    exists b :: b in branches && b != branch && IsUsualDefault(SanitizeBranchName(b))
  }

  /** The uniqueness check isolates a branch, except in the one case that it does not look at. */
  lemma UniqueIsIsolated(cfg: Config, branches: seq<string>, branch: string)
    requires IsUnique(branches, branch)
    ensures IsIsolated(cfg, branches, branch) <==> !SharesBase(cfg, branches, branch)
    ensures !Blank(cfg.defaultBranch) ==> IsIsolated(cfg, branches, branch)
  {
    forall b | b in branches && b != branch
      ensures DatabaseOf(cfg, b) == DatabaseOf(cfg, branch) <==>
              (Blank(cfg.defaultBranch) && IsUsualDefault(SanitizeBranchName(branch)) && IsUsualDefault(SanitizeBranchName(b)))
    {
      SharedDatabase(cfg, b, branch);
    }
  }

  lemma IsolatedIsUnique(cfg: Config, branches: seq<string>, branch: string)
    requires IsIsolated(cfg, branches, branch)
    ensures IsUnique(branches, branch)
  {
    forall b | b in branches && b != branch
      ensures SanitizeBranchName(b) != SanitizeBranchName(branch)
    {
      SharedDatabase(cfg, b, branch);
    }
  }

  /** A lower-case word is its own sanitised name. */
  lemma WordSanitized(w: string)
    requires IsWord(w) && ToLower(w) == w
    ensures SanitizeBranchName(w) == w
  {
    WordFront(w, "");
    assert w + "" == w && Words("") == [];
    assert Words(w) == [w] && LowerWords([w]) == [w];
    SanitizeIsNames(w);
    assert Joined([w]) == w by { assert Tail([]) == ""; }
  }

  /** With a blank default branch, `main` and `master` both pass the uniqueness check and share the base database. */
  lemma MainAndMasterShare(cfg: Config, a: string, b: string)
    requires Blank(cfg.defaultBranch) && a == "main" && b == "master"
    ensures IsUnique([a, b], a) && IsUnique([a, b], b)
    ensures DatabaseOf(cfg, a) == DatabaseOf(cfg, b) == cfg.baseDatabase
    ensures !IsIsolated(cfg, [a, b], a) && !IsIsolated(cfg, [a, b], b)
  {
    WordSanitized(a);
    WordSanitized(b);
    assert a in [a, b] && b in [a, b] && |a| != |b|;
  }
}
