/** cmd/branchbase/main.go, runPrune, and the drivers' DeleteBranch. */
module Prune {
  import opened Text
  import opened BranchNames
  import opened DatabaseNames

  /** driver.BranchInfo */
  datatype Listed = Listed(name: string, database: string, size: int, isProtected: bool)

  datatype Reason = Merged | Orphaned

  datatype Candidate = Candidate(branch: Listed, reason: Reason)

  /** What git says: the branch checked out, the local branches, and those merged into the default branch */
  datatype Repository = Repository(active: string, locals: seq<string>, merged: seq<string>)

  // ---- The specification: sanitised names only ----

  function Sanitized(branches: seq<string>): set<string> {
    set b | b in branches :: SanitizeBranchName(b)
  }

  function DefaultBranch(cfg: Config): string {
    if cfg.defaultBranch == "" then "main" else cfg.defaultBranch
  }

  predicate Spared(cfg: Config, git: Repository, b: Listed) {
    || b.isProtected || b.name == DefaultBranch(cfg) || b.database == cfg.baseDatabase
    || SanitizeBranchName(b.name) in {SanitizeBranchName(git.active), SanitizeBranchName(DefaultBranch(cfg))}
  }

  /** The candidate that a listed database makes, if any */
  function Judge(cfg: Config, git: Repository, b: Listed): (c: seq<Candidate>)
    ensures |c| <= 1 && (c != [] ==> c[0].branch == b)
  {
    var s := SanitizeBranchName(b.name);
    if Spared(cfg, git, b) then []
    else if s in Sanitized(git.merged) then [Candidate(b, Merged)]
    else if git.locals != [] && s !in Sanitized(git.locals) then [Candidate(b, Orphaned)]
    else []
  }

  function Judgements(cfg: Config, git: Repository, listing: seq<Listed>): (r: seq<seq<Candidate>>)
    ensures |r| == |listing|
  {
    seq(|listing|, i requires 0 <= i < |listing| => Judge(cfg, git, listing[i]))
  }

  function Flatten(lists: seq<seq<Candidate>>, n: nat): seq<Candidate>
    requires n <= |lists|
  {
    if n == 0 then [] else Flatten(lists, n - 1) + lists[n - 1]
  }

  /** The candidates among the first `n` databases listed */
  function CandidatesIn(cfg: Config, git: Repository, listing: seq<Listed>, n: nat): seq<Candidate>
    requires n <= |listing|
  {
    Flatten(Judgements(cfg, git, listing), n)
  }

  function Candidates(cfg: Config, git: Repository, listing: seq<Listed>): seq<Candidate> {
    CandidatesIn(cfg, git, listing, |listing|)
  }

  function TotalBytes(candidates: seq<Candidate>): int {
    if candidates == [] then 0
    else TotalBytes(candidates[..|candidates| - 1]) + candidates[|candidates| - 1].branch.size
  }

  // ---- The code: lookups of raw and of sanitised names in one map ----

  /** localMap and mergedMap: both forms of every name */
  method NameMap(branches: seq<string>) returns (m: map<string, bool>)
    ensures m.Keys == Both(branches)
  {
    m := map[];
    for i := 0 to |branches|
      invariant m.Keys == Both(branches[..i])
    {
      BothNext(branches, i);
      m := m[branches[i] := true];
      m := m[SanitizeBranchName(branches[i]) := true];
    }
    assert branches[..|branches|] == branches;
  }

  lemma BothNext(branches: seq<string>, i: nat)
    requires i < |branches|
    ensures Both(branches[..i + 1]) == Both(branches[..i]) + {branches[i], SanitizeBranchName(branches[i])}
  {
    assert branches[..i + 1] == branches[..i] + [branches[i]];
  }

  function Both(branches: seq<string>): set<string> {
    (set b | b in branches) + Sanitized(branches)
  }

  /** Because sanitising is idempotent, asking for either form asks for the sanitised form. */
  lemma LookupIsSanitized(branches: seq<string>, name: string)
    ensures name in Both(branches) || SanitizeBranchName(name) in Both(branches) <==>
            SanitizeBranchName(name) in Sanitized(branches)
  {
    forall b | b in branches
      ensures SanitizeBranchName(SanitizeBranchName(b)) == SanitizeBranchName(b)
    {
      SanitizeIdempotent(b);
    }
    if name in Both(branches) {
      var b :| b in branches && (name == b || name == SanitizeBranchName(b));
    }
    if SanitizeBranchName(name) in Both(branches) {
      SanitizeIdempotent(name);
      var b :| b in branches && (SanitizeBranchName(name) == b || SanitizeBranchName(name) == SanitizeBranchName(b));
    }
  }

  lemma BothEmpty(branches: seq<string>)
    ensures Both(branches) == {} <==> branches == []
  {
    if branches != [] {
      assert branches[0] in Both(branches);
    }
  }

  /** A name is looked up in both forms. */
  method IsKnown(m: map<string, bool>, branches: seq<string>, name: string) returns (r: bool)
    requires m.Keys == Both(branches)
    ensures r <==> SanitizeBranchName(name) in Sanitized(branches)
  {
    LookupIsSanitized(branches, name);
    return name in m || SanitizeBranchName(name) in m;
  }

  /** Never prune the base database, the default branch or the active branch. */
  method IsSpared(cfg: Config, git: Repository, b: Listed) returns (r: bool)
    ensures r == Spared(cfg, git, b)
  {
    if b.isProtected || b.name == DefaultBranch(cfg) || b.database == cfg.baseDatabase { return true; }
    var sanitizedName := SanitizeBranchName(b.name);
    return sanitizedName == SanitizeBranchName(git.active) || sanitizedName == SanitizeBranchName(DefaultBranch(cfg));
  }

  /** One turn of the loop over the listing */
  method JudgeListed(cfg: Config, git: Repository, mergedMap: map<string, bool>, localMap: map<string, bool>, b: Listed)
    returns (candidate: seq<Candidate>)
    requires mergedMap.Keys == Both(git.merged) && localMap.Keys == Both(git.locals)
    ensures candidate == Judge(cfg, git, b)
  {
    var spared := IsSpared(cfg, git, b);
    if spared { return []; }
    var merged := IsKnown(mergedMap, git.merged, b.name);
    if merged { return [Candidate(b, Merged)]; }
    var known := IsKnown(localMap, git.locals, b.name);
    BothEmpty(git.locals);
    if |localMap.Keys| > 0 && !known { return [Candidate(b, Orphaned)]; }
    return [];
  }

  lemma TotalBytesNext(candidates: seq<Candidate>, c: seq<Candidate>)
    requires |c| <= 1
    ensures TotalBytes(candidates + c) == TotalBytes(candidates) + if c == [] then 0 else c[0].branch.size
  {
    if c == [] {
      assert candidates + c == candidates;
    } else {
      assert (candidates + c)[..|candidates|] == candidates;
    }
  }

  /** One listed database: the lists before and after it */
  method AddJudged(cfg: Config, git: Repository, mergedMap: map<string, bool>, localMap: map<string, bool>, b: Listed,
                   candidates: seq<Candidate>, totalBytes: int) returns (candidates': seq<Candidate>, totalBytes': int)
    requires mergedMap.Keys == Both(git.merged) && localMap.Keys == Both(git.locals)
    requires totalBytes == TotalBytes(candidates)
    ensures candidates' == candidates + Judge(cfg, git, b)
    ensures totalBytes' == TotalBytes(candidates')
  {
    var c := JudgeListed(cfg, git, mergedMap, localMap, b);
    TotalBytesNext(candidates, c);
    candidates' := candidates + c;
    totalBytes' := if c == [] then totalBytes else totalBytes + b.size;
  }

  method SelectCandidates(cfg: Config, git: Repository, listing: seq<Listed>)
    returns (candidates: seq<Candidate>, totalBytes: int)
    ensures candidates == Candidates(cfg, git, listing)
    ensures totalBytes == TotalBytes(candidates)
  {
    var localMap := NameMap(git.locals);
    var mergedMap := NameMap(git.merged);
    candidates, totalBytes := [], 0;
    for i := 0 to |listing|
      invariant candidates == CandidatesIn(cfg, git, listing, i)
      invariant totalBytes == TotalBytes(candidates)
    {
      candidates, totalBytes := AddJudged(cfg, git, mergedMap, localMap, listing[i], candidates, totalBytes);
    }
  }

  // ---- Deleting ----

  /** What deleting one candidate drops */
  function Drop(drv: Config, c: Candidate, fails: bool): set<string> {
    var db := FormatDBName(drv, c.branch.name);
    if fails || db == drv.baseDatabase then {} else {db}
  }

  /** The databases that the deletions of the first `n` candidates drop; `fails` says which DROP statements fail. */
  function DroppedBy(drv: Config, candidates: seq<Candidate>, fails: seq<bool>, n: nat): set<string>
    requires |fails| == |candidates| && n <= |candidates|
  {
    Union(Drops(drv, candidates, fails), n)
  }

  function Drops(drv: Config, candidates: seq<Candidate>, fails: seq<bool>): (r: seq<set<string>>)
    requires |fails| == |candidates|
    ensures |r| == |candidates|
  {
    seq(|candidates|, i requires 0 <= i < |candidates| => Drop(drv, candidates[i], fails[i]))
  }

  function Union(sets: seq<set<string>>, n: nat): set<string>
    requires n <= |sets|
  {
    if n == 0 then {} else Union(sets, n - 1) + sets[n - 1]
  }

  function Dropped(drv: Config, candidates: seq<Candidate>, fails: seq<bool>): set<string>
    requires |fails| == |candidates|
  {
    DroppedBy(drv, candidates, fails, |candidates|)
  }

  lemma {:induction false} InSomeSet(sets: seq<set<string>>, n: nat, x: string) returns (i: nat)
    requires n <= |sets| && x in Union(sets, n)
    ensures i < n && x in sets[i]
  {
    if x in sets[n - 1] {
      i := n - 1;
    } else {
      i := InSomeSet(sets, n - 1, x);
    }
  }

  lemma {:induction false} SetInUnion(sets: seq<set<string>>, n: nat, i: nat, x: string)
    requires i < n <= |sets| && x in sets[i]
    ensures x in Union(sets, n)
  {
    if i < n - 1 { SetInUnion(sets, n - 1, i, x); }
  }

  /** A database is dropped exactly when some candidate has it by its name, its DROP statement does not fail,
      and it is not the base database. */
  lemma DroppedIff(drv: Config, candidates: seq<Candidate>, fails: seq<bool>, db: string)
    requires |fails| == |candidates|
    ensures db in Dropped(drv, candidates, fails) <==>
            db != drv.baseDatabase &&
            exists i :: 0 <= i < |candidates| && !fails[i] && FormatDBName(drv, candidates[i].branch.name) == db
  {
    if db in Dropped(drv, candidates, fails) {
      var i := DroppedIsDrop(drv, candidates, fails, db);
    }
    forall i | 0 <= i < |candidates| && db in Drop(drv, candidates[i], fails[i]) ensures db in Dropped(drv, candidates, fails) {
      SetInUnion(Drops(drv, candidates, fails), |candidates|, i, db);
    }
  }

  lemma DroppedIsDrop(drv: Config, candidates: seq<Candidate>, fails: seq<bool>, db: string) returns (i: nat)
    requires |fails| == |candidates| && db in Dropped(drv, candidates, fails)
    ensures i < |candidates| && db in Drop(drv, candidates[i], fails[i])
  {
    i := InSomeSet(Drops(drv, candidates, fails), |candidates|, db);
  }

  /** The database server behind a driver */
  class Server {
    const drv: Config
    var databases: set<string>

    constructor (drv: Config, databases: set<string>)
      ensures this.drv == drv && this.databases == databases
    {
      this.drv, this.databases := drv, databases;
    }

    /** DeleteBranch; `fails` says whether the DROP statement fails. */
    method DeleteBranch(name: string, fails: bool) returns (ok: bool)
      modifies this
      ensures ok <==> FormatDBName(drv, name) != drv.baseDatabase && !fails
      ensures databases == if ok then old(databases) - {FormatDBName(drv, name)} else old(databases)
    {
      var dbName := FormatDBName(drv, name);
      if dbName == drv.baseDatabase { return false; }
      if fails { return false; }
      databases := databases - {dbName};
      return true;
    }
  }

  method DeleteCandidates(server: Server, candidates: seq<Candidate>, fails: seq<bool>)
    requires |fails| == |candidates|
    modifies server
    ensures server.databases == old(server.databases) - Dropped(server.drv, candidates, fails)
  {
    for i := 0 to |candidates|
      invariant server.databases == old(server.databases) - DroppedBy(server.drv, candidates, fails, i)
    {
      var ok := server.DeleteBranch(candidates[i].branch.name, fails[i]);
    }
  }

  /** runPrune: `asked` is false for a dry run, or when the user declines. */
  method RunPrune(cfg: Config, git: Repository, server: Server, listing: seq<Listed>, asked: bool, fails: seq<bool>)
    requires |fails| == |Candidates(cfg, git, listing)|
    modifies server
    ensures server.databases ==
            old(server.databases) - if asked then Dropped(server.drv, Candidates(cfg, git, listing), fails) else {}
  {
    var candidates, totalBytes := SelectCandidates(cfg, git, listing);
    if !asked { return; }
    DeleteCandidates(server, candidates, fails);
  }

  // ---- What is never dropped ----

  lemma {:induction false} InSomeList(lists: seq<seq<Candidate>>, n: nat, c: Candidate) returns (i: nat)
    requires n <= |lists| && c in Flatten(lists, n)
    ensures i < n && c in lists[i]
  {
    if c in lists[n - 1] {
      i := n - 1;
    } else {
      i := InSomeList(lists, n - 1, c);
    }
  }

  lemma {:induction false} ListInFlatten(lists: seq<seq<Candidate>>, n: nat, i: nat, c: Candidate)
    requires i < n <= |lists| && c in lists[i]
    ensures c in Flatten(lists, n)
  {
    if i < n - 1 { ListInFlatten(lists, n - 1, i, c); }
  }

  lemma CandidatesAreJudged(cfg: Config, git: Repository, listing: seq<Listed>, c: Candidate)
    requires c in Candidates(cfg, git, listing)
    ensures c.branch in listing && Judge(cfg, git, c.branch) == [c]
  {
    var i := InSomeList(Judgements(cfg, git, listing), |listing|, c);
    JudgedAlone(Judge(cfg, git, listing[i]), c, listing[i]);
  }

  lemma JudgedAlone(judged: seq<Candidate>, c: Candidate, b: Listed)
    requires |judged| <= 1 && (judged != [] ==> judged[0].branch == b) && c in judged
    ensures judged == [c] && c.branch == b
  {}

  lemma JudgedIsCandidate(cfg: Config, git: Repository, listing: seq<Listed>, i: nat, c: Candidate)
    requires i < |listing| && c in Judge(cfg, git, listing[i])
    ensures c in Candidates(cfg, git, listing)
  {
    ListInFlatten(Judgements(cfg, git, listing), |listing|, i, c);
  }

  /** Neither the base database nor the default or active branch, by their sanitised names */
  predicate MayGo(cfg: Config, git: Repository, b: Listed) {
    && !b.isProtected && b.database != cfg.baseDatabase
    && SanitizeBranchName(b.name) != SanitizeBranchName(if cfg.defaultBranch == "" then "main" else cfg.defaultBranch)
    && SanitizeBranchName(b.name) != SanitizeBranchName(git.active)
  }

  /** Some branch of the list has the sanitised name of this one. */
  predicate Among(name: string, branches: seq<string>) {
    exists i :: 0 <= i < |branches| && SanitizeBranchName(branches[i]) == SanitizeBranchName(name)
  }

  lemma AmongSanitized(name: string, branches: seq<string>)
    ensures Among(name, branches) <==> SanitizeBranchName(name) in Sanitized(branches)
  {
    if SanitizeBranchName(name) in Sanitized(branches) {
      var b :| b in branches && SanitizeBranchName(b) == SanitizeBranchName(name);
      var i :| 0 <= i < |branches| && branches[i] == b;
      assert SanitizeBranchName(branches[i]) == SanitizeBranchName(name);
    }
    forall i | 0 <= i < |branches| ensures SanitizeBranchName(branches[i]) in Sanitized(branches) {
      assert branches[i] in branches;
    }
  }

  lemma SparedMayNotGo(cfg: Config, git: Repository, b: Listed)
    ensures Spared(cfg, git, b) <==> !MayGo(cfg, git, b)
  {}

  lemma JudgedIff(cfg: Config, git: Repository, b: Listed, c: Candidate)
    ensures c in Judge(cfg, git, b) <==>
            && c.branch == b && MayGo(cfg, git, b)
            && (if c.reason == Merged then Among(b.name, git.merged)
                else !Among(b.name, git.merged) && git.locals != [] && !Among(b.name, git.locals))
  {
    SparedMayNotGo(cfg, git, b);
    AmongSanitized(b.name, git.merged);
    AmongSanitized(b.name, git.locals);
    var judged := Judge(cfg, git, b);
    assert judged == [] || judged == [judged[0]];
  }

  /** Exactly which listed databases are candidates: as merged, those of merged branches; as orphaned, those of no merged and no
      local branch, provided that some local branch is known. With no local branch known nothing is orphaned. */
  lemma CandidateIff(cfg: Config, git: Repository, listing: seq<Listed>, c: Candidate)
    ensures c in Candidates(cfg, git, listing) <==>
            && c.branch in listing && MayGo(cfg, git, c.branch)
            && (if c.reason == Merged then Among(c.branch.name, git.merged)
                else !Among(c.branch.name, git.merged) && git.locals != [] && !Among(c.branch.name, git.locals))
  {
    JudgedIff(cfg, git, c.branch, c);
    if c in Candidates(cfg, git, listing) {
      CandidatesAreJudged(cfg, git, listing, c);
    }
    if c.branch in listing && c in Judge(cfg, git, c.branch) {
      var i :| 0 <= i < |listing| && listing[i] == c.branch;
      JudgedIsCandidate(cfg, git, listing, i, c);
    }
  }

  /** A local branch of which no merged branch has the sanitised name */
  predicate Unmerged(git: Repository, branch: string) {
    branch in git.locals && SanitizeBranchName(branch) !in Sanitized(git.merged)
  }

  lemma FormatApart(drv: Config, a: string, b: string)
    requires SanitizeBranchName(a) != SanitizeBranchName(b) && FormatDBName(drv, a) != drv.baseDatabase
    ensures FormatDBName(drv, a) != FormatDBName(drv, b)
  {
    SuffixInjective(drv.baseDatabase, SanitizeBranchName(a), SanitizeBranchName(b));
  }

  /** No dropped database is the base database, the active branch's, or that of an unmerged local branch,
      whatever the listing, the settings and the failures. */
  lemma NeverDropped(cfg: Config, drv: Config, git: Repository, listing: seq<Listed>, fails: seq<bool>, db: string)
    requires |fails| == |Candidates(cfg, git, listing)|
    requires db in Dropped(drv, Candidates(cfg, git, listing), fails)
    ensures db != drv.baseDatabase
    ensures db != FormatDBName(drv, git.active)
    ensures forall b :: Unmerged(git, b) ==> db != FormatDBName(drv, b)
  {
    var cs := Candidates(cfg, git, listing);
    var i := DroppedIsDrop(drv, cs, fails, db);
    var name := cs[i].branch.name;
    CandidatesAreJudged(cfg, git, listing, cs[i]);
    forall b | b == git.active || Unmerged(git, b)
      ensures db != FormatDBName(drv, b)
    {
      assert b in git.locals ==> SanitizeBranchName(b) in Sanitized(git.locals);
      FormatApart(drv, name, b);
    }
  }

  /** The same in terms of the databases that the proxy routes to, once a base database is configured. */
  lemma NeverDropsRouted(cfg: Config, git: Repository, listing: seq<Listed>, fails: seq<bool>, db: string, b: string)
    requires |fails| == |Candidates(cfg, git, listing)| && cfg.baseDatabase != ""
    requires db in Dropped(DriverView(cfg), Candidates(cfg, git, listing), fails)
    requires b == git.active || Unmerged(git, b)
    ensures db != DatabaseOf(cfg, b) && db != cfg.baseDatabase
  {
    NeverDropped(cfg, DriverView(cfg), git, listing, fails, db);
    RoutingIsProvisioning(cfg, b);
    SanitizeIdempotent(b);
  }

  // ---- Announced and dropped ----

  /** A database of the server with its comment; MySQL has no comments, which reads as an empty one. */
  datatype Row = Row(datname: string, description: string, size: int)

  const CommentPrefix := "branchbase:branch="

  /** The databases that ListBranches asks for: Like.PatternIsExact */
  predicate IsManaged(drv: Config, row: Row) {
    row.datname == drv.baseDatabase || drv.baseDatabase + "_" <= row.datname
  }

  /** The name that ListBranches gives a database */
  function ListedName(drv: Config, row: Row): string
    requires IsManaged(drv, row)
  {
    if row.datname == drv.baseDatabase then ListedDefaultBranch(drv)
    else if CommentPrefix <= row.description then row.description[|CommentPrefix|..]
    else row.datname[|drv.baseDatabase| + 1..]
  }

  function ListRow(drv: Config, row: Row): Listed
    requires IsManaged(drv, row)
  {
    Listed(ListedName(drv, row), row.datname, row.size, row.datname == drv.baseDatabase)
  }

  function ListBranches(drv: Config, rows: seq<Row>): (listing: seq<Listed>)
    requires forall i :: 0 <= i < |rows| ==> IsManaged(drv, rows[i])
    ensures |listing| == |rows| && forall i :: 0 <= i < |rows| ==> listing[i] == ListRow(drv, rows[i])
  {
    seq(|rows|, i requires 0 <= i < |rows| => ListRow(drv, rows[i]))
  }

  /** The listed name says which database this is: sanitised, it is what follows the base name. */
  predicate NameFits(drv: Config, row: Row)
    requires IsManaged(drv, row) && row.datname != drv.baseDatabase
  {
    var s := SanitizeBranchName(ListedName(drv, row));
    s == row.datname[|drv.baseDatabase| + 1..] && !IsBaseBranch(drv, s)
  }

  /** Deleting a listed branch drops the database it was listed with exactly when the name fits. Without a comment the name
      is the rest of the database's name, and fits if that is sanitised already. */
  lemma DropsWhatIsListed(drv: Config, row: Row)
    requires IsManaged(drv, row) && row.datname != drv.baseDatabase
    ensures FormatDBName(drv, ListedName(drv, row)) == row.datname <==> NameFits(drv, row)
  {
    var s, rest := SanitizeBranchName(ListedName(drv, row)), row.datname[|drv.baseDatabase| + 1..];
    assert row.datname == drv.baseDatabase + "_" + rest;
    SuffixInjective(drv.baseDatabase, s, rest);
  }

  /** What runPrune prints before it asks */
  function Announced(candidates: seq<Candidate>): set<string> {
    set c | c in candidates :: c.branch.database
  }

  /** When the names of all databases but the base fit, nothing is dropped that was not announced. */
  lemma DropsWereAnnounced(cfg: Config, drv: Config, git: Repository, rows: seq<Row>, fails: seq<bool>, db: string)
    requires forall i :: 0 <= i < |rows| ==> IsManaged(drv, rows[i])
    requires forall i :: 0 <= i < |rows| && rows[i].datname != drv.baseDatabase ==> NameFits(drv, rows[i])
    requires |fails| == |Candidates(cfg, git, ListBranches(drv, rows))|
    requires db in Dropped(drv, Candidates(cfg, git, ListBranches(drv, rows)), fails)
    ensures db in Announced(Candidates(cfg, git, ListBranches(drv, rows)))
  {
    var listing := ListBranches(drv, rows);
    var cs := Candidates(cfg, git, listing);
    var i := DroppedIsDrop(drv, cs, fails, db);
    CandidatesAreJudged(cfg, git, listing, cs[i]);
    var k :| 0 <= k < |listing| && listing[k] == cs[i].branch;
    ProtectedIsSpared(cfg, git, listing[k], cs[i]);
    DropsWhatIsListed(drv, rows[k]);
    assert cs[i] in cs;
  }

  lemma ProtectedIsSpared(cfg: Config, git: Repository, b: Listed, c: Candidate)
    requires Judge(cfg, git, b) == [c]
    ensures !b.isProtected
  {}

  /** `base_x` is commented as branch `f`, and `base_f` as branch `k`. */
  function MixedUp(base: string, x: string, f: string, k: string): seq<Row> {
    [Row(base + "_" + x, CommentPrefix + f, 0), Row(base + "_" + f, CommentPrefix + k, 0)]
  }

  lemma MixedUpListing(cfg: Config, x: string, f: string, k: string)
    ensures var rows := MixedUp(cfg.baseDatabase, x, f, k);
            && IsManaged(cfg, rows[0]) && IsManaged(cfg, rows[1])
            && ListBranches(cfg, rows) == [Listed(f, cfg.baseDatabase + "_" + x, 0, false), Listed(k, cfg.baseDatabase + "_" + f, 0, false)]
  {
    CommentedName(cfg, x, f);
    CommentedName(cfg, f, k);
    SuffixInjective(cfg.baseDatabase, x, f);
    SuffixInjective(cfg.baseDatabase, f, x);
  }

  lemma MixedUpCandidates(cfg: Config, git: Repository, listing: seq<Listed>, x: string, f: string, k: string)
    requires SanitizeBranchName(f) == f && SanitizeBranchName(k) == k && f != k
    requires cfg.baseDatabase != "" && cfg.defaultBranch == "trunk" && SanitizeBranchName(cfg.defaultBranch) == "trunk" && f != "trunk"
    requires git == Repository(k, [k], [f])
    requires listing == [Listed(f, cfg.baseDatabase + "_" + x, 0, false), Listed(k, cfg.baseDatabase + "_" + f, 0, false)]
    ensures Candidates(cfg, git, listing) == [Candidate(listing[0], Merged)]
  {
    SuffixInjective(cfg.baseDatabase, x, f);
    MergedIsJudged(cfg, git, listing[0], f);
    ActiveIsSpared(cfg, git, listing[1], k);
    OneOfTwo(cfg, git, listing, Candidate(listing[0], Merged));
  }

  /** A comment may name another branch than the database does. Here `f` is merged and `k` is checked out:
      `base_x` is announced, and `base_f` is dropped. */
  lemma UnannouncedDrop(cfg: Config, x: string, f: string, k: string)
    requires IsWord(f) && ToLower(f) == f && IsWord(k) && ToLower(k) == k && f != k && x != f
    requires cfg.baseDatabase != "" && cfg.defaultBranch == "trunk" && f != "trunk"
    ensures var base, git, rows := cfg.baseDatabase, Repository(k, [k], [f]), MixedUp(cfg.baseDatabase, x, f, k);
            && IsManaged(cfg, rows[0]) && IsManaged(cfg, rows[1])
            && |Candidates(cfg, git, ListBranches(cfg, rows))| == 1
            && Announced(Candidates(cfg, git, ListBranches(cfg, rows))) == {base + "_" + x}
            && Dropped(cfg, Candidates(cfg, git, ListBranches(cfg, rows)), [false]) == {base + "_" + f}
            && base + "_" + f != base + "_" + x
  {
    var git, rows, def := Repository(k, [k], [f]), MixedUp(cfg.baseDatabase, x, f, k), "trunk";
    WordSanitized(f);
    WordSanitized(k);
    WordSanitized(def);
    MixedUpListing(cfg, x, f, k);
    var listing := ListBranches(cfg, rows);
    MixedUpCandidates(cfg, git, listing, x, f, k);
    TrunkIsBase(cfg, f);
    OneDrop(cfg, Candidate(listing[0], Merged));
    SuffixInjective(cfg.baseDatabase, f, x);
  }

  lemma OneOfTwo(cfg: Config, git: Repository, listing: seq<Listed>, c: Candidate)
    requires |listing| == 2 && Judge(cfg, git, listing[0]) == [c] && Judge(cfg, git, listing[1]) == []
    ensures Candidates(cfg, git, listing) == [c]
  {
    assert CandidatesIn(cfg, git, listing, 0) == [];
    assert CandidatesIn(cfg, git, listing, 1) == [] + [c];
    assert CandidatesIn(cfg, git, listing, 2) == ([] + [c]) + [];
  }

  lemma OneDrop(drv: Config, c: Candidate)
    ensures Dropped(drv, [c], [false]) == Drop(drv, c, false)
    ensures Announced([c]) == {c.branch.database}
  {
    var sets := Drops(drv, [c], [false]);
    assert sets[0] == Drop(drv, c, false);
    assert Union(sets, 0) == {} && Union(sets, 1) == Union(sets, 0) + sets[0];
  }

  lemma CommentedName(drv: Config, rest: string, branch: string)
    ensures var row := Row(drv.baseDatabase + "_" + rest, CommentPrefix + branch, 0);
            IsManaged(drv, row) && row.datname != drv.baseDatabase && ListedName(drv, row) == branch
  {
    SuffixInjective(drv.baseDatabase, rest, rest);
  }

  lemma MergedIsJudged(cfg: Config, git: Repository, b: Listed, f: string)
    requires b.name == f && SanitizeBranchName(f) == f && f in git.merged && !Spared(cfg, git, b)
    ensures Judge(cfg, git, b) == [Candidate(b, Merged)]
  {}

  lemma ActiveIsSpared(cfg: Config, git: Repository, b: Listed, k: string)
    requires b.name == k && git.active == k
    ensures Judge(cfg, git, b) == []
  {}

  lemma TrunkIsBase(cfg: Config, f: string)
    requires cfg.defaultBranch == "trunk" && SanitizeBranchName(f) == f && f != "trunk"
    ensures FormatDBName(cfg, f) == cfg.baseDatabase + "_" + f != cfg.baseDatabase
  {
    var def := "trunk";
    assert IsWord(def) && ToLower(def) == def;
    WordSanitized(def);
    assert TrimSpace(def) == def;
    SuffixInjective(cfg.baseDatabase, f, f);
  }
}
