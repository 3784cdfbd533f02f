/** internal/risk/analyzer.go, AnalyzeSQL, and cache.go: analysis with a cache is analysis without one. */
module RiskCache {
  import opened Wrappers
  import opened Risk
  import opened Signature
  import Report

  /** What one engine and policy read out of a migration: its operations, whether anything but comments is in it,
      and whether it matches an always-critical pattern. */
  datatype Migration = Migration(operations: seq<Operation>, blank: bool, critical: bool)

  datatype Settings = Settings(postgres: bool, read: string -> Migration, sha: string -> string)

  /** What introspection would answer at each operation of one analysis: an ask may fail, whatever the other asks did. */
  type Answers = seq<Option<Metadata>>

  /** A table's metadata comes under the name that was asked for, with plain identifiers. */
  ghost predicate ValidAnswers(ops: seq<Operation>, answers: Answers) {
    && |answers| == |ops|
    && forall i :: 0 <= i < |ops| && answers[i].Some? ==> answers[i].value.table == ops[i].table && PlainMeta(answers[i].value)
  }

  // ---- Introspection ----

  /** tablesMeta, firstMeta and schemaSignatures; the signatures are still to be hashed. */
  datatype Found = Found(tables: map<string, Metadata>, first: Option<Metadata>, metas: seq<Metadata>)

  /** A table is asked for until an ask succeeds; what answers first becomes `first`. */
  function FindNext(f: Found, table: string, answer: Option<Metadata>): Found {
    if table == "" || table in f.tables || answer.None? then f
    else
      Found(f.tables[table := answer.value], if f.first.None? then answer else f.first, f.metas + [answer.value])
  }

  /** What the asks of the first `n` operations give */
  function Find(ops: seq<Operation>, answers: Answers, n: nat): Found
    requires n <= |ops| <= |answers|
  {
    if n == 0 then Found(map[], None, []) else FindNext(Find(ops, answers, n - 1), ops[n - 1].table, answers[n - 1])
  }

  function Hashes(sha: string -> string, metas: seq<Metadata>): (r: seq<string>)
    ensures |r| == |metas| && forall i :: 0 <= i < |metas| ==> r[i] == sha(MetaText(metas[i]))
  {
    seq(|metas|, i requires 0 <= i < |metas| => sha(MetaText(metas[i])))
  }

  method Introspect(sha: string -> string, ops: seq<Operation>, answers: Answers)
    returns (found: Found, signatures: seq<string>)
    requires |answers| == |ops|
    ensures found == Find(ops, answers, |ops|)
    ensures signatures == Hashes(sha, found.metas)
  {
    found, signatures := Found(map[], None, []), [];
    for i := 0 to |ops|
      invariant found == Find(ops, answers, i)
      invariant signatures == Hashes(sha, found.metas)
    {
      found, signatures := IntrospectNext(sha, ops[i].table, answers[i], found, signatures);
    }
  }

  lemma HashesAppend(sha: string -> string, metas: seq<Metadata>, m: Metadata)
    ensures Hashes(sha, metas + [m]) == Hashes(sha, metas) + [sha(MetaText(m))]
  {}

  method IntrospectNext(sha: string -> string, table: string, answer: Option<Metadata>, f: Found, signatures: seq<string>)
    returns (f': Found, signatures': seq<string>)
    requires signatures == Hashes(sha, f.metas)
    ensures f' == FindNext(f, table, answer) && signatures' == Hashes(sha, f'.metas)
  {
    f', signatures' := f, signatures;
    if table != "" && table !in f.tables && answer.Some? {
      var meta := answer.value;
      var s := FormatSchemaSignature(sha, meta);
      f' := Found(f.tables[table := meta], if f.first.None? then Some(meta) else f.first, f.metas + [meta]);
      signatures' := signatures + [s];
      HashesAppend(sha, f.metas, meta);
    }
  }

  // ---- The verdict without a cache ----

  function InputOf(c: Settings, m: Migration, f: Found): Input {
    Input(c.postgres, m.operations, m.blank, f.first, f.tables)
  }

  /** The always-critical override, which comes last */
  function Override(v: Verdict, critical: bool): Verdict {
    if critical then v.(level := Critical, destructive := true) else v
  }

  /** The verdict of AnalyzeSQL on a file that no path exclusion covers, without a cache */
  function Analysis(c: Settings, r: Request): Verdict
    requires Fits(c, r)
  {
    Override(VerdictOf(InputOf(c, c.read(r.sql), FoundBy(c, r))), c.read(r.sql).critical)
  }

  /** A call of AnalyzeSQL: is the path excluded, what is the text, and what would each ask answer? */
  datatype Request = Request(excluded: bool, sql: string, answers: Answers)

  /** There is an answer for every operation. */
  predicate Fits(c: Settings, r: Request) {
    |r.answers| == |c.read(r.sql).operations|
  }

  ghost predicate ValidRequest(c: Settings, r: Request) {
    ValidAnswers(c.read(r.sql).operations, r.answers)
  }

  function FoundBy(c: Settings, r: Request): Found
    requires Fits(c, r)
  {
    Find(c.read(r.sql).operations, r.answers, |r.answers|)
  }

  const Excluded := Verdict(Low, true, false, false, false, DocsOrComments)

  /** The two loops behind the classifier, which raise the level for unknown columns and unclassified statements */
  method RaiseLevel(input: Input, v: Verdict) returns (r: Verdict)
    requires v == VerdictOf(input)
    ensures r == v
  {
    r := v;
    for i := 0 to |input.operations|
      invariant r == v
    {
      var op := input.operations[i];
      if op.kind.DropColumn? && (op.table !in input.tables || input.tables[op.table].columns == []) {
        HighAlready(input, i);
        r := r.(level := MaxLevel(r.level, High));
      }
      if op.kind.Generic? && !op.facts.manipulates {
        HighAlready(input, i);
        r := r.(level := MaxLevel(r.level, High));
      }
    }
  }

  /** The classifier has raised the level already: the loops behind it find nothing left to do. */
  lemma HighAlready(input: Input, i: nat)
    requires i < |input.operations|
    requires var op := input.operations[i]; op.kind.DropColumn? || (op.kind.Generic? && !op.facts.manipulates)
    ensures Order(VerdictOf(input).level) >= Order(High)
  {
    HighestBounds(Effects(input), |input.operations|, i);
    assert Effects(input)[i] == EffectOf(input, input.operations[i]);
  }

  // ---- The cache and the analyzer ----

  class Cache {
    var entries: map<string, Verdict>

    constructor ()
      ensures entries == map[]
    {
      entries := map[];
    }

    method Get(key: string) returns (hit: Option<Verdict>)
      ensures hit == if key in entries then Some(entries[key]) else None
    {
      if key in entries { return Some(entries[key]); }
      return None;
    }

    method Set(key: string, v: Verdict)
      modifies this
      ensures entries == old(entries)[key := v]
    {
      entries := entries[key := v];
    }
  }

  function KeyOf(c: Settings, r: Request): string
    requires Fits(c, r)
  {
    ComputeCacheKey(c.sha, r.sql, SchemaSignature(Hashes(c.sha, FoundBy(c, r).metas)))
  }

  /** What AnalyzeSQL returns, and the cache afterwards */
  datatype Answer = Answer(verdict: Verdict, entries: map<string, Verdict>)

  function Answered(c: Settings, entries: map<string, Verdict>, r: Request): Answer
    requires Fits(c, r)
  {
    if r.excluded then Answer(Excluded, entries)
    else
      var key := KeyOf(c, r);
      if key in entries then Answer(entries[key], entries)
      else Answer(Analysis(c, r), entries[key := Analysis(c, r)])
  }

  /** The answer when there is no cache */
  function Uncached(c: Settings, r: Request): Verdict
    requires Fits(c, r)
  {
    if r.excluded then Excluded else Analysis(c, r)
  }

  class Analyzer {
    const settings: Settings
    const cache: Cache?

    constructor (settings: Settings, cache: Cache?)
      ensures this.settings == settings && this.cache == cache
    {
      this.settings, this.cache := settings, cache;
    }

    /** What the analysis does behind the cache */
    method Assess(m: Migration, found: Found) returns (v: Verdict)
      ensures v == Override(VerdictOf(InputOf(settings, m, found)), m.critical)
    {
      var input := InputOf(settings, m, found);
      v := Classify(input);
      v := RaiseLevel(input, v);
      if m.critical {
        v := v.(level := Critical, destructive := true);
      }
    }

    /** AnalyzeSQL; without a cache every file is analysed anew. */
    method AnalyzeSQL(r: Request) returns (v: Verdict)
      requires Fits(settings, r)
      modifies cache
      ensures cache == null ==> v == Uncached(settings, r)
      ensures cache != null ==> Answer(v, cache.entries) == Answered(settings, old(cache.entries), r)
    {
      if r.excluded { return Excluded; }
      var m := settings.read(r.sql);
      var found, signatures := Introspect(settings.sha, m.operations, r.answers);
      var key := ComputeCacheKey(settings.sha, r.sql, SchemaSignature(signatures));
      if cache != null {
        var hit := cache.Get(key);
        if hit.Some? { return hit.value; }
      }
      v := Assess(m, found);
      if cache != null {
        cache.Set(key, v);
      }
    }
  }

  // ---- What a verdict depends on ----

  /** Metadata that no verdict can tell apart */
  ghost predicate Alike(a: Metadata, b: Metadata) {
    (forall column :: Refers(a, column) <==> Refers(b, column)) && (a.inbound == [] <==> b.inbound == [])
  }

  ghost predicate AlikeOption(a: Option<Metadata>, b: Option<Metadata>) {
    match (a, b)
    case (None, None) => true
    case (Some(x), Some(y)) => Alike(x, y)
    case _ => false
  }

  ghost predicate AlikeFound(f: Found, g: Found) {
    && f.tables.Keys == g.tables.Keys
    && (forall t :: t in f.tables ==> Alike(f.tables[t], g.tables[t]))
    && AlikeOption(f.first, g.first)
  }

  lemma AlikeEffects(c: Settings, m: Migration, f: Found, g: Found)
    requires AlikeFound(f, g)
    ensures Effects(InputOf(c, m, f)) == Effects(InputOf(c, m, g))
  {
    var a, b := InputOf(c, m, f), InputOf(c, m, g);
    forall i | 0 <= i < |m.operations| ensures EffectOf(a, m.operations[i]) == EffectOf(b, m.operations[i]) {
      AlikeEffect(a, b, m.operations[i], f, g);
    }
  }

  lemma AlikeEffect(a: Input, b: Input, op: Operation, f: Found, g: Found)
    requires AlikeFound(f, g) && a.postgres == b.postgres
    requires a.first == f.first && a.tables == f.tables && b.first == g.first && b.tables == g.tables
    ensures EffectOf(a, op) == EffectOf(b, op)
  {
    assert op.table in f.tables <==> op.table in g.tables;
    assert AlikeOption(TargetMeta(a, op), TargetMeta(b, op));
    assert IsReferenced(a, op) == IsReferenced(b, op) && HasInbound(a, op) == HasInbound(b, op);
  }

  /** The verdict depends on nothing but the shapes of the tables. */
  lemma AlikeVerdicts(c: Settings, m: Migration, f: Found, g: Found)
    requires AlikeFound(f, g)
    ensures VerdictOf(InputOf(c, m, f)) == VerdictOf(InputOf(c, m, g))
  {
    AlikeEffects(c, m, f, g);
  }

  lemma SameKeys(a: Metadata, b: Metadata, column: string)
    requires PlainMeta(a) && PlainMeta(b) && SameShape(a, b) && Refers(a, column)
    ensures Refers(b, column)
  {
    var i :| 0 <= i < |a.inbound| && RefersTo(a.inbound[i], column);
    assert KeyTexts(a.inbound)[i] in multiset(KeyTexts(b.inbound));
    var j :| 0 <= j < |b.inbound| && KeyTexts(b.inbound)[j] == KeyTexts(a.inbound)[i];
    assert a.inbound[i] in a.inbound && b.inbound[j] in b.inbound;
    KeyTextInjective(a.inbound[i], b.inbound[j]);
    assert RefersTo(b.inbound[j], column);
  }

  lemma SameShapeAlike(a: Metadata, b: Metadata)
    requires PlainMeta(a) && PlainMeta(b) && SameShape(a, b)
    ensures Alike(a, b)
  {
    forall column ensures Refers(a, column) <==> Refers(b, column) {
      if Refers(a, column) { SameKeys(a, b, column); }
      if Refers(b, column) { SameKeys(b, a, column); }
    }
    assert |KeyTexts(a.inbound)| == |multiset(KeyTexts(a.inbound))| == |multiset(KeyTexts(b.inbound))| == |KeyTexts(b.inbound)|;
  }

  // ---- What the key records ----

  /** Every table found has given its metadata once. */
  ghost predicate FoundWell(f: Found) {
    && (forall t :: t in f.tables ==> t != "" && f.tables[t].table == t && PlainMeta(f.tables[t]) && f.tables[t] in f.metas)
    && (forall m :: m in f.metas ==> m.table in f.tables && f.tables[m.table] == m)
    && (forall i, j :: 0 <= i < j < |f.metas| ==> f.metas[i].table != f.metas[j].table)
    && (f.first.None? <==> f.tables == map[])
  }

  lemma {:induction false} FindWell(ops: seq<Operation>, answers: Answers, n: nat)
    requires ValidAnswers(ops, answers) && n <= |ops|
    ensures FoundWell(Find(ops, answers, n))
  {
    if n > 0 { FindWell(ops, answers, n - 1); }
  }

  /** Only tables that the operations name are found. */
  lemma {:induction false} FindNamed(ops: seq<Operation>, answers: Answers, n: nat, t: string)
    requires n <= |ops| <= |answers| && t in Find(ops, answers, n).tables
    ensures exists i :: 0 <= i < n && ops[i].table == t
  {
    if t in Find(ops, answers, n - 1).tables {
      FindNamed(ops, answers, n - 1, t);
    } else {
      assert ops[n - 1].table == t;
    }
  }

  lemma AllHexHashes(sha: string -> string, metas: seq<Metadata>)
    requires IsHash(sha)
    ensures AllHex(Hashes(sha, metas))
  {}

  /** A table found by one analysis is found by the other with the same shape, if the signatures agree. */
  lemma FoundInBoth(c: Settings, f: Found, g: Found, t: string)
    requires IsHash(c.sha) && FoundWell(f) && FoundWell(g)
    requires multiset(Hashes(c.sha, f.metas)) == multiset(Hashes(c.sha, g.metas))
    requires t in f.tables
    ensures t in g.tables && Alike(f.tables[t], g.tables[t])
  {
    var i :| 0 <= i < |f.metas| && f.metas[i] == f.tables[t];
    assert Hashes(c.sha, f.metas)[i] in multiset(Hashes(c.sha, g.metas));
    var j :| 0 <= j < |g.metas| && Hashes(c.sha, g.metas)[j] == Hashes(c.sha, f.metas)[i];
    var x, y := f.metas[i], g.metas[j];
    assert y in g.metas;
    SignatureIff(c.sha, x, y);
    SameShapeAlike(x, y);
  }

  /** The same tables, with metadata that no verdict can tell apart */
  ghost predicate AlikeTables(f: Found, g: Found) {
    f.tables.Keys == g.tables.Keys && forall t :: t in f.tables ==> Alike(f.tables[t], g.tables[t])
  }

  lemma SignaturesAgree(c: Settings, f: Found, g: Found)
    requires IsHash(c.sha) && FoundWell(f) && FoundWell(g)
    requires multiset(Hashes(c.sha, f.metas)) == multiset(Hashes(c.sha, g.metas))
    ensures AlikeTables(f, g)
  {
    forall t | t in f.tables ensures t in g.tables && Alike(f.tables[t], g.tables[t]) {
      FoundInBoth(c, f, g, t);
    }
    forall t | t in g.tables ensures t in f.tables {
      FoundInBoth(c, g, f, t);
    }
  }

  /** Equal keys mean the same text and the same tables. They do not tell which table answered first. */
  lemma KeyTables(c: Settings, a: Request, b: Request)
    requires IsHash(c.sha) && ValidRequest(c, a) && ValidRequest(c, b) && KeyOf(c, a) == KeyOf(c, b)
    ensures a.sql == b.sql && AlikeTables(FoundBy(c, a), FoundBy(c, b))
  {
    var f, g := FoundBy(c, a), FoundBy(c, b);
    FindWell(c.read(a.sql).operations, a.answers, |a.answers|);
    FindWell(c.read(b.sql).operations, b.answers, |b.answers|);
    AllHexHashes(c.sha, f.metas);
    AllHexHashes(c.sha, g.metas);
    CacheKeyIff(c.sha, a.sql, Hashes(c.sha, f.metas), b.sql, Hashes(c.sha, g.metas));
    SignaturesAgree(c, f, g);
  }

  // ---- The table to fall back on ----

  /** The first found table that an operation names */
  function FirstNamed(ops: seq<Operation>, tables: map<string, Metadata>, n: nat): Option<Metadata>
    requires n <= |ops|
  {
    if n == 0 then None
    else
      var p := FirstNamed(ops, tables, n - 1);
      if p.Some? then p else if ops[n - 1].table in tables then Some(tables[ops[n - 1].table]) else None
  }

  /** What would have been found had every found table answered at its first ask */
  function Canonical(ops: seq<Operation>, f: Found): Found {
    f.(first := FirstNamed(ops, f.tables, |ops|))
  }

  function CanonicalAnalysis(c: Settings, r: Request): Verdict
    requires Fits(c, r)
  {
    var m := c.read(r.sql);
    Override(VerdictOf(InputOf(c, m, Canonical(m.operations, FoundBy(c, r)))), m.critical)
  }

  lemma {:induction false} FirstNamedAlike(ops: seq<Operation>, f: Found, g: Found, n: nat)
    requires AlikeTables(f, g) && n <= |ops|
    ensures AlikeOption(FirstNamed(ops, f.tables, n), FirstNamed(ops, g.tables, n))
  {
    if n > 0 { FirstNamedAlike(ops, f, g, n - 1); }
  }

  /** The canonical verdict is what a key decides. */
  lemma KeyDecides(c: Settings, a: Request, b: Request)
    requires IsHash(c.sha) && ValidRequest(c, a) && ValidRequest(c, b) && KeyOf(c, a) == KeyOf(c, b)
    ensures a.sql == b.sql && CanonicalAnalysis(c, a) == CanonicalAnalysis(c, b)
  {
    KeyTables(c, a, b);
    var m, f, g := c.read(a.sql), FoundBy(c, a), FoundBy(c, b);
    FirstNamedAlike(m.operations, f, g, |m.operations|);
    AlikeVerdicts(c, m, Canonical(m.operations, f), Canonical(m.operations, g));
  }

  // ---- When the fallback misleads ----

  /** Judged by this metadata, the drop touches a foreign key. */
  predicate TouchedBy(m: Metadata, op: Operation) {
    (op.kind.DropColumn? && Refers(m, op.column)) || (op.kind.DropTable? && m.inbound != [])
  }

  /** Some drop touches a foreign key by its own table's metadata. */
  predicate OwnTouch(ops: seq<Operation>, tables: map<string, Metadata>) {
    exists i :: 0 <= i < |ops| && ops[i].table in tables && TouchedBy(tables[ops[i].table], ops[i])
  }

  /** Some drop in a table that was not found is taken to touch a foreign key of the table fallen back on. */
  predicate FallbackTouch(ops: seq<Operation>, tables: map<string, Metadata>, first: Option<Metadata>) {
    first.Some? && exists i :: 0 <= i < |ops| && ops[i].table !in tables && TouchedBy(first.value, ops[i])
  }

  /** The table that answered first and the table that is named first disagree about the drops in tables that were not found,
      and no other drop settles the question. */
  predicate Misled(ops: seq<Operation>, f: Found) {
    && !OwnTouch(ops, f.tables)
    && FallbackTouch(ops, f.tables, f.first) != FallbackTouch(ops, f.tables, FirstNamed(ops, f.tables, |ops|))
  }

  predicate IsMisled(c: Settings, r: Request)
    requires Fits(c, r)
  {
    !r.excluded && Misled(c.read(r.sql).operations, FoundBy(c, r))
  }

  lemma TouchedOperation(c: Settings, m: Migration, f: Found, op: Operation)
    ensures var e := EffectOf(InputOf(c, m, f), op);
            e.dropsColumn || e.dropsTable <==>
            if op.table in f.tables then TouchedBy(f.tables[op.table], op) else f.first.Some? && TouchedBy(f.first.value, op)
  {}

  lemma TouchesBy(c: Settings, m: Migration, f: Found)
    ensures VerdictOn(Effects(InputOf(c, m, f))).touchesFKs <==>
            OwnTouch(m.operations, f.tables) || FallbackTouch(m.operations, f.tables, f.first)
  {
    var es := Effects(InputOf(c, m, f));
    forall i | 0 <= i < |m.operations|
      ensures es[i].dropsColumn || es[i].dropsTable <==>
              if m.operations[i].table in f.tables then TouchedBy(f.tables[m.operations[i].table], m.operations[i])
              else f.first.Some? && TouchedBy(f.first.value, m.operations[i])
    {
      TouchedOperation(c, m, f, m.operations[i]);
      assert es[i] == EffectOf(InputOf(c, m, f), m.operations[i]);
    }
  }

  /** What an operation does apart from foreign keys depends on no metadata. */
  predicate SameMark(e: Effect, d: Effect) {
    && e.reversible == d.reversible && e.destroys == d.destroys && e.locks == d.locks && e.category == d.category
    && (!(e.dropsColumn || e.dropsTable) && !(d.dropsColumn || d.dropsTable) ==> e == d)
    && (e.dropsColumn || e.dropsTable ==> e.level.Critical?)
    && (d.dropsColumn || d.dropsTable ==> d.level.Critical?)
  }

  predicate SameMarks(x: seq<Effect>, y: seq<Effect>) {
    |x| == |y| && forall i :: 0 <= i < |x| ==> SameMark(x[i], y[i])
  }

  lemma OperationMark(c: Settings, m: Migration, f: Found, g: Found, op: Operation)
    ensures SameMark(EffectOf(InputOf(c, m, f), op), EffectOf(InputOf(c, m, g), op))
  {}

  lemma EffectMarks(c: Settings, m: Migration, f: Found, g: Found)
    ensures SameMarks(Effects(InputOf(c, m, f)), Effects(InputOf(c, m, g)))
  {
    var x, y := Effects(InputOf(c, m, f)), Effects(InputOf(c, m, g));
    forall i | 0 <= i < |x| ensures SameMark(x[i], y[i]) {
      OperationMark(c, m, f, g, m.operations[i]);
      assert x[i] == EffectOf(InputOf(c, m, f), m.operations[i]) && y[i] == EffectOf(InputOf(c, m, g), m.operations[i]);
    }
  }

  lemma {:induction false} MarksLast(x: seq<Effect>, y: seq<Effect>, n: nat)
    requires SameMarks(x, y) && n <= |x|
    ensures LastReversible(x, n) == LastReversible(y, n) && LastCategory(x, n) == LastCategory(y, n)
  {
    if n > 0 {
      assert SameMark(x[n - 1], y[n - 1]);
      MarksLast(x, y, n - 1);
    }
  }

  lemma TouchIsCritical(x: seq<Effect>, i: nat)
    requires i < |x| && x[i].level.Critical?
    ensures Highest(x, |x|).Critical?
  {
    HighestBounds(x, |x|, i);
  }

  /** Two verdicts on the same operations agree in all but level and foreign keys, and agree in these too exactly when
      they agree in the latter. */
  lemma VerdictsByTouch(x: seq<Effect>, y: seq<Effect>)
    requires SameMarks(x, y)
    ensures var v, w := VerdictOn(x), VerdictOn(y);
            && v.reversible == w.reversible && v.destructive == w.destructive
            && v.exclusiveLock == w.exclusiveLock && v.category == w.category
            && (v == w <==> v.touchesFKs == w.touchesFKs)
  {
    var v, w := VerdictOn(x), VerdictOn(y);
    MarksLast(x, y, |x|);
    assert forall i :: 0 <= i < |x| ==> SameMark(x[i], y[i]);
    if v.touchesFKs && w.touchesFKs {
      var i :| 0 <= i < |x| && (x[i].dropsColumn || x[i].dropsTable);
      var j :| 0 <= j < |y| && (y[j].dropsColumn || y[j].dropsTable);
      TouchIsCritical(x, i);
      TouchIsCritical(y, j);
    } else if !v.touchesFKs && !w.touchesFKs {
      assert x == y;
    }
  }

  /** An analysis gives the canonical verdict if and only if its fallback does not mislead it. */
  lemma CanonicalIff(c: Settings, r: Request)
    requires Fits(c, r) && !r.excluded
    ensures Analysis(c, r) == CanonicalAnalysis(c, r) <==> !IsMisled(c, r)
  {
    var m, f := c.read(r.sql), FoundBy(c, r);
    var g := Canonical(m.operations, f);
    EffectMarks(c, m, f, g);
    VerdictsByTouch(Effects(InputOf(c, m, f)), Effects(InputOf(c, m, g)));
    TouchesBy(c, m, f);
    TouchesBy(c, m, g);
  }

  // ---- Whole runs ----

  /** Every entry is the canonical verdict on whatever has its key. */
  ghost predicate Coherent(c: Settings, entries: map<string, Verdict>) {
    forall r :: ValidRequest(c, r) && KeyOf(c, r) in entries ==> entries[KeyOf(c, r)] == CanonicalAnalysis(c, r)
  }

  lemma AnswerCoherent(c: Settings, entries: map<string, Verdict>, r: Request)
    requires IsHash(c.sha) && ValidRequest(c, r) && Coherent(c, entries) && !IsMisled(c, r)
    ensures Coherent(c, Answered(c, entries, r).entries)
    ensures Answered(c, entries, r).verdict == Uncached(c, r)
  {
    if !r.excluded {
      CanonicalIff(c, r);
      forall a | ValidRequest(c, a) && KeyOf(c, a) == KeyOf(c, r) ensures CanonicalAnalysis(c, a) == CanonicalAnalysis(c, r) {
        KeyDecides(c, a, r);
      }
    }
  }

  ghost predicate ValidRun(c: Settings, run: seq<Request>) {
    forall i :: 0 <= i < |run| ==> ValidRequest(c, run[i])
  }

  /** The cache after these calls, from an empty one */
  function CacheAfter(c: Settings, run: seq<Request>): map<string, Verdict>
    requires forall i :: 0 <= i < |run| ==> Fits(c, run[i])
  {
    if run == [] then map[] else Answered(c, CacheAfter(c, run[..|run| - 1]), run[|run| - 1]).entries
  }

  ghost predicate NoneMisled(c: Settings, run: seq<Request>)
    requires ValidRun(c, run)
  {
    forall i :: 0 <= i < |run| ==> !IsMisled(c, run[i])
  }

  lemma {:induction false} RunCoherent(c: Settings, run: seq<Request>)
    requires IsHash(c.sha) && ValidRun(c, run) && NoneMisled(c, run)
    ensures Coherent(c, CacheAfter(c, run))
    decreases |run|
  {
    if run != [] {
      var n := |run| - 1;
      RunCoherent(c, run[..n]);
      AnswerCoherent(c, CacheAfter(c, run[..n]), run[n]);
    }
  }

  /** After any number of analyses that their fallback does not mislead, while the schema changes in any way and asks fail
      in any way, the next such analysis answers what it would answer without a cache. */
  lemma CacheIsTransparent(c: Settings, run: seq<Request>, r: Request)
    requires IsHash(c.sha) && ValidRun(c, run) && NoneMisled(c, run) && ValidRequest(c, r) && !IsMisled(c, r)
    ensures Answered(c, CacheAfter(c, run), r).verdict == Uncached(c, r)
  {
    RunCoherent(c, run);
    AnswerCoherent(c, CacheAfter(c, run), r);
  }

  // ---- The condition is necessary ----

  /** The same tables, each answered wherever it is named */
  function Steady(ops: seq<Operation>, tables: map<string, Metadata>): (answers: Answers)
    ensures |answers| == |ops|
  {
    seq(|ops|, i requires 0 <= i < |ops| => if ops[i].table in tables then Some(tables[ops[i].table]) else None)
  }

  lemma {:induction false} FindSteady(ops: seq<Operation>, tables: map<string, Metadata>, n: nat)
    requires n <= |ops| && "" !in tables
    ensures var g := Find(ops, Steady(ops, tables), n);
            && g.first == FirstNamed(ops, tables, n)
            && (forall t :: t in g.tables ==> t in tables && g.tables[t] == tables[t])
            && (forall i :: 0 <= i < n && ops[i].table in tables ==> ops[i].table in g.tables)
            && (g.first.None? <==> g.tables == map[])
  {
    if n > 0 { FindSteady(ops, tables, n - 1); }
  }

  lemma DistinctCount(a: seq<string>, x: string)
    requires forall i, j :: 0 <= i < j < |a| ==> a[i] != a[j]
    ensures multiset(a)[x] == if x in a then 1 else 0
  {
    if a != [] {
      var n := |a| - 1;
      assert a == a[..n] + [a[n]];
      DistinctCount(a[..n], x);
    }
  }

  lemma SameElements(a: seq<string>, b: seq<string>)
    requires forall i, j :: 0 <= i < j < |a| ==> a[i] != a[j]
    requires forall i, j :: 0 <= i < j < |b| ==> b[i] != b[j]
    requires forall x :: x in a <==> x in b
    ensures multiset(a) == multiset(b)
  {
    forall x ensures multiset(a)[x] == multiset(b)[x] {
      DistinctCount(a, x);
      DistinctCount(b, x);
    }
  }

  lemma HashesDistinct(c: Settings, f: Found)
    requires IsHash(c.sha) && FoundWell(f)
    ensures forall i, j :: 0 <= i < j < |f.metas| ==> Hashes(c.sha, f.metas)[i] != Hashes(c.sha, f.metas)[j]
  {
    forall i, j | 0 <= i < j < |f.metas| ensures Hashes(c.sha, f.metas)[i] != Hashes(c.sha, f.metas)[j] {
      assert f.metas[i] in f.metas && f.metas[j] in f.metas;
      SignatureIff(c.sha, f.metas[i], f.metas[j]);
    }
  }

  lemma HashesCarry(c: Settings, f: Found, g: Found, x: string)
    requires FoundWell(f) && FoundWell(g) && f.tables == g.tables && x in Hashes(c.sha, f.metas)
    ensures x in Hashes(c.sha, g.metas)
  {
    var i :| 0 <= i < |f.metas| && Hashes(c.sha, f.metas)[i] == x;
    assert f.metas[i] in f.metas && g.tables[f.metas[i].table] == f.metas[i];
    assert f.metas[i] in g.metas;
    var j :| 0 <= j < |g.metas| && g.metas[j] == f.metas[i];
    assert Hashes(c.sha, g.metas)[j] == x;
  }

  /** The order in which tables answered leaves no trace in the key. */
  lemma SameTablesSameKey(c: Settings, a: Request, b: Request)
    requires IsHash(c.sha) && ValidRequest(c, a) && ValidRequest(c, b) && a.sql == b.sql
    requires FoundBy(c, a).tables == FoundBy(c, b).tables
    ensures KeyOf(c, a) == KeyOf(c, b)
  {
    var f, g := FoundBy(c, a), FoundBy(c, b);
    FindWell(c.read(a.sql).operations, a.answers, |a.answers|);
    FindWell(c.read(b.sql).operations, b.answers, |b.answers|);
    HashesDistinct(c, f);
    HashesDistinct(c, g);
    forall x ensures x in Hashes(c.sha, f.metas) <==> x in Hashes(c.sha, g.metas) {
      if x in Hashes(c.sha, f.metas) { HashesCarry(c, f, g, x); }
      if x in Hashes(c.sha, g.metas) { HashesCarry(c, g, f, x); }
    }
    SameElements(Hashes(c.sha, f.metas), Hashes(c.sha, g.metas));
    AllHexHashes(c.sha, f.metas);
    AllHexHashes(c.sha, g.metas);
    CacheKeyIff(c.sha, a.sql, Hashes(c.sha, f.metas), b.sql, Hashes(c.sha, g.metas));
  }

  /** The request in which the tables that `r` finds answer at once */
  function SteadyRequest(c: Settings, r: Request): Request
    requires Fits(c, r)
  {
    Request(false, r.sql, Steady(c.read(r.sql).operations, FoundBy(c, r).tables))
  }

  lemma SteadyFinds(c: Settings, r: Request)
    requires ValidRequest(c, r)
    ensures var q := SteadyRequest(c, r);
            && ValidRequest(c, q)
            && FoundBy(c, q).tables == FoundBy(c, r).tables
            && FoundBy(c, q).first == FirstNamed(c.read(r.sql).operations, FoundBy(c, r).tables, |r.answers|)
  {
    var ops, f, q := c.read(r.sql).operations, FoundBy(c, r), SteadyRequest(c, r);
    FindWell(ops, r.answers, |ops|);
    assert q.answers == Steady(ops, f.tables);
    FindSteady(ops, f.tables, |ops|);
    var g := FoundBy(c, q);
    forall t | t in f.tables ensures t in g.tables {
      FindNamed(ops, r.answers, |ops|, t);
    }
    assert g.tables.Keys == f.tables.Keys;
  }

  /** A misled analysis is answered wrongly after some analysis of the same file: of the same tables, without failing asks. */
  lemma MisledIsAnsweredWrongly(c: Settings, r: Request)
    requires IsHash(c.sha) && ValidRequest(c, r) && IsMisled(c, r)
    ensures var run := [SteadyRequest(c, r)];
            && ValidRun(c, run) && NoneMisled(c, run)
            && Answered(c, CacheAfter(c, run), r).verdict != Uncached(c, r)
  {
    var q := SteadyRequest(c, r);
    SteadyFinds(c, r);
    SameTablesSameKey(c, r, q);
    CanonicalIff(c, q);
    CanonicalIff(c, r);
    KeyDecides(c, r, q);
    assert [q][..0] == [];
    assert CacheAfter(c, [q]) == Answered(c, map[], q).entries;
  }

  /** Exactly when the cache never shows: for each analysis, whatever unmisled analyses came before it */
  lemma CacheTransparentIff(c: Settings, r: Request)
    requires IsHash(c.sha) && ValidRequest(c, r)
    ensures (forall run :: ValidRun(c, run) && NoneMisled(c, run) ==> Answered(c, CacheAfter(c, run), r).verdict == Uncached(c, r))
            <==> !IsMisled(c, r)
  {
    if IsMisled(c, r) {
      MisledIsAnsweredWrongly(c, r);
    } else {
      forall run | ValidRun(c, run) && NoneMisled(c, run)
        ensures Answered(c, CacheAfter(c, run), r).verdict == Uncached(c, r)
      {
        CacheIsTransparent(c, run, r);
      }
    }
  }

  // ---- A late answer that misleads ----

  /** A column is added to `a`, to `b` and to `a` again, and column `x` of `z` is dropped. */
  function LateOperations(a: string, b: string, z: string, x: string): seq<Operation> {
    var f := Facts(false, false, false, false, false, false, false);
    [Operation(AddColumn, a, "", f), Operation(AddColumn, b, "", f), Operation(AddColumn, a, "", f), Operation(DropColumn, z, x, f)]
  }

  /** The first ask for `a` fails, the second is answered; `z` is never found. */
  function LateAnswers(ma: Metadata, mb: Metadata): Answers {
    [None, Some(mb), Some(ma), None]
  }

  /** Both are answered at once. */
  function PromptAnswers(ma: Metadata, mb: Metadata): Answers {
    [Some(ma), Some(mb), None, None]
  }

  lemma LateFinds(ops: seq<Operation>, ma: Metadata, mb: Metadata, z: string, x: string)
    requires ops == LateOperations(ma.table, mb.table, z, x) && ma.table != "" && mb.table != "" && ma.table != mb.table
    ensures Find(ops, LateAnswers(ma, mb), 4) == Found(map[ma.table := ma, mb.table := mb], Some(mb), [mb, ma])
    ensures Find(ops, PromptAnswers(ma, mb), 4) == Found(map[ma.table := ma, mb.table := mb], Some(ma), [ma, mb])
  {
    var l, p := LateAnswers(ma, mb), PromptAnswers(ma, mb);
    assert Find(ops, l, 1) == Found(map[], None, []);
    assert Find(ops, l, 2) == Found(map[mb.table := mb], Some(mb), [mb]);
    assert Find(ops, l, 3) == Found(map[ma.table := ma, mb.table := mb], Some(mb), [mb, ma]);
    assert Find(ops, p, 1) == Found(map[ma.table := ma], Some(ma), [ma]);
    assert Find(ops, p, 2) == Found(map[ma.table := ma, mb.table := mb], Some(ma), [ma, mb]);
    assert Find(ops, p, 3) == Find(ops, p, 2);
  }

  lemma LateLevel(c: Settings, m: Migration, f: Found, es: seq<Effect>)
    requires es == Effects(InputOf(c, m, f)) && |m.operations| == 4
    requires forall i :: 0 <= i < 3 ==> EffectOf(InputOf(c, m, f), m.operations[i]).level == Low
    requires EffectOf(InputOf(c, m, f), m.operations[3]).level == High
    ensures Highest(es, |es|) == High
  {
    assert es[0] == EffectOf(InputOf(c, m, f), m.operations[0]) && es[1] == EffectOf(InputOf(c, m, f), m.operations[1]);
    assert es[2] == EffectOf(InputOf(c, m, f), m.operations[2]) && es[3] == EffectOf(InputOf(c, m, f), m.operations[3]);
    LastLevel(es);
  }

  lemma LastLevel(es: seq<Effect>)
    requires |es| == 4 && es[0].level == es[1].level == es[2].level == Low && es[3].level == High
    ensures Highest(es, 4) == High
  {
    assert Highest(es, 1) == Low && Highest(es, 2) == Low && Highest(es, 3) == Low;
  }

  /** The requests with the late and with the prompt answers */
  function Late(sql: string, ma: Metadata, mb: Metadata): Request {
    Request(false, sql, LateAnswers(ma, mb))
  }

  function Prompt(sql: string, ma: Metadata, mb: Metadata): Request {
    Request(false, sql, PromptAnswers(ma, mb))
  }

  /** `c` reads `sql` as those four operations; `ma` is referred to at column `x`, `mb` is not referred to at all. */
  ghost predicate LateSetting(c: Settings, sql: string, ma: Metadata, mb: Metadata, z: string, x: string) {
    && IsHash(c.sha) && PlainMeta(ma) && PlainMeta(mb) && ma.table != mb.table && z !in {ma.table, mb.table}
    && Refers(ma, x) && mb.inbound == []
    && c.read(sql) == Migration(LateOperations(ma.table, mb.table, z, x), false, false)
  }

  lemma LateRequests(c: Settings, sql: string, ma: Metadata, mb: Metadata, z: string, x: string)
    requires LateSetting(c, sql, ma, mb, z, x)
    ensures ValidRequest(c, Late(sql, ma, mb)) && ValidRequest(c, Prompt(sql, ma, mb))
    ensures FoundBy(c, Late(sql, ma, mb)) == Found(map[ma.table := ma, mb.table := mb], Some(mb), [mb, ma])
    ensures FoundBy(c, Prompt(sql, ma, mb)) == Found(map[ma.table := ma, mb.table := mb], Some(ma), [ma, mb])
  {
    LateFinds(c.read(sql).operations, ma, mb, z, x);
  }

  lemma LateAnalyses(c: Settings, sql: string, ma: Metadata, mb: Metadata, z: string, x: string)
    requires LateSetting(c, sql, ma, mb, z, x)
    requires Fits(c, Late(sql, ma, mb)) && Fits(c, Prompt(sql, ma, mb))
    ensures var v := Analysis(c, Late(sql, ma, mb)); v.level == High && !v.touchesFKs
    ensures var v := Analysis(c, Prompt(sql, ma, mb)); v.level == Critical && v.touchesFKs
  {
    LateRequests(c, sql, ma, mb, z, x);
    LateVerdict(c, c.read(sql), ma, mb, z, x);
    PromptVerdict(c, c.read(sql), ma, mb, z, x);
  }

  lemma PromptIsNotMisled(c: Settings, sql: string, ma: Metadata, mb: Metadata, z: string, x: string)
    requires LateSetting(c, sql, ma, mb, z, x) && Fits(c, Prompt(sql, ma, mb))
    ensures !IsMisled(c, Prompt(sql, ma, mb))
  {
    LateRequests(c, sql, ma, mb, z, x);
    LateNamed(c.read(sql).operations, ma, mb, z, x);
  }

  lemma ServedFromCache(c: Settings, a: Request, b: Request)
    requires ValidRequest(c, a) && ValidRequest(c, b) && !a.excluded && !b.excluded && KeyOf(c, a) == KeyOf(c, b)
    ensures ValidRun(c, [a]) && Answered(c, CacheAfter(c, [a]), b).verdict == Analysis(c, a)
  {
    assert [a][..0] == [];
    assert CacheAfter(c, [a]) == Answered(c, map[], a).entries;
  }

  /** The two analyses have the same key and different verdicts: an analysis without a cache says CRITICAL where the cache,
      filled by the analysis with the late answer, says HIGH. */
  lemma LateAnswerMisleads(c: Settings, sql: string, ma: Metadata, mb: Metadata, z: string, x: string)
    requires LateSetting(c, sql, ma, mb, z, x)
    ensures var late, prompt := Late(sql, ma, mb), Prompt(sql, ma, mb);
            && ValidRequest(c, late) && ValidRequest(c, prompt) && ValidRun(c, [late])
            && Answered(c, CacheAfter(c, [late]), prompt).verdict.level == High
            && Uncached(c, prompt).level == Critical && Uncached(c, prompt).touchesFKs
            && IsMisled(c, late) && !IsMisled(c, prompt)
  {
    var late, prompt := Late(sql, ma, mb), Prompt(sql, ma, mb);
    LateRequests(c, sql, ma, mb, z, x);
    SameTablesSameKey(c, late, prompt);
    LateAnalyses(c, sql, ma, mb, z, x);
    ServedFromCache(c, late, prompt);
    PromptIsNotMisled(c, sql, ma, mb, z, x);
    CanonicalIff(c, prompt);
    CanonicalIff(c, late);
    KeyDecides(c, late, prompt);
  }

  lemma LateNamed(ops: seq<Operation>, ma: Metadata, mb: Metadata, z: string, x: string)
    requires ops == LateOperations(ma.table, mb.table, z, x)
    ensures FirstNamed(ops, map[ma.table := ma, mb.table := mb], 4) == Some(map[ma.table := ma, mb.table := mb][ma.table])
  {
    var t := map[ma.table := ma, mb.table := mb];
    assert FirstNamed(ops, t, 1) == Some(t[ma.table]);
    assert FirstNamed(ops, t, 2) == FirstNamed(ops, t, 1);
    assert FirstNamed(ops, t, 3) == FirstNamed(ops, t, 1);
  }

  lemma LateVerdict(c: Settings, m: Migration, ma: Metadata, mb: Metadata, z: string, x: string)
    requires m == Migration(LateOperations(ma.table, mb.table, z, x), false, false) && ma.table != mb.table
    requires z !in {ma.table, mb.table} && mb.inbound == []
    ensures var v := VerdictOf(InputOf(c, m, Found(map[ma.table := ma, mb.table := mb], Some(mb), [mb, ma])));
            v.level == High && !v.touchesFKs
  {
    var f := Found(map[ma.table := ma, mb.table := mb], Some(mb), [mb, ma]);
    assert !Refers(mb, x);
    TouchesBy(c, m, f);
    LateLevel(c, m, f, Effects(InputOf(c, m, f)));
  }

  lemma PromptVerdict(c: Settings, m: Migration, ma: Metadata, mb: Metadata, z: string, x: string)
    requires m == Migration(LateOperations(ma.table, mb.table, z, x), false, false)
    requires z !in {ma.table, mb.table} && Refers(ma, x)
    ensures var v := VerdictOf(InputOf(c, m, Found(map[ma.table := ma, mb.table := mb], Some(ma), [ma, mb])));
            v.level == Critical && v.touchesFKs
  {
    var f := Found(map[ma.table := ma, mb.table := mb], Some(ma), [ma, mb]);
    var es := Effects(InputOf(c, m, f));
    assert TouchedBy(ma, m.operations[3]);
    TouchesBy(c, m, f);
    assert es[3] == EffectOf(InputOf(c, m, f), m.operations[3]);
    TouchIsCritical(es, 3);
  }

  // ---- Analyses that are never misled ----

  /** No table answers after an ask for it has failed. */
  predicate NoLateAnswer(ops: seq<Operation>, answers: Answers)
    requires |answers| == |ops|
  {
    forall i, j :: 0 <= i < j < |ops| && ops[i].table == ops[j].table && answers[i].None? ==> answers[j].None?
  }

  /** Every table in which something is dropped was found. */
  predicate DropsFound(ops: seq<Operation>, tables: map<string, Metadata>) {
    forall i :: 0 <= i < |ops| && (ops[i].kind.DropColumn? || ops[i].kind.DropTable?) ==> ops[i].table in tables
  }

  /** Without late answers, what is found of the tables named so far is final. */
  lemma {:induction false} NamedFound(ops: seq<Operation>, answers: Answers, n: nat, i: nat)
    requires |answers| == |ops| && i < n <= |ops| && NoLateAnswer(ops, answers)
    ensures ops[i].table in Find(ops, answers, n).tables <==> ops[i].table in Find(ops, answers, i + 1).tables
  {
    if i < n - 1 {
      NamedFound(ops, answers, n - 1, i);
      if ops[n - 1].table == ops[i].table && answers[i].Some? && ops[i].table != "" {
        assert ops[i].table in Find(ops, answers, i + 1).tables;
      }
    }
  }

  lemma {:induction false} FindGrows(ops: seq<Operation>, answers: Answers, n: nat, k: nat)
    requires k <= n <= |ops| <= |answers|
    ensures var f, g := Find(ops, answers, k), Find(ops, answers, n);
            && (forall t :: t in f.tables ==> t in g.tables && g.tables[t] == f.tables[t])
            && (f.first.Some? ==> g.first == f.first)
  {
    if k < n { FindGrows(ops, answers, n - 1, k); }
  }

  lemma {:induction false} FirstIsNamed(ops: seq<Operation>, answers: Answers, n: nat)
    requires ValidAnswers(ops, answers) && NoLateAnswer(ops, answers) && n <= |ops|
    ensures Find(ops, answers, n).first == FirstNamed(ops, Find(ops, answers, |ops|).tables, n)
  {
    if n > 0 {
      FirstIsNamed(ops, answers, n - 1);
      NamedFound(ops, answers, |ops|, n - 1);
      FindGrows(ops, answers, |ops|, n);
      FindWell(ops, answers, n);
      FindWell(ops, answers, n - 1);
      FindGrows(ops, answers, n, n - 1);
      if Find(ops, answers, n - 1).first.None? {
        assert ops[n - 1].table !in Find(ops, answers, n - 1).tables;
      }
    }
  }

  /** An analysis in which no table answers late is not misled, and neither is one that finds every table it drops in. */
  lemma NeverMisled(c: Settings, r: Request)
    requires ValidRequest(c, r)
    requires var ops := c.read(r.sql).operations; NoLateAnswer(ops, r.answers) || DropsFound(ops, FoundBy(c, r).tables)
    ensures !IsMisled(c, r)
  {
    var ops := c.read(r.sql).operations;
    if NoLateAnswer(ops, r.answers) {
      FirstIsNamed(ops, r.answers, |ops|);
    }
  }

  // ---- What a cached answer gets right in any case ----

  /** `v` is the verdict of some analysis with this key. */
  ghost predicate HasSource(c: Settings, key: string, v: Verdict) {
    exists a :: ValidRequest(c, a) && KeyOf(c, a) == key && v == Analysis(c, a)
  }

  ghost predicate Sourced(c: Settings, entries: map<string, Verdict>) {
    forall key :: key in entries ==> HasSource(c, key, entries[key])
  }

  lemma AnswerSourced(c: Settings, entries: map<string, Verdict>, q: Request)
    requires ValidRequest(c, q) && Sourced(c, entries)
    ensures Sourced(c, Answered(c, entries, q).entries)
  {
    if !q.excluded && KeyOf(c, q) !in entries {
      NewSource(c, q);
      AddSource(c, entries, KeyOf(c, q), Analysis(c, q));
    }
  }

  lemma NewSource(c: Settings, q: Request)
    requires ValidRequest(c, q)
    ensures HasSource(c, KeyOf(c, q), Analysis(c, q))
  {}

  lemma AddSource(c: Settings, entries: map<string, Verdict>, key: string, v: Verdict)
    requires Sourced(c, entries) && HasSource(c, key, v)
    ensures Sourced(c, entries[key := v])
  {}

  lemma {:induction false} RunSourced(c: Settings, run: seq<Request>)
    requires ValidRun(c, run)
    ensures Sourced(c, CacheAfter(c, run))
    decreases |run|
  {
    if run != [] {
      var n := |run| - 1;
      RunSourced(c, run[..n]);
      AnswerSourced(c, CacheAfter(c, run[..n]), run[n]);
    }
  }

  lemma SourceOf(c: Settings, key: string, v: Verdict) returns (a: Request)
    requires HasSource(c, key, v)
    ensures ValidRequest(c, a) && KeyOf(c, a) == key && v == Analysis(c, a)
  {
    a :| ValidRequest(c, a) && KeyOf(c, a) == key && v == Analysis(c, a);
  }

  /** The answer comes from an analysis of the same text. */
  lemma AnswerFrom(c: Settings, run: seq<Request>, r: Request) returns (a: Request)
    requires IsHash(c.sha) && ValidRun(c, run) && ValidRequest(c, r) && !r.excluded
    ensures ValidRequest(c, a) && a.sql == r.sql && Answered(c, CacheAfter(c, run), r).verdict == Analysis(c, a)
  {
    RunSourced(c, run);
    var entries, key := CacheAfter(c, run), KeyOf(c, r);
    if key in entries {
      a := SourceOf(c, key, entries[key]);
      KeyTables(c, a, r);
    } else {
      a := r;
    }
  }

  /** However asks fail, in every run the cached answer agrees with the uncached one on whether the migration is reversible,
      destroys and locks, and on its category; a wrong answer is wrong about foreign keys. */
  lemma AnswersAgreeApartFromKeys(c: Settings, run: seq<Request>, r: Request)
    requires IsHash(c.sha) && ValidRun(c, run) && ValidRequest(c, r)
    ensures var v, w := Answered(c, CacheAfter(c, run), r).verdict, Uncached(c, r);
            && v.reversible == w.reversible && v.destructive == w.destructive
            && v.exclusiveLock == w.exclusiveLock && v.category == w.category
            && (v == w <==> v.touchesFKs == w.touchesFKs)
  {
    if !r.excluded {
      var a := AnswerFrom(c, run, r);
      var m := c.read(r.sql);
      EffectMarks(c, m, FoundBy(c, a), FoundBy(c, r));
      VerdictsByTouch(Effects(InputOf(c, m, FoundBy(c, a))), Effects(InputOf(c, m, FoundBy(c, r))));
    }
  }

  /** A file that is not excluded and matches an always-critical pattern is CRITICAL and destructive, cached or not. */
  lemma AlwaysCriticalIsCritical(c: Settings, run: seq<Request>, r: Request)
    requires IsHash(c.sha) && ValidRun(c, run) && ValidRequest(c, r)
    requires !r.excluded && c.read(r.sql).critical
    ensures var v := Answered(c, CacheAfter(c, run), r).verdict; v.level == Critical && v.destructive
    ensures Uncached(c, r).level == Critical && Uncached(c, r).destructive
  {
    var a := AnswerFrom(c, run, r);
    assert c.read(a.sql).critical;
  }

  /** It blocks every report it is in under the default policy. */
  lemma AlwaysCriticalBlocks(c: Settings, run: seq<Request>, r: Request, confidence: real,
                             risks: seq<Report.Assessed>, s: Report.Summary)
    requires IsHash(c.sha) && ValidRun(c, run) && ValidRequest(c, r)
    requires !r.excluded && c.read(r.sql).critical
    requires Report.Assessed(Answered(c, CacheAfter(c, run), r).verdict.level, confidence) in risks
    requires Report.Summarises(Report.DefaultPolicy, risks, s)
    ensures s.blocked && s.level.Critical? && s.action.Block?
  {
    AlwaysCriticalIsCritical(c, run, r);
    Report.CriticalBlocks(confidence, risks, s);
  }

  /** Without such a match an analysis without a cache answers what the classifier says of what introspection found;
      with one, reversibility, foreign keys, lock and category are still the classifier's. An excluded file is LOW. */
  lemma UncachedIsClassified(c: Settings, r: Request)
    requires Fits(c, r)
    ensures var m := c.read(r.sql);
            var v := VerdictOf(Input(c.postgres, m.operations, m.blank, FoundBy(c, r).first, FoundBy(c, r).tables));
            && (!r.excluded && !m.critical ==> Uncached(c, r) == v)
            && (!r.excluded && m.critical ==> Uncached(c, r) == v.(level := Critical, destructive := true))
            && (r.excluded ==> Uncached(c, r).level == Low && !Uncached(c, r).destructive)
  {}

  /** A file that is not excluded and drops or truncates a table blocks every report it is in, cached or not. */
  lemma DropAlwaysBlocks(c: Settings, run: seq<Request>, r: Request, op: Operation, confidence: real,
                         risks: seq<Report.Assessed>, s: Report.Summary)
    requires IsHash(c.sha) && ValidRun(c, run) && ValidRequest(c, r)
    requires !r.excluded && op in c.read(r.sql).operations && op.kind in {DropTable, Truncate}
    requires Report.Assessed(Answered(c, CacheAfter(c, run), r).verdict.level, confidence) in risks
    requires Report.Summarises(Report.DefaultPolicy, risks, s)
    ensures s.blocked && s.level.Critical? && s.action.Block?
  {
    var a := AnswerFrom(c, run, r);
    DropsAreCritical(InputOf(c, c.read(r.sql), FoundBy(c, a)), op);
    Report.CriticalBlocks(confidence, risks, s);
  }
}
