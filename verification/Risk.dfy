/** internal/risk: the heuristic classifier, the policy's decision and the report over several migrations.
    Statements come classified; what the regular expressions say of a statement is part of the operation. */
module Risk {
  import opened Wrappers
  import opened Text

  // ---- Levels (model.go) ----

  datatype Level = Low | Medium | High | Critical | Unknown

  function Order(l: Level): (n: nat)
    ensures n <= 4
  {
    match l
    case Low => 1
    case Medium => 2
    case High => 3
    case Critical => 4
    case Unknown => 0
  }

  function Escalate(l: Level): Level {
    match l
    case Low => Medium
    case Medium => High
    case _ => Critical
  }

  function MaxLevel(a: Level, b: Level): Level {
    if Order(a) >= Order(b) then a else b
  }

  // ---- Operations and metadata ----

  datatype Kind =
    | DropTable | Truncate | DropColumn | AlterType | DropConstraint | DropIndex | AddConstraint | AddIndex
    | AddColumn | CreateTable | Generic | Rename | OtherKind

  /** What is asked of the text of a statement: does it manipulate data, does it have a WHERE, and so on? */
  datatype Facts = Facts(
    manipulates: bool,
    hasWhere: bool,
    notValid: bool,
    concurrently: bool,
    notNull: bool,
    hasDefault: bool,
    cascade: bool)

  datatype Operation = Operation(kind: Kind, table: string, column: string, facts: Facts)

  datatype ForeignKey = ForeignKey(name: string, fromTable: string, fromColumn: string, toTable: string, toColumn: string)

  datatype Metadata = Metadata(table: string, columns: seq<string>, inbound: seq<ForeignKey>)

  datatype Category = SchemaChange | DataMigration | Index | Constraint | DocsOrComments

  /** ClassificationInput; `blank` says that nothing is left of the text without its comments. */
  datatype Input = Input(
    postgres: bool,
    operations: seq<Operation>,
    blank: bool,
    first: Option<Metadata>,
    tables: map<string, Metadata>)

  /** The fields of MigrationRisk that decide */
  datatype Verdict = Verdict(
    level: Level,
    reversible: bool,
    destructive: bool,
    touchesFKs: bool,
    exclusiveLock: bool,
    category: Category)

  // ---- What each operation contributes ----

  /** A table without metadata of its own is judged by the first table's. */
  function TargetMeta(input: Input, op: Operation): Option<Metadata> {
    if op.table in input.tables then Some(input.tables[op.table]) else input.first
  }

  /** Some foreign key refers to the column; an unnamed column counts as referred to by any. */
  predicate Refers(m: Metadata, column: string) {
    exists i :: 0 <= i < |m.inbound| && RefersTo(m.inbound[i], column)
  }

  predicate RefersTo(fk: ForeignKey, column: string) {
    EqualFold(fk.toColumn, column) || column == ""
  }

  predicate IsReferenced(input: Input, op: Operation) {
    TargetMeta(input, op).Some? && Refers(TargetMeta(input, op).value, op.column)
  }

  predicate HasInbound(input: Input, op: Operation) {
    TargetMeta(input, op).Some? && TargetMeta(input, op).value.inbound != []
  }

  /** A column is dropped that a foreign key refers to. */
  predicate DropsColumn(input: Input, op: Operation) {
    op.kind.DropColumn? && IsReferenced(input, op)
  }

  /** A table is dropped that foreign keys refer to. */
  predicate DropsTable(input: Input, op: Operation) {
    op.kind.DropTable? && HasInbound(input, op)
  }

  predicate Destroys(op: Operation) {
    || op.kind.DropTable? || op.kind.Truncate? || op.kind.DropColumn?
    || ((op.kind.Generic? || op.kind.OtherKind?) && op.facts.manipulates && !op.facts.hasWhere)
  }

  predicate Locks(input: Input, op: Operation) {
    match op.kind
    case DropTable => true
    case Truncate => true
    case DropColumn => true
    case AlterType => true
    case DropConstraint => true
    case Rename => true
    case AddConstraint => input.postgres && !op.facts.notValid
    case AddIndex => input.postgres && !op.facts.concurrently
    case AddColumn => op.facts.notNull && !op.facts.hasDefault
    case _ => false
  }

  function ManipulationLevel(op: Operation): Level {
    if op.facts.hasWhere then Medium else High
  }

  function KindLevel(input: Input, op: Operation): Level {
    match op.kind
    case DropTable => Critical
    case Truncate => Critical
    case DropColumn => if IsReferenced(input, op) then Critical else High
    case AlterType => High
    case DropConstraint => High
    case DropIndex => Medium
    case AddConstraint => if input.postgres && !op.facts.notValid then Medium else Low
    case AddIndex => if input.postgres && !op.facts.concurrently then Medium else Low
    case AddColumn => if op.facts.notNull && !op.facts.hasDefault then High else Low
    case CreateTable => Low
    case Generic => if op.facts.manipulates then ManipulationLevel(op) else High
    case Rename => Medium
    case OtherKind => if op.facts.manipulates then ManipulationLevel(op) else Low
  }

  function OpLevel(input: Input, op: Operation): Level {
    if op.facts.cascade then MaxLevel(KindLevel(input, op), High) else KindLevel(input, op)
  }

  /** The category an operation sets, if it sets one */
  function OpCategory(op: Operation): Option<Category> {
    match op.kind
    case Truncate => Some(DataMigration)
    case DropConstraint => Some(Constraint)
    case AddConstraint => Some(Constraint)
    case DropIndex => Some(Index)
    case AddIndex => Some(Index)
    case Generic => if op.facts.manipulates then Some(DataMigration) else None
    case OtherKind => if op.facts.manipulates then Some(DataMigration) else None
    case _ => None
  }

  /** A DROP or TRUNCATE ends reversibility, a later CREATE TABLE restores it. */
  function OpReversible(op: Operation): Option<bool> {
    match op.kind
    case DropTable => Some(false)
    case Truncate => Some(false)
    case DropColumn => Some(false)
    case CreateTable => Some(true)
    case _ => None
  }

  // ---- The verdict on a list of effects ----

  /** All that one operation contributes to the verdict */
  datatype Effect = Effect(
    level: Level,
    reversible: Option<bool>,
    destroys: bool,
    dropsColumn: bool,
    dropsTable: bool,
    locks: bool,
    category: Option<Category>)

  function EffectOf(input: Input, op: Operation): Effect {
    Effect(OpLevel(input, op), OpReversible(op), Destroys(op), DropsColumn(input, op), DropsTable(input, op),
           Locks(input, op), OpCategory(op))
  }

  function Effects(input: Input): (r: seq<Effect>)
    ensures |r| == |input.operations|
    ensures forall i :: 0 <= i < |r| ==> r[i] == EffectOf(input, input.operations[i])
  {
    seq(|input.operations|, i requires 0 <= i < |input.operations| => EffectOf(input, input.operations[i]))
  }

  /** The highest level, at least LOW */
  function Highest(es: seq<Effect>, n: nat): Level
    requires n <= |es|
  {
    if n == 0 then Low else MaxLevel(Highest(es, n - 1), es[n - 1].level)
  }

  /** What the last operation says that says anything */
  function LastReversible(es: seq<Effect>, n: nat): bool
    requires n <= |es|
  {
    if n == 0 then true
    else if es[n - 1].reversible.Some? then es[n - 1].reversible.value
    else LastReversible(es, n - 1)
  }

  function LastCategory(es: seq<Effect>, n: nat): Category
    requires n <= |es|
  {
    if n == 0 then SchemaChange
    else if es[n - 1].category.Some? then es[n - 1].category.value
    else LastCategory(es, n - 1)
  }

  function VerdictOn(es: seq<Effect>): Verdict {
    Verdict(
      Highest(es, |es|),
      LastReversible(es, |es|),
      exists i :: 0 <= i < |es| && es[i].destroys,
      exists i :: 0 <= i < |es| && (es[i].dropsColumn || es[i].dropsTable),
      exists i :: 0 <= i < |es| && es[i].locks,
      LastCategory(es, |es|))
  }

  function VerdictOf(input: Input): Verdict {
    if input.operations == [] && input.blank then Verdict(Low, true, false, false, false, DocsOrComments)
    else VerdictOn(Effects(input))
  }

  // ---- The classifier (heuristic.go) ----

  /** Is the column of a DROP COLUMN referred to by a foreign key? */
  method CheckReferences(input: Input, op: Operation) returns (referenced: bool)
    ensures referenced == IsReferenced(input, op)
  {
    var meta := TargetMeta(input, op);
    if meta.None? { return false; }
    referenced := AnyRefers(meta.value, op.column);
  }

  method AnyRefers(m: Metadata, column: string) returns (referenced: bool)
    ensures referenced == Refers(m, column)
  {
    referenced := false;
    for i := 0 to |m.inbound|
      invariant referenced <==> exists k :: 0 <= k < i && RefersTo(m.inbound[k], column)
    {
      if EqualFold(m.inbound[i].toColumn, column) || column == "" {
        referenced := true;
      }
    }
  }

  /** One turn of the classifier's loop, up to the test for CASCADE; `v` is the verdict so far. */
  method ClassifyKind(input: Input, op: Operation, v: Verdict) returns (r: Verdict)
    requires !v.level.Unknown?
    ensures r.level == MaxLevel(v.level, KindLevel(input, op))
    ensures r.destructive == (v.destructive || Destroys(op))
    ensures r.exclusiveLock == (v.exclusiveLock || Locks(input, op))
    ensures r.touchesFKs == (v.touchesFKs || DropsColumn(input, op))
    ensures r.reversible == if OpReversible(op).Some? then OpReversible(op).value else v.reversible
    ensures r.category == if OpCategory(op).Some? then OpCategory(op).value else v.category
  {
    r := v;
    match op.kind {
      case DropTable =>
        r := r.(level := MaxLevel(r.level, Critical), destructive := true, reversible := false, exclusiveLock := true);
      case Truncate =>
        r := r.(level := MaxLevel(r.level, Critical), destructive := true, reversible := false, exclusiveLock := true);
        r := r.(category := DataMigration);
      case DropColumn =>
        r := r.(destructive := true, reversible := false, exclusiveLock := true);
        var referenced := CheckReferences(input, op);
        if referenced {
          r := r.(touchesFKs := true, level := MaxLevel(r.level, Critical));
        } else {
          r := r.(level := MaxLevel(r.level, High));
        }
      case AlterType =>
        r := r.(level := MaxLevel(r.level, High), exclusiveLock := true);
      case DropConstraint =>
        r := r.(level := MaxLevel(r.level, High), category := Constraint, exclusiveLock := true);
      case DropIndex =>
        r := r.(level := MaxLevel(r.level, Medium), category := Index);
      case AddConstraint =>
        r := r.(category := Constraint);
        if input.postgres && !op.facts.notValid {
          r := r.(level := MaxLevel(r.level, Medium), exclusiveLock := true);
        } else {
          r := r.(level := MaxLevel(r.level, Low));
        }
      case AddIndex =>
        r := r.(category := Index);
        if input.postgres && !op.facts.concurrently {
          r := r.(level := MaxLevel(r.level, Medium), exclusiveLock := true);
        } else {
          r := r.(level := MaxLevel(r.level, Low));
        }
      case AddColumn =>
        if op.facts.notNull && !op.facts.hasDefault {
          r := r.(level := MaxLevel(r.level, High), exclusiveLock := true);
        } else {
          r := r.(level := MaxLevel(r.level, Low));
        }
      case CreateTable =>
        r := r.(level := MaxLevel(r.level, Low), reversible := true);
      case Generic =>
        if op.facts.manipulates {
          r := ClassifyManipulation(op, r);
        } else {
          r := r.(level := MaxLevel(r.level, High));
        }
      case Rename =>
        r := r.(level := MaxLevel(r.level, Medium), exclusiveLock := true);
      case OtherKind =>
        if op.facts.manipulates {
          r := ClassifyManipulation(op, r);
        }
    }
  }

  method ClassifyManipulation(op: Operation, v: Verdict) returns (r: Verdict)
    ensures r == v.(category := DataMigration, level := MaxLevel(v.level, ManipulationLevel(op)),
                    destructive := v.destructive || !op.facts.hasWhere)
  {
    r := v.(category := DataMigration);
    if !op.facts.hasWhere {
      r := r.(level := MaxLevel(r.level, High), destructive := true);
    } else {
      r := r.(level := MaxLevel(r.level, Medium));
    }
  }

  /** The verdict after one more operation */
  function Extend(v: Verdict, e: Effect): Verdict {
    Verdict(
      MaxLevel(v.level, e.level),
      if e.reversible.Some? then e.reversible.value else v.reversible,
      v.destructive || e.destroys,
      v.touchesFKs || e.dropsColumn,
      v.exclusiveLock || e.locks,
      if e.category.Some? then e.category.value else v.category)
  }

  const Start := Verdict(Low, true, false, false, false, SchemaChange)

  /** What the loop makes of the first `n` operations */
  function Running(es: seq<Effect>, n: nat): Verdict
    requires n <= |es|
  {
    if n == 0 then Start else Extend(Running(es, n - 1), es[n - 1])
  }

  method ClassifyNext(input: Input, op: Operation, v: Verdict) returns (r: Verdict)
    requires !v.level.Unknown?
    ensures r == Extend(v, EffectOf(input, op))
  {
    r := ClassifyKind(input, op, v);
    if op.facts.cascade {
      r := r.(level := MaxLevel(r.level, High));
    }
  }

  /** `es` lists the effects of the operations. */
  ghost predicate Describes(input: Input, es: seq<Effect>) {
    && |es| == |input.operations|
    && forall i {:trigger input.operations[i]} :: 0 <= i < |es| ==> es[i] == EffectOf(input, input.operations[i])
  }

  /** The loop over the operations */
  method ClassifyAll(input: Input, ghost es: seq<Effect>) returns (v: Verdict)
    requires Describes(input, es)
    ensures v == Running(es, |es|)
  {
    v := Start;
    for i := 0 to |input.operations|
      invariant v == Running(es, i)
    {
      RunningKnown(es, i);
      v := ClassifyNext(input, input.operations[i], v);
    }
  }

  /** The second loop: is there a dropped table that foreign keys refer to? */
  method DropsReferenced(input: Input, ghost es: seq<Effect>) returns (found: bool)
    requires Describes(input, es)
    ensures found <==> exists i :: 0 <= i < |es| && es[i].dropsTable
  {
    for i := 0 to |input.operations|
      invariant forall k :: 0 <= k < i ==> !es[k].dropsTable
    {
      if DropsTable(input, input.operations[i]) { return true; }
    }
    return false;
  }

  method Classify(input: Input) returns (v: Verdict)
    ensures v == VerdictOf(input)
  {
    if |input.operations| == 0 && input.blank {
      return Verdict(Low, true, false, false, false, DocsOrComments);
    }
    ghost var es := Effects(input);
    v := ClassifyAll(input, es);
    var found := DropsReferenced(input, es);
    TableDropsCritical(input);
    RunningVerdict(es, found);
    if found {
      v := v.(touchesFKs := true, level := MaxLevel(v.level, Critical));
    }
  }

  lemma RunningKnown(es: seq<Effect>, n: nat)
    requires n <= |es|
    ensures !Running(es, n).level.Unknown?
  {
    RunningFields(es, n);
    HighestKnown(es, n);
  }

  lemma {:induction false} HighestKnown(es: seq<Effect>, n: nat)
    requires n <= |es|
    ensures !Highest(es, n).Unknown?
  {
    if n > 0 { HighestKnown(es, n - 1); }
  }

  lemma {:induction false} RunningFields(es: seq<Effect>, n: nat)
    requires n <= |es|
    ensures var v := Running(es, n);
            && v.level == Highest(es, n)
            && v.reversible == LastReversible(es, n)
            && v.category == LastCategory(es, n)
  {
    if n > 0 { RunningFields(es, n - 1); }
  }

  lemma {:induction false} RunningFlags(es: seq<Effect>, n: nat)
    requires n <= |es|
    ensures Running(es, n).destructive <==> exists i :: 0 <= i < n && es[i].destroys
    ensures Running(es, n).exclusiveLock <==> exists i :: 0 <= i < n && es[i].locks
    ensures Running(es, n).touchesFKs <==> exists i :: 0 <= i < n && es[i].dropsColumn
  {
    if n > 0 { RunningFlags(es, n - 1); }
  }

  lemma TableDropsCritical(input: Input)
    ensures forall e :: e in Effects(input) && e.dropsTable ==> e.level.Critical?
  {
    forall i | 0 <= i < |input.operations| && EffectOf(input, input.operations[i]).dropsTable
      ensures EffectOf(input, input.operations[i]).level.Critical?
    {}
  }

  /** What both loops together have found */
  lemma RunningVerdict(es: seq<Effect>, found: bool)
    requires found <==> exists i :: 0 <= i < |es| && es[i].dropsTable
    requires forall e :: e in es && e.dropsTable ==> e.level.Critical?
    ensures var v := Running(es, |es|);
            VerdictOn(es) == v.(touchesFKs := v.touchesFKs || found) && (found ==> v.level.Critical?)
  {
    RunningFields(es, |es|);
    RunningFlags(es, |es|);
    if found {
      var i :| 0 <= i < |es| && es[i].dropsTable;
      HighestBounds(es, |es|, i);
    }
  }

  // ---- What the verdict means ----

  /** The level is an upper bound of the operations' levels ... */
  lemma {:induction false} HighestBounds(es: seq<Effect>, n: nat, i: nat)
    requires i < n <= |es|
    ensures Order(es[i].level) <= Order(Highest(es, n))
  {
    if i < n - 1 { HighestBounds(es, n - 1, i); }
  }

  /** ... and is the level of one of them, or LOW. */
  lemma {:induction false} HighestAttained(es: seq<Effect>, n: nat)
    requires n <= |es|
    ensures Highest(es, n) == Low || exists i :: 0 <= i < n && es[i].level == Highest(es, n)
  {
    if n > 0 { HighestAttained(es, n - 1); }
  }

  /** A dropped or truncated table makes the migration CRITICAL. */
  lemma DropsAreCritical(input: Input, op: Operation)
    requires op in input.operations && op.kind in {DropTable, Truncate}
    ensures VerdictOf(input).level.Critical? && VerdictOf(input).destructive
  {
    var i :| 0 <= i < |input.operations| && input.operations[i] == op;
    HighestBounds(Effects(input), |input.operations|, i);
    assert Effects(input)[i].destroys;
  }

  // What a migration must contain to reach each level, in terms of its statements alone

  predicate MakesCritical(input: Input, op: Operation) {
    || op.kind in {DropTable, Truncate}
    || (op.kind == DropColumn && IsReferenced(input, op))
  }

  predicate MakesHigh(op: Operation) {
    var f := op.facts;
    || op.kind in {DropColumn, AlterType, DropConstraint} || f.cascade
    || (op.kind == AddColumn && f.notNull && !f.hasDefault)
    || (op.kind == Generic && !f.manipulates)
    || (op.kind in {Generic, OtherKind} && f.manipulates && !f.hasWhere)
  }

  predicate MakesMedium(input: Input, op: Operation) {
    var f := op.facts;
    || op.kind in {DropIndex, Rename}
    || (input.postgres && ((op.kind == AddConstraint && !f.notValid) || (op.kind == AddIndex && !f.concurrently)))
    || (op.kind in {Generic, OtherKind} && f.manipulates && f.hasWhere)
  }

  lemma OpReaches(input: Input, op: Operation)
    ensures Order(OpLevel(input, op)) >= 4 <==> MakesCritical(input, op)
    ensures Order(OpLevel(input, op)) >= 3 <==> MakesCritical(input, op) || MakesHigh(op)
    ensures Order(OpLevel(input, op)) >= 2 <==> MakesCritical(input, op) || MakesHigh(op) || MakesMedium(input, op)
  {}

  lemma HighestReaches(es: seq<Effect>, k: nat)
    requires 2 <= k <= 4
    ensures Order(Highest(es, |es|)) >= k <==> exists i :: 0 <= i < |es| && Order(es[i].level) >= k
  {
    HighestAttained(es, |es|);
    forall i | 0 <= i < |es| ensures Order(es[i].level) <= Order(Highest(es, |es|)) {
      HighestBounds(es, |es|, i);
    }
  }

  lemma EffectReaches(input: Input, i: nat)
    requires i < |input.operations|
    ensures var l, op := Effects(input)[i].level, input.operations[i];
            && (Order(l) >= 4 <==> MakesCritical(input, op))
            && (Order(l) >= 3 <==> MakesCritical(input, op) || MakesHigh(op))
            && (Order(l) >= 2 <==> MakesCritical(input, op) || MakesHigh(op) || MakesMedium(input, op))
  {
    OpReaches(input, input.operations[i]);
    assert Effects(input)[i] == EffectOf(input, input.operations[i]);
  }

  /** A migration is CRITICAL exactly when it drops or truncates a table or drops a column that a foreign key refers to, at least
      HIGH exactly when it does that or contains one of the other risky statements, and so on. */
  lemma LevelReached(input: Input)
    ensures var l := VerdictOf(input).level;
            && l != Unknown
            && (l == Critical <==> exists op :: op in input.operations && MakesCritical(input, op))
            && (Order(l) >= Order(High) <==>
                exists op :: op in input.operations && (MakesCritical(input, op) || MakesHigh(op)))
            && (Order(l) >= Order(Medium) <==>
                exists op :: op in input.operations && (MakesCritical(input, op) || MakesHigh(op) || MakesMedium(input, op)))
  {
    var es := Effects(input);
    VerdictFields(input);
    HighestKnown(es, |es|);
    HighestReaches(es, 2);
    HighestReaches(es, 3);
    HighestReaches(es, 4);
    forall i | 0 <= i < |es|
      ensures Order(es[i].level) >= 4 <==> MakesCritical(input, input.operations[i])
      ensures Order(es[i].level) >= 3 <==> MakesCritical(input, input.operations[i]) || MakesHigh(input.operations[i])
      ensures Order(es[i].level) >= 2 <==>
                MakesCritical(input, input.operations[i]) || MakesHigh(input.operations[i]) || MakesMedium(input, input.operations[i])
    {
      EffectReaches(input, i);
    }
  }

  /** What destroys, and what takes an exclusive lock */
  lemma FlagsReached(input: Input)
    ensures VerdictOf(input).destructive <==>
            exists op :: op in input.operations &&
              (op.kind in {DropTable, Truncate, DropColumn} ||
               (op.kind in {Generic, OtherKind} && op.facts.manipulates && !op.facts.hasWhere))
    ensures VerdictOf(input).exclusiveLock <==>
            exists op :: op in input.operations &&
              (op.kind in {DropTable, Truncate, DropColumn, AlterType, DropConstraint, Rename} ||
               (op.kind == AddColumn && op.facts.notNull && !op.facts.hasDefault) ||
               (input.postgres && ((op.kind == AddConstraint && !op.facts.notValid) || (op.kind == AddIndex && !op.facts.concurrently))))
  {
    VerdictFields(input);
    var es := Effects(input);
    forall i | 0 <= i < |es| ensures es[i].destroys == Destroys(input.operations[i]) && es[i].locks == Locks(input, input.operations[i]) {
      assert es[i] == EffectOf(input, input.operations[i]);
    }
  }

  /** The metadata a drop is judged by: its own table's, or else the first table's */
  ghost predicate JudgedBy(input: Input, op: Operation, m: Metadata) {
    if op.table in input.tables then m == input.tables[op.table] else input.first == Some(m)
  }

  /** By this metadata the operation drops a table that has inbound foreign keys, or a column that one of them refers to. */
  ghost predicate BreaksKeys(op: Operation, m: Metadata) {
    || (op.kind == DropTable && m.inbound != [])
    || (op.kind == DropColumn && exists fk :: fk in m.inbound && (EqualFold(fk.toColumn, op.column) || op.column == ""))
  }

  ghost predicate OpBreaksKeys(input: Input, op: Operation) {
    exists m :: JudgedBy(input, op, m) && BreaksKeys(op, m)
  }

  /** A migration touches foreign keys exactly when some drop does, by the metadata it is judged by. */
  lemma TouchesReached(input: Input)
    ensures VerdictOf(input).touchesFKs <==> exists op :: op in input.operations && OpBreaksKeys(input, op)
  {
    VerdictFields(input);
    var es := Effects(input);
    forall i | 0 <= i < |es|
      ensures es[i].dropsColumn || es[i].dropsTable <==> OpBreaksKeys(input, input.operations[i])
    {
      assert es[i] == EffectOf(input, input.operations[i]);
      OpTouches(input, input.operations[i]);
    }
  }

  lemma OpTouches(input: Input, op: Operation)
    ensures DropsColumn(input, op) || DropsTable(input, op) <==> OpBreaksKeys(input, op)
  {
    var target := TargetMeta(input, op);
    if target.Some? {
      assert JudgedBy(input, op, target.value);
      RefersIff(target.value, op.column);
    }
    assert forall m :: JudgedBy(input, op, m) ==> target == Some(m);
  }

  lemma RefersIff(m: Metadata, column: string)
    ensures Refers(m, column) <==> exists fk :: fk in m.inbound && (EqualFold(fk.toColumn, column) || column == "")
  {
    if Refers(m, column) {
      var i :| 0 <= i < |m.inbound| && RefersTo(m.inbound[i], column);
      assert m.inbound[i] in m.inbound;
    }
    forall fk | fk in m.inbound && (EqualFold(fk.toColumn, column) || column == "") ensures Refers(m, column) {
      var i :| 0 <= i < |m.inbound| && m.inbound[i] == fk;
      assert RefersTo(m.inbound[i], column);
    }
  }

  /** No CREATE TABLE among the operations behind `i`, up to `n` */
  predicate NotRestored(ops: seq<Operation>, i: nat, n: nat)
    requires n <= |ops|
  {
    forall j :: i < j < n ==> ops[j].kind != CreateTable
  }

  predicate IsLost(ops: seq<Operation>, n: nat)
    requires n <= |ops|
  {
    exists i :: 0 <= i < n && ops[i].kind in {DropTable, Truncate, DropColumn} && NotRestored(ops, i, n)
  }

  /** A migration is irreversible exactly when it drops or truncates something and no CREATE TABLE comes behind that. */
  lemma ReversibleReached(input: Input)
    ensures !VerdictOf(input).reversible <==> IsLost(input.operations, |input.operations|)
  {
    LastReversibleIs(input, Effects(input), |input.operations|);
  }

  lemma LostNext(ops: seq<Operation>, n: nat)
    requires 0 < n <= |ops|
    ensures IsLost(ops, n) <==>
            ops[n - 1].kind in {DropTable, Truncate, DropColumn} || (ops[n - 1].kind != CreateTable && IsLost(ops, n - 1))
  {
    assert NotRestored(ops, n - 1, n);
    if IsLost(ops, n - 1) && ops[n - 1].kind != CreateTable {
      var i :| 0 <= i < n - 1 && ops[i].kind in {DropTable, Truncate, DropColumn} && NotRestored(ops, i, n - 1);
      assert NotRestored(ops, i, n);
    }
    if IsLost(ops, n) && ops[n - 1].kind !in {DropTable, Truncate, DropColumn} {
      var i :| 0 <= i < n && ops[i].kind in {DropTable, Truncate, DropColumn} && NotRestored(ops, i, n);
      assert NotRestored(ops, i, n - 1);
    }
  }

  lemma {:induction false} LastReversibleIs(input: Input, es: seq<Effect>, n: nat)
    requires es == Effects(input) && n <= |input.operations|
    ensures !LastReversible(es, n) <==> IsLost(input.operations, n)
  {
    if n > 0 {
      LastReversibleIs(input, es, n - 1);
      LostNext(input.operations, n);
      assert es[n - 1].reversible == OpReversible(input.operations[n - 1]);
    }
  }

  lemma HighestMonotone(a: seq<Effect>, b: seq<Effect>)
    requires forall e :: e in a ==> e in b
    ensures Order(Highest(a, |a|)) <= Order(Highest(b, |b|))
  {
    HighestAttained(a, |a|);
    HighestKnown(b, |b|);
    if Highest(a, |a|) != Low {
      var i :| 0 <= i < |a| && a[i].level == Highest(a, |a|);
      assert a[i] in b;
      var j :| 0 <= j < |b| && b[j] == a[i];
      HighestBounds(b, |b|, j);
    }
  }

  lemma SameOrder(a: Level, b: Level)
    requires Order(a) == Order(b)
    ensures a == b
  {}

  lemma FlagsMonotone(a: seq<Effect>, b: seq<Effect>)
    requires forall e :: e in a ==> e in b
    ensures VerdictOn(a).destructive ==> VerdictOn(b).destructive
    ensures VerdictOn(a).touchesFKs ==> VerdictOn(b).touchesFKs
    ensures VerdictOn(a).exclusiveLock ==> VerdictOn(b).exclusiveLock
  {
    forall i | 0 <= i < |a| ensures exists j :: 0 <= j < |b| && b[j] == a[i] {
      assert a[i] in b;
    }
  }

  predicate SameMetadata(a: Input, b: Input) {
    a.postgres == b.postgres && a.first == b.first && a.tables == b.tables
  }

  lemma EffectsCarry(a: Input, b: Input)
    requires SameMetadata(a, b) && forall op :: op in a.operations ==> op in b.operations
    ensures forall e :: e in Effects(a) ==> e in Effects(b)
  {
    forall i | 0 <= i < |a.operations| ensures Effects(a)[i] in Effects(b) {
      assert a.operations[i] in b.operations;
      var j :| 0 <= j < |b.operations| && b.operations[j] == a.operations[i];
      assert Effects(b)[j] == Effects(a)[i];
    }
  }

  /** On these fields a verdict does not tell a file without operations from one that only has comments. */
  lemma VerdictFields(input: Input)
    ensures var v, w := VerdictOf(input), VerdictOn(Effects(input));
            && v.level == w.level && v.destructive == w.destructive
            && v.touchesFKs == w.touchesFKs && v.exclusiveLock == w.exclusiveLock
  {}

  /** Level, destruction, foreign keys and lock do not depend on the order of the operations, nor on how often one occurs:
      the same operations give the same verdict on these fields. */
  lemma OrderIndependent(a: Input, b: Input)
    requires SameMetadata(a, b) && forall op :: op in a.operations <==> op in b.operations
    ensures var v, w := VerdictOf(a), VerdictOf(b);
            v.level == w.level && v.destructive == w.destructive && v.touchesFKs == w.touchesFKs &&
            v.exclusiveLock == w.exclusiveLock
  {
    var x, y := Effects(a), Effects(b);
    EffectsCarry(a, b);
    EffectsCarry(b, a);
    HighestMonotone(x, y);
    HighestMonotone(y, x);
    SameOrder(Highest(x, |x|), Highest(y, |y|));
    FlagsMonotone(x, y);
    FlagsMonotone(y, x);
    VerdictFields(a);
    VerdictFields(b);
  }

  /** `c` is `a` and then `b`. */
  predicate Appended(a: seq<Effect>, b: seq<Effect>, c: seq<Effect>) {
    && |c| == |a| + |b|
    && (forall i :: 0 <= i < |a| ==> c[i] == a[i])
    && (forall i :: 0 <= i < |b| ==> c[|a| + i] == b[i])
  }

  lemma {:induction false} HighestAppend(a: seq<Effect>, b: seq<Effect>, c: seq<Effect>, n: nat)
    requires Appended(a, b, c) && n <= |c|
    ensures n <= |a| ==> Highest(c, n) == Highest(a, n)
    ensures n >= |a| ==> Highest(c, n) == MaxLevel(Highest(a, |a|), Highest(b, n - |a|))
  {
    if n > 0 {
      HighestAppend(a, b, c, n - 1);
    }
    HighestKnown(a, |a|);
    if n > |a| { HighestKnown(b, n - 1 - |a|); }
  }

  lemma FlagsAppend(a: seq<Effect>, b: seq<Effect>, c: seq<Effect>)
    requires Appended(a, b, c)
    ensures VerdictOn(c).destructive == (VerdictOn(a).destructive || VerdictOn(b).destructive)
    ensures VerdictOn(c).exclusiveLock == (VerdictOn(a).exclusiveLock || VerdictOn(b).exclusiveLock)
    ensures VerdictOn(c).touchesFKs == (VerdictOn(a).touchesFKs || VerdictOn(b).touchesFKs)
  {
    assert forall i :: |a| <= i < |c| ==> c[i] == b[i - |a|];
  }

  lemma EffectCarries(a: Input, c: Input, op: Operation)
    requires SameMetadata(a, c)
    ensures EffectOf(a, op) == EffectOf(c, op)
  {}

  lemma EffectAt(a: Input, c: Input, i: nat, j: nat)
    requires SameMetadata(a, c) && i < |a.operations| && j < |c.operations| && a.operations[i] == c.operations[j]
    ensures Effects(c)[j] == Effects(a)[i]
  {
    EffectCarries(a, c, a.operations[i]);
    assert Effects(a)[i] == EffectOf(a, a.operations[i]) && Effects(c)[j] == EffectOf(c, c.operations[j]);
  }

  lemma EffectsAppend(a: Input, b: Input, c: Input)
    requires SameMetadata(a, c) && SameMetadata(b, c) && c.operations == a.operations + b.operations
    ensures Appended(Effects(a), Effects(b), Effects(c))
  {
    forall i | 0 <= i < |a.operations| ensures Effects(c)[i] == Effects(a)[i] {
      EffectAt(a, c, i, i);
    }
    forall i | 0 <= i < |b.operations| ensures Effects(c)[|a.operations| + i] == Effects(b)[i] {
      EffectAt(b, c, i, |a.operations| + i);
    }
  }

  lemma VerdictAppend(a: seq<Effect>, b: seq<Effect>, c: seq<Effect>)
    requires Appended(a, b, c)
    ensures var u, v, w := VerdictOn(a), VerdictOn(b), VerdictOn(c);
            && w.level == MaxLevel(u.level, v.level)
            && w.destructive == (u.destructive || v.destructive)
            && w.exclusiveLock == (u.exclusiveLock || v.exclusiveLock)
            && w.touchesFKs == (u.touchesFKs || v.touchesFKs)
  {
    HighestAppend(a, b, c, |c|);
    FlagsAppend(a, b, c);
  }

  /** Analysing two lists of operations together gives the higher level, and a flag where either list gives it. */
  lemma Concatenation(a: Input, b: Input, c: Input)
    requires SameMetadata(a, c) && SameMetadata(b, c) && c.operations == a.operations + b.operations
    ensures var u, v, w := VerdictOf(a), VerdictOf(b), VerdictOf(c);
            && w.level == MaxLevel(u.level, v.level)
            && w.destructive == (u.destructive || v.destructive)
            && w.exclusiveLock == (u.exclusiveLock || v.exclusiveLock)
            && w.touchesFKs == (u.touchesFKs || v.touchesFKs)
  {
    EffectsAppend(a, b, c);
    VerdictAppend(Effects(a), Effects(b), Effects(c));
    VerdictFields(a);
    VerdictFields(b);
    VerdictFields(c);
  }
}
