/** internal/risk/policy.go, Evaluate, and analyzer.go, EvaluateReport: from single verdicts to one decision. */
module Report {
  import opened Risk

  datatype Action = Allow | Warn | Confirm | Block

  /** The parts of RiskPolicy that decide; `onRisk` holds the actions after parsing. */
  datatype Policy = Policy(onRisk: map<Level, Action>, confidenceThreshold: real)

  const DefaultPolicy := Policy(map[Low := Allow, Medium := Warn, High := Confirm, Critical := Block], 0.75)

  /** A migration's level and how sure the classifier is of it */
  datatype Assessed = Assessed(level: Level, confidence: real)

  datatype Decision = Decision(action: Action, level: Level, blocked: bool, requiresConfirmation: bool)

  function EffectiveLevel(p: Policy, r: Assessed): Level {
    if 0.0 < r.confidence < p.confidenceThreshold then Escalate(r.level) else r.level
  }

  function ActionFor(p: Policy, l: Level): Action {
    if l in p.onRisk then p.onRisk[l]
    else
      match l
      case Low => Allow
      case Medium => Warn
      case High => Confirm
      case Critical => Block
      case Unknown => Warn
  }

  function Evaluate(p: Policy, r: Assessed): Decision {
    var l := EffectiveLevel(p, r);
    var a := ActionFor(p, l);
    Decision(a, l, a == Block, a == Confirm)
  }

  datatype Summary = Summary(level: Level, action: Action, blocked: bool, requiresConfirm: bool)

  /** No migration is above the level of the summary. */
  ghost predicate IsUpperBound(p: Policy, risks: seq<Assessed>, l: Level) {
    forall r :: r in risks ==> Order(EffectiveLevel(p, r)) <= Order(l)
  }

  /** The summary of the report: the highest level with its action, LOW and allow when nothing is above LOW;
      one blocking migration blocks. */
  ghost predicate Summarises(p: Policy, risks: seq<Assessed>, s: Summary) {
    && IsUpperBound(p, risks, s.level)
    && (|| (s.level == Low && s.action == Allow)
        || (Order(s.level) > 1 && s.action == ActionFor(p, s.level) && exists r :: r in risks && EffectiveLevel(p, r) == s.level))
    && (s.blocked <==> exists r :: r in risks && Evaluate(p, r).blocked)
    && (s.requiresConfirm <==> exists r :: r in risks && Evaluate(p, r).requiresConfirmation)
  }

  /** One turn of the loop */
  method Include(p: Policy, ghost before: seq<Assessed>, r: Assessed, s: Summary) returns (s': Summary)
    requires Summarises(p, before, s)
    ensures Summarises(p, before + [r], s')
  {
    var decision := Evaluate(p, r);
    s' := s;
    if Order(decision.level) > Order(s.level) {
      s' := s'.(level := decision.level, action := decision.action);
    }
    if decision.blocked {
      s' := s'.(blocked := true);
    }
    if decision.requiresConfirmation {
      s' := s'.(requiresConfirm := true);
    }
    assert forall x :: x in before + [r] <==> x in before || x == r;
  }

  method EvaluateReport(p: Policy, risks: seq<Assessed>) returns (s: Summary)
    ensures Summarises(p, risks, s)
  {
    s := Summary(Low, Allow, false, false);
    for i := 0 to |risks|
      invariant Summarises(p, risks[..i], s)
    {
      s := Include(p, risks[..i], risks[i], s);
      assert risks[..i] + [risks[i]] == risks[..i + 1];
    }
    assert risks[..|risks|] == risks;
  }

  /** There is only one summary: the order of the migrations does not matter. */
  lemma SummaryUnique(p: Policy, a: seq<Assessed>, b: seq<Assessed>, s: Summary, t: Summary)
    requires Summarises(p, a, s) && Summarises(p, b, t)
    requires forall r :: r in a <==> r in b
    ensures s == t
  {
    SameOrder(s.level, t.level);
  }

  /** Under the default policy a report is blocked exactly when its level is CRITICAL, and exactly when its action is to block. */
  lemma DefaultBlocks(risks: seq<Assessed>, s: Summary)
    requires Summarises(DefaultPolicy, risks, s)
    ensures s.blocked <==> s.level.Critical?
    ensures s.blocked <==> s.action.Block?
    ensures s.blocked <==> exists r :: r in risks && EffectiveLevel(DefaultPolicy, r).Critical?
  {
    forall r | r in risks
      ensures Evaluate(DefaultPolicy, r).blocked <==> EffectiveLevel(DefaultPolicy, r).Critical?
    {}
  }

  /** What the default policy does with one migration: a level the classifier is less than 75% sure of counts as the next one. */
  lemma DefaultActions(r: Assessed)
    ensures var d, unsure := Evaluate(DefaultPolicy, r), 0.0 < r.confidence < 0.75;
            && (d.action == Block <==> r.level == Critical || (unsure && r.level in {High, Unknown}))
            && (d.action == Confirm <==> if unsure then r.level == Medium else r.level == High)
            && (d.action == Warn <==> if unsure then r.level == Low else r.level in {Medium, Unknown})
            && d.blocked == (d.action == Block) && d.requiresConfirmation == (d.action == Confirm)
  {}

  /** One CRITICAL migration blocks the report, whatever else is in it and however unsure the classifier is. */
  lemma CriticalBlocks(confidence: real, risks: seq<Assessed>, s: Summary)
    requires Assessed(Critical, confidence) in risks && Summarises(DefaultPolicy, risks, s)
    ensures s.blocked && s.level.Critical? && s.action.Block?
  {
    var r := Assessed(Critical, confidence);
    assert r in risks && EffectiveLevel(DefaultPolicy, r).Critical?;
    DefaultBlocks(risks, s);
  }
}
