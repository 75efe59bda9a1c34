// Everything the check before submitting reports, warnings included: how many
// findings of each rule, and at which severity.
module PrecheckReport {
  import opened Prelude
  import opened Reports
  import opened Chains
  import opened Continuity
  import opened ContinuityLaws
  import opened Cascade
  import opened Precheck

  function CountOf(findings: seq<Finding>, rule: RuleId): nat {
    if findings == [] then 0
    else CountOf(findings[..|findings| - 1], rule) + if findings[|findings| - 1].rule == rule then 1 else 0
  }

  lemma {:induction false} CountJoin(a: seq<Finding>, b: seq<Finding>, rule: RuleId)
    ensures CountOf(a + b, rule) == CountOf(a, rule) + CountOf(b, rule)
    decreases |b|
  {
    if b == [] {
      assert a + b == a;
    } else {
      assert (a + b)[..|a + b| - 1] == a + b[..|b| - 1];
      CountJoin(a, b[..|b| - 1], rule);
    }
  }

  lemma {:induction false} CountUniform(findings: seq<Finding>, of: RuleId, rule: RuleId)
    requires forall i :: 0 <= i < |findings| ==> findings[i].rule == of
    ensures CountOf(findings, rule) == if rule == of then |findings| else 0
  {
    if findings != [] { CountUniform(findings[..|findings| - 1], of, rule); }
  }

  /** A rule's severity where the configuration sets none: uniqueness is an error, the others warn. */
  function Default(rule: RuleId): Severity {
    if rule == TimestampUniqueness then Error else Warning
  }

  /** Of the four rules, each at its configured severity. */
  predicate AtSeverity(findings: seq<Finding>, cfg: Config) {
    forall i :: 0 <= i < |findings| ==>
      && findings[i].rule in {TimeChain, ROBContinuity, EventOrdering, TimestampUniqueness}
      && findings[i].severity == if findings[i].rule in cfg.severities then cfg.severities[findings[i].rule]
                                 else Default(findings[i].rule)
  }

  lemma AtSeverityJoin(a: seq<Finding>, b: seq<Finding>, cfg: Config)
    requires AtSeverity(a, cfg) && AtSeverity(b, cfg)
    ensures AtSeverity(a + b, cfg)
  {
  }

  /** How many findings of this rule the report at `k` gets. */
  ghost function Expected(merged: seq<Report>, k: nat, cfg: Config, rule: RuleId): nat
    requires k < |merged|
  {
    match rule
    case TimeChain => if k > 0 && TimeChainBreak(merged[k], Some(merged[k - 1]), cfg) then 1 else 0
    case ROBContinuity => if k == 0 then 0 else BrokenSeries(merged[k], merged[k - 1], cfg, cfg.robSeries)
    case EventOrdering => FlaggingGroups(merged, k, cfg.eventGroups)
    case TimestampUniqueness => if Collides(merged, k) then 1 else 0
    case _ => 0
  }

  lemma NeighbourCount(r: Report, merged: seq<Report>, k: nat, cfg: Config, rule: RuleId)
    requires k < |merged| && merged[k] == r && k == FirstOf(merged, r.reportId)
    ensures AtSeverity(NeighbourFindings(r, merged, cfg), cfg)
    ensures CountOf(NeighbourFindings(r, merged, cfg), rule)
         == if rule == TimeChain || rule == ROBContinuity then Expected(merged, k, cfg, rule) else 0
  {
    var prev := Prev(merged, k);
    var time, rob := EvaluateTimeChain(r, prev, cfg), ROBFindings(r, prev, cfg, cfg.robSeries);
    CountJoin(time, rob, rule);
    CountUniform(time, TimeChain, rule);
    CountUniform(rob, ROBContinuity, rule);
    if k > 0 { ROBFindingCount(r, merged[k - 1], cfg, cfg.robSeries); }
    AtSeverityJoin(time, rob, cfg);
  }

  lemma TallyCount(tally: multiset<string>, finding: Finding, id: string, rule: RuleId)
    ensures var found := FindingsOf(FromTally(tally, finding), id);
            && (forall i :: 0 <= i < |found| ==> found[i] == finding)
            && CountOf(found, rule) == if rule == finding.rule then tally[id] else 0
  {
    CountUniform(FindingsOf(FromTally(tally, finding), id), finding.rule, rule);
  }

  lemma ChainCount(merged: seq<Report>, k: nat, cfg: Config, rule: RuleId)
    requires k < |merged| && DistinctIds(merged)
    ensures AtSeverity(ChainFindings(merged[k].reportId, merged, cfg), cfg)
    ensures CountOf(ChainFindings(merged[k].reportId, merged, cfg), rule)
         == if rule == EventOrdering || rule == TimestampUniqueness then Expected(merged, k, cfg, rule) else 0
  {
    var id := merged[k].reportId;
    OrderingCount(merged, k, cfg.eventGroups);
    CollisionCount(merged, k);
    TallyCount(OrderingTally(merged, cfg.eventGroups), OrderingFinding(cfg), id, rule);
    TallyCount(Collisions(merged), CollisionFinding(cfg), id, rule);
    var ordering := FindingsOf(FromTally(OrderingTally(merged, cfg.eventGroups), OrderingFinding(cfg)), id);
    var uniqueness := FindingsOf(FromTally(Collisions(merged), CollisionFinding(cfg)), id);
    CountJoin(ordering, uniqueness, rule);
    AtSeverityJoin(ordering, uniqueness, cfg);
  }

  lemma AllCount(r: Report, merged: seq<Report>, k: nat, cfg: Config, rule: RuleId)
    requires DistinctIds(merged) && k < |merged| && merged[k] == r && k == FirstOf(merged, r.reportId)
    ensures var found := NeighbourFindings(r, merged, cfg) + ChainFindings(r.reportId, merged, cfg);
            AtSeverity(found, cfg) && CountOf(found, rule) == Expected(merged, k, cfg, rule)
  {
    var near, far := NeighbourFindings(r, merged, cfg), ChainFindings(r.reportId, merged, cfg);
    NeighbourCount(r, merged, k, cfg, rule);
    ChainCount(merged, k, cfg, rule);
    CountJoin(near, far, rule);
    AtSeverityJoin(near, far, cfg);
  }

  /** The check reports, for the report at its place in the chain: one finding
      for a wrong interval, one for each broken series, one for each group that
      flags it and one for a shared minute; each at its rule's configured
      severity, and nothing else. */
  lemma PrecheckReports(r: Report, chain: seq<Report>, cfg: Config) returns (k: nat)
    requires DistinctIds(chain)
    ensures var merged, found := ByTime(Merged(r, chain)), PrecheckFindings(r, chain, cfg);
            && k < |merged| && merged[k] == r
            && AtSeverity(found, cfg)
            && forall rule :: CountOf(found, rule) == Expected(merged, k, cfg, rule)
  {
    var merged := ByTime(Merged(r, chain));
    ByTimeSorts(Merged(r, chain));
    MergedDistinct(r, chain);
    DistinctIdsPermute(Merged(r, chain), merged);
    k := FindReport(merged, r, chain);
    forall rule ensures CountOf(PrecheckFindings(r, chain, cfg), rule) == Expected(merged, k, cfg, rule) {
      AllCount(r, merged, k, cfg, rule);
    }
    AllCount(r, merged, k, cfg, TimeChain);
  }
}
