// The pre-submit twin of revalidation: one report against the committed chain
// it would join, and exactly when the two agree.
module Precheck {
  import opened Prelude
  import opened Reports
  import opened Chains
  import opened Continuity
  import opened Cascade
  import opened CascadeLaws

  /** The chain without the report's own earlier version. */
  function Others(chain: seq<Report>, id: string): seq<Report> {
    if chain == [] then []
    else
      Others(chain[..|chain| - 1], id)
      + if chain[|chain| - 1].reportId == id then [] else [chain[|chain| - 1]]
  }

  function Merged(r: Report, chain: seq<Report>): seq<Report> {
    Others(chain, r.reportId) + [r]
  }

  /** The position of the first report of this id. */
  function FirstOf(s: seq<Report>, id: string): (i: nat)
    ensures i <= |s|
    ensures forall k :: 0 <= k < i ==> s[k].reportId != id
    ensures i < |s| ==> s[i].reportId == id
  {
    if s == [] || s[0].reportId == id then 0 else 1 + FirstOf(s[1..], id)
  }

  function NeighbourFindings(r: Report, merged: seq<Report>, cfg: Config): seq<Finding> {
    var i := FirstOf(merged, r.reportId);
    if i == |merged| then []
    else EvaluateTimeChain(r, Prev(merged, i), cfg) + ROBFindings(r, Prev(merged, i), cfg, cfg.robSeries)
  }

  function ChainFindings(id: string, merged: seq<Report>, cfg: Config): seq<Finding> {
    FindingsOf(FromTally(OrderingTally(merged, cfg.eventGroups), OrderingFinding(cfg)), id)
    + FindingsOf(FromTally(Collisions(merged), CollisionFinding(cfg)), id)
  }

  function PrecheckFindings(r: Report, chain: seq<Report>, cfg: Config): seq<Finding> {
    var merged := ByTime(Merged(r, chain));
    NeighbourFindings(r, merged, cfg) + ChainFindings(r.reportId, merged, cfg)
  }

  /** Walks the chain to the report and checks it against its predecessor. */
  method CheckAgainstPredecessor(r: Report, sorted: seq<Report>, cfg: Config) returns (findings: seq<Finding>)
    ensures findings == NeighbourFindings(r, sorted, cfg)
  {
    findings := [];
    var prev: Option<Report> := None;
    for i := 0 to |sorted|
      invariant i <= FirstOf(sorted, r.reportId)
      invariant i < |sorted| ==> prev == Prev(sorted, i)
      invariant findings == []
    {
      if sorted[i].reportId == r.reportId {
        var rob := EvaluateROBContinuity(r, prev, cfg);
        findings := EvaluateTimeChain(r, prev, cfg) + rob;
        return;
      }
      prev := Some(sorted[i]);
    }
  }

  method EvaluateContinuity(r: Report, chain: seq<Report>, config: Option<Config>) returns (findings: seq<Finding>)
    ensures findings == PrecheckFindings(r, chain, OrDefault(config))
  {
    var cfg := OrDefault(config);
    var merged := [];
    for i := 0 to |chain|
      invariant merged == Others(chain[..i], r.reportId)
    {
      assert chain[..i + 1][..i] == chain[..i];
      if chain[i].reportId == r.reportId { continue; }
      merged := merged + [chain[i]];
    }
    assert chain[..|chain|] == chain;
    merged := merged + [r];
    var sorted := ByTime(merged);  // stable sort
    findings := CheckAgainstPredecessor(r, sorted, cfg);
    var ordering := EvaluateEventOrdering(sorted, cfg);
    var uniqueness := EvaluateTimestampUniqueness(sorted, cfg);
    findings := findings + (FindingsOf(ordering, r.reportId) + FindingsOf(uniqueness, r.reportId));
  }

  // ---- The chain after landing ----

  /** The chain with the report's old version replaced, or the report added. */
  function Landed(chain: seq<Report>, r: Report): seq<Report> {
    if chain == [] then [r]
    else if chain[|chain| - 1].reportId == r.reportId then chain[..|chain| - 1] + [r]
    else Landed(chain[..|chain| - 1], r) + [chain[|chain| - 1]]
  }

  lemma {:induction false} NoneToRemove(chain: seq<Report>, id: string)
    requires forall i :: 0 <= i < |chain| ==> chain[i].reportId != id
    ensures Others(chain, id) == chain
  {
    if chain != [] { NoneToRemove(chain[..|chain| - 1], id); }
  }

  lemma {:induction false} LandedIsMerged(chain: seq<Report>, r: Report)
    requires DistinctIds(chain)
    ensures multiset(Landed(chain, r)) == multiset(Merged(r, chain))
  {
    if chain != [] {
      var init, last := chain[..|chain| - 1], chain[|chain| - 1];
      if last.reportId == r.reportId {
        NoneToRemove(init, r.reportId);
        assert Others(chain, r.reportId) == init;
      } else {
        LandedIsMerged(init, r);
        assert multiset(Merged(r, chain)) == multiset(Merged(r, init)) + multiset{last};
      }
    }
  }

  lemma {:induction false} OthersElements(chain: seq<Report>, id: string)
    ensures forall o :: o in Others(chain, id) <==> o in chain && o.reportId != id
    ensures DistinctIds(chain) ==> DistinctIds(Others(chain, id))
  {
    if chain != [] {
      var init := chain[..|chain| - 1];
      OthersElements(init, id);
      assert chain == init + [chain[|chain| - 1]];
      if DistinctIds(chain) {
        assert forall o :: o in init ==> o.reportId != chain[|chain| - 1].reportId;
        assert forall i :: 0 <= i < |Others(init, id)| ==> Others(init, id)[i] in Others(init, id);
      }
    }
  }

  lemma MergedDistinct(r: Report, chain: seq<Report>)
    requires DistinctIds(chain)
    ensures DistinctIds(Merged(r, chain))
  {
    OthersElements(chain, r.reportId);
    var o := Others(chain, r.reportId);
    assert forall i :: 0 <= i < |o| ==> o[i] in o;
  }

  // ---- What the pre-check reports ----

  /** The pre-check reports as errors exactly the rules in this list. */
  ghost predicate ErrorsAre(findings: seq<Finding>, rules: seq<RuleId>) {
    forall rule :: ErrorOf(findings, rule) <==> rule in rules
  }

  lemma ErrorOfConcat(a: seq<Finding>, b: seq<Finding>, rule: RuleId)
    ensures ErrorOf(a + b, rule) <==> ErrorOf(a, rule) || ErrorOf(b, rule)
  {
  }

  lemma ErrorOfUniform(findings: seq<Finding>, of: RuleId, severity: Severity, rule: RuleId)
    requires forall i :: 0 <= i < |findings| ==> findings[i].rule == of && findings[i].severity == severity
    ensures ErrorOf(findings, rule) <==> findings != [] && severity == Error && rule == of
  {
    if findings != [] { assert findings[0] in findings; }
  }

  /** The pre-check's errors are the verdict of the report in the stable order. */
  lemma PrecheckIsStableVerdict(r: Report, chain: seq<Report>, cfg: Config)
    requires DistinctIds(chain)
    ensures ErrorsAre(PrecheckFindings(r, chain, cfg), Verdict(ByTime(Merged(r, chain)), cfg, r.reportId))
  {
    var merged := ByTime(Merged(r, chain));
    MergedDistinct(r, chain);
    DistinctIdsPermute(Merged(r, chain), merged);
    var k := FindReport(merged, r, chain);
    VerdictMeaning(merged, cfg, r.reportId);
    forall rule
      ensures ErrorOf(PrecheckFindings(r, chain, cfg), rule) <==> rule in Verdict(merged, cfg, r.reportId)
    {
      MarksAreLocal(merged, k, cfg, rule);
      NeighbourErrors(r, merged, k, cfg, rule);
      ChainErrors(r.reportId, merged, cfg, rule);
      ErrorOfConcat(NeighbourFindings(r, merged, cfg), ChainFindings(r.reportId, merged, cfg), rule);
    }
  }

  lemma FindReport(merged: seq<Report>, r: Report, chain: seq<Report>) returns (k: nat)
    requires multiset(merged) == multiset(Merged(r, chain)) && DistinctIds(merged)
    ensures k < |merged| && merged[k] == r && k == FirstOf(merged, r.reportId)
  {
    assert Merged(r, chain)[|Merged(r, chain)| - 1] == r;
    k := PositionOf(merged, Merged(r, chain), |Merged(r, chain)| - 1);
  }

  lemma NeighbourErrors(r: Report, merged: seq<Report>, k: nat, cfg: Config, rule: RuleId)
    requires k < |merged| && merged[k] == r && k == FirstOf(merged, r.reportId)
    ensures ErrorOf(NeighbourFindings(r, merged, cfg), rule) <==>
            (rule == TimeChain || rule == ROBContinuity) && MarkAt(merged, k, cfg, rule)
  {
    var prev := Prev(merged, k);
    var time, rob := EvaluateTimeChain(r, prev, cfg), ROBFindings(r, prev, cfg, cfg.robSeries);
    ErrorOfConcat(time, rob, rule);
    ErrorOfUniform(time, TimeChain, cfg.SeverityOf(TimeChain, Warning), rule);
    ErrorOfUniform(rob, ROBContinuity, cfg.SeverityOf(ROBContinuity, Warning), rule);
    ROBErrorMeaning(r, prev, cfg);
  }

  lemma ChainErrors(id: string, merged: seq<Report>, cfg: Config, rule: RuleId)
    ensures ErrorOf(ChainFindings(id, merged, cfg), rule) <==>
            (rule == EventOrdering || rule == TimestampUniqueness) && Marks(merged, cfg, id, rule)
  {
    var ordering := FindingsOf(FromTally(OrderingTally(merged, cfg.eventGroups), OrderingFinding(cfg)), id);
    var uniqueness := FindingsOf(FromTally(Collisions(merged), CollisionFinding(cfg)), id);
    ErrorOfConcat(ordering, uniqueness, rule);
    ErrorOfUniform(ordering, EventOrdering, cfg.SeverityOf(EventOrdering, Warning), rule);
    ErrorOfUniform(uniqueness, TimestampUniqueness, cfg.SeverityOf(TimestampUniqueness, Error), rule);
  }

  // ---- Agreement ----

  /** Sharing a minute key is a matter of elements, not of positions. */
  lemma CollidesByElement(s: seq<Report>, k: nat)
    requires k < |s| && DistinctIds(s)
    ensures Collides(s, k) <==>
            exists o :: o in s && o.reportId != s[k].reportId && MinuteKey(o.eventTime) == MinuteKey(s[k].eventTime)
  {
    if Collides(s, k) {
      var j :| 0 <= j < |s| && j != k && MinuteKey(s[j].eventTime) == MinuteKey(s[k].eventTime);
      assert s[j] in s;
    }
  }

  /** If times are distinct up to the report, its verdict is the same in every admissible order. */
  lemma SameVerdictUpToReport(a: seq<Report>, b: seq<Report>, k: nat, cfg: Config)
    requires Sorted(a) && Sorted(b) && multiset(a) == multiset(b) && DistinctIds(a)
    requires k < |a| && DistinctTimesUpTo(a, a[k].eventTime)
    ensures Verdict(a, cfg, a[k].reportId) == Verdict(b, cfg, a[k].reportId)
  {
    SamePrefix(a, b, a[k].eventTime);
    DistinctIdsPermute(a, b);
    assert a[..k] == b[..k];
    assert a[k] == b[k] && Prev(a, k) == Prev(b, k);
    assert forall g :: Flagged(a, k, g) <==> Flagged(b, k, g);
    CollidesByElement(a, k);
    CollidesByElement(b, k);
    SameElements(a, b);
    assert FlaggedInSome(a, k, cfg.eventGroups) <==> FlaggedInSome(b, k, cfg.eventGroups);
    VerdictByPosition(a, k, b, k, cfg);
  }

  /** Before and after: for distinct ids, and event times distinct up to the
      report's own, a rule is an error of the pre-check exactly when
      revalidation of the landed chain, in any admissible order, breaks it. */
  lemma PrecheckAgrees(r: Report, chain: seq<Report>, cfg: Config, s: seq<Report>)
    requires DistinctIds(chain) && DistinctTimesUpTo(Merged(r, chain), r.eventTime)
    requires SortOf(s, Landed(chain, r))
    ensures ErrorsAre(PrecheckFindings(r, chain, cfg), Verdict(s, cfg, r.reportId))
  {
    var merged := ByTime(Merged(r, chain));
    ByTimeSorts(Merged(r, chain));
    LandedIsMerged(chain, r);
    MergedDistinct(r, chain);
    DistinctIdsPermute(Merged(r, chain), merged);
    DistinctTimesPermute(Merged(r, chain), merged, r.eventTime);
    var k := FindReport(merged, r, chain);
    SameVerdictUpToReport(merged, s, k, cfg);
    PrecheckIsStableVerdict(r, chain, cfg);
  }

  /** A report passes the pre-check exactly when revalidation of the landed chain leaves it alone. */
  lemma CleanIffUnmarked(r: Report, chain: seq<Report>, cfg: Config, s: seq<Report>)
    requires DistinctIds(chain) && DistinctTimesUpTo(Merged(r, chain), r.eventTime)
    requires SortOf(s, Landed(chain, r))
    ensures !HasErrors(PrecheckFindings(r, chain, cfg)) <==> r.reportId !in Verdicts(s, cfg)
  {
    PrecheckAgrees(r, chain, cfg, s);
    NoErrorNoRule(PrecheckFindings(r, chain, cfg), Verdict(s, cfg, r.reportId));
    MarkedIdsAreInChain(s, cfg, r.reportId);
  }

  lemma NoErrorNoRule(findings: seq<Finding>, rules: seq<RuleId>)
    requires ErrorsAre(findings, rules)
    ensures HasErrors(findings) <==> rules != []
  {
    if HasErrors(findings) {
      var i :| 0 <= i < |findings| && findings[i].severity == Error;
      assert findings[i] in findings && ErrorOf(findings, findings[i].rule);
    }
    if rules != [] {
      assert ErrorOf(findings, rules[0]);
      var f :| f in findings && f.rule == rules[0] && f.severity == Error;
      var i :| 0 <= i < |findings| && findings[i] == f;
    }
  }
}
