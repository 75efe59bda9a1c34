// When revalidation marks a report, said from the neighbouring report, the
// event types before it and the minutes of the chain.
module VerdictFromChain {
  import opened Prelude
  import opened Reports
  import opened Continuity
  import opened ContinuityLaws
  import opened Cascade
  import opened CascadeLaws

  /** Configured as an error, or unconfigured and an error by default. */
  predicate IsError(cfg: Config, rule: RuleId) {
    if rule in cfg.severities then cfg.severities[rule] == Error else rule == TimestampUniqueness
  }

  /** The report breaks the rule where it stands: its interval or one of its
      levels does not fit the report just before it, an earlier report is in the
      same stage of a group with none of the group's events in between, or
      another report has its minute. */
  ghost predicate BreaksAt(s: seq<Report>, i: nat, cfg: Config, rule: RuleId)
    requires i < |s|
  {
    match rule
    case TimeChain => i > 0 && EvaluateTimeChain(s[i], Some(s[i - 1]), cfg) != []
    case ROBContinuity =>
      i > 0 && exists n :: 0 <= n < |cfg.robSeries| && ROBBreak(s[i], s[i - 1], cfg.robSeries[n], cfg)
    case EventOrdering =>
      exists n :: 0 <= n < |cfg.eventGroups| && RepeatsStage(s, i, cfg.eventGroups[n])
    case TimestampUniqueness =>
      exists j :: 0 <= j < |s| && j != i && MinuteKey(s[j].eventTime) == MinuteKey(s[i].eventTime)
    case _ => false
  }

  ghost predicate RepeatsStage(s: seq<Report>, i: nat, g: AlternatingGroup)
    requires i < |s|
  {
    exists j :: 0 <= j < i && SameStage(g, s[j].eventType, s[i].eventType)
                && forall k :: j < k < i ==> !Listed(g, s[k].eventType)
  }

  lemma MarkedIffBreaks(s: seq<Report>, i: nat, cfg: Config, rule: RuleId)
    requires i < |s|
    ensures MarkAt(s, i, cfg, rule) <==> IsError(cfg, rule) && BreaksAt(s, i, cfg, rule)
  {
    if rule == EventOrdering {
      forall n | 0 <= n < |cfg.eventGroups|
        ensures Flagged(s, i, cfg.eventGroups[n]) <==> RepeatsStage(s, i, cfg.eventGroups[n])
      {
        FlaggedFromLists(s, i, cfg.eventGroups[n]);
      }
    }
  }

  /** In a chain of distinct reports, the verdict of each lists exactly the
      rules it breaks where it stands, among those that are errors. */
  lemma ListedIffBreaks(s: seq<Report>, i: nat, cfg: Config, rule: RuleId)
    requires i < |s| && DistinctIds(s)
    ensures rule in Verdict(s, cfg, s[i].reportId) <==> IsError(cfg, rule) && BreaksAt(s, i, cfg, rule)
    ensures s[i].reportId in Verdicts(s, cfg) <==> exists r :: IsError(cfg, r) && BreaksAt(s, i, cfg, r)
  {
    var id := s[i].reportId;
    VerdictMeaning(s, cfg, id);
    forall r ensures r in Verdict(s, cfg, id) <==> IsError(cfg, r) && BreaksAt(s, i, cfg, r) {
      MarksAreLocal(s, i, cfg, r);
      MarkedIffBreaks(s, i, cfg, r);
    }
    VerdictsLookup(s, cfg, id);
    if Verdict(s, cfg, id) != [] { assert Verdict(s, cfg, id)[0] in Verdict(s, cfg, id); }
  }
}
