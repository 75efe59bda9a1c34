// Laws of revalidation: order independence and its exact limit, the reach of
// one changed report, and monotonicity in the configuration.
module CascadeLaws {
  import opened Prelude
  import opened Reports
  import opened Chains
  import opened Continuity
  import opened Cascade

  // ---- Verdicts by position ----

  ghost predicate FlaggedInSome(s: seq<Report>, i: nat, groups: seq<AlternatingGroup>)
    requires i < |s|
  {
    exists n :: 0 <= n < |groups| && Flagged(s, i, groups[n])
  }

  /** The report at position `i` breaks the rule at error severity. */
  ghost predicate MarkAt(s: seq<Report>, i: nat, cfg: Config, rule: RuleId)
    requires i < |s|
  {
    match rule
    case TimeChain => cfg.SeverityOf(TimeChain, Warning) == Error && TimeChainBreak(s[i], Prev(s, i), cfg)
    case ROBContinuity => ROBError(s[i], Prev(s, i), cfg)
    case EventOrdering => cfg.SeverityOf(EventOrdering, Warning) == Error && FlaggedInSome(s, i, cfg.eventGroups)
    case TimestampUniqueness => cfg.SeverityOf(TimestampUniqueness, Error) == Error && Collides(s, i)
    case _ => false
  }

  /** With distinct ids, an id is marked exactly when its one report is. */
  lemma MarksAreLocal(s: seq<Report>, i: nat, cfg: Config, rule: RuleId)
    requires i < |s| && DistinctIds(s)
    ensures Marks(s, cfg, s[i].reportId, rule) <==> MarkAt(s, i, cfg, rule)
  {
    var id := s[i].reportId;
    assert forall k :: 0 <= k < |s| && s[k].reportId == id ==> k == i;
    match rule {
      case EventOrdering =>
        OrderingTallyMeaning(s, cfg.eventGroups, id);
        assert forall n :: 0 <= n < |cfg.eventGroups| ==>
            (OrderingMark(s, cfg.eventGroups[n], id) <==> Flagged(s, i, cfg.eventGroups[n]));
      case TimestampUniqueness =>
        CollisionsMeaning(s, id);
      case _ =>
    }
  }

  lemma VerdictByPosition(s: seq<Report>, i: nat, t: seq<Report>, j: nat, cfg: Config)
    requires i < |s| && j < |t| && DistinctIds(s) && DistinctIds(t)
    requires s[i].reportId == t[j].reportId
    requires forall rule :: MarkAt(s, i, cfg, rule) <==> MarkAt(t, j, cfg, rule)
    ensures Verdict(s, cfg, s[i].reportId) == Verdict(t, cfg, s[i].reportId)
  {
    forall rule ensures Marks(s, cfg, s[i].reportId, rule) <==> Marks(t, cfg, s[i].reportId, rule) {
      MarksAreLocal(s, i, cfg, rule);
      MarksAreLocal(t, j, cfg, rule);
      assert MarkAt(s, i, cfg, rule) <==> MarkAt(t, j, cfg, rule);
    }
  }

  // ---- Order independence ----

  /** Permuting a chain with distinct event times changes no verdict. */
  lemma OrderIndependence(chain: seq<Report>, permuted: seq<Report>, s: seq<Report>, t: seq<Report>, cfg: Config)
    requires multiset(chain) == multiset(permuted)
    requires DistinctTimes(chain)
    requires SortOf(s, chain) && SortOf(t, permuted)
    ensures Verdicts(s, cfg) == Verdicts(t, cfg)
  {
    AllTimesDistinct(chain, s);
    SortUnique(s, t);
  }

  lemma AllTimesDistinct(a: seq<Report>, b: seq<Report>)
    requires multiset(a) == multiset(b) && DistinctTimes(a)
    ensures DistinctTimes(b)
  {
    forall i, j | 0 <= i < j < |b| ensures b[i].eventTime != b[j].eventTime {
      DistinctTimesPermute(a, b, b[i].eventTime);
    }
  }

  /** The same ids and event times, whatever else the reports say. */
  ghost predicate SameSkeleton(a: seq<Report>, b: seq<Report>) {
    |a| == |b| && forall i :: 0 <= i < |a| ==> a[i].reportId == b[i].reportId && a[i].eventTime == b[i].eventTime
  }

  /** Every admissible order of the chain gives the same verdicts, under every configuration. */
  ghost predicate OrderFree(chain: seq<Report>) {
    forall s, t, cfg :: SortOf(s, chain) && SortOf(t, chain) ==> Verdicts(s, cfg) == Verdicts(t, cfg)
  }

  /** Reports of a tied pair are of one staged event type, the others of none. */
  function Staged(chain: seq<Report>, i: nat, j: nat): (c: seq<Report>)
    ensures |c| == |chain|
    ensures forall k :: 0 <= k < |c| ==>
                          c[k] == chain[k].(eventType := if k == i || k == j then "X" else "", fields := map[])
  {
    seq(|chain|, k requires 0 <= k < |chain| =>
      chain[k].(eventType := if k == i || k == j then "X" else "", fields := map[]))
  }

  const ONE_STAGE := AlternatingGroup("g", ["X"], [])
  const ORDERING_ONLY := Config(0.0, 0.0, [], map[], [ONE_STAGE], map[EventOrdering := Error])

  /** Of two reports in one stage only the second is flagged. */
  lemma SecondIsMarked(s: seq<Report>, p: nat, q: nat)
    requires p < q < |s| && DistinctIds(s)
    requires forall k :: 0 <= k < |s| ==> s[k].eventType == if k == p || k == q then "X" else ""
    ensures Marks(s, ORDERING_ONLY, s[q].reportId, EventOrdering)
    ensures !Marks(s, ORDERING_ONLY, s[p].reportId, EventOrdering)
  {
    OnlyGroupFlags(s, p);
    OnlyGroupFlags(s, q);
    forall k | 0 <= k < |s| ensures StageAt(s, k, ONE_STAGE) == if k == p || k == q then 0 else -1 {}
    FlaggedIffNearestRepeats(s, p, ONE_STAGE);
    FlaggedIffNearestRepeats(s, q, ONE_STAGE);
    assert NearestStagedBefore(s, q, p, ONE_STAGE);
  }

  lemma OnlyGroupFlags(s: seq<Report>, k: nat)
    requires k < |s| && DistinctIds(s)
    ensures Marks(s, ORDERING_ONLY, s[k].reportId, EventOrdering) <==> Flagged(s, k, ONE_STAGE)
  {
    MarksAreLocal(s, k, ORDERING_ONLY, EventOrdering);
    assert ORDERING_ONLY.eventGroups[0] == ONE_STAGE;
  }

  lemma SwapKeepsSort(s: seq<Report>, p: nat, q: nat)
    requires Sorted(s) && p < q < |s| && s[p].eventTime == s[q].eventTime
    ensures SortOf(s[p := s[q]][q := s[p]], s)
  {
    var t := s[p := s[q]][q := s[p]];
    assert forall k :: 0 <= k < |s| ==> t[k].eventTime == s[k].eventTime;
  }

  /** Swapping the tied pair moves the mark from one of them to the other. */
  lemma SwappingMovesTheMark(c: seq<Report>, s: seq<Report>, p: nat, q: nat)
    requires SortOf(s, c) && DistinctIds(s) && p < q < |s| && s[p].eventTime == s[q].eventTime
    requires forall k :: 0 <= k < |s| ==> s[k].eventType == if k == p || k == q then "X" else ""
    ensures !OrderFree(c)
  {
    var t := s[p := s[q]][q := s[p]];
    SwapKeepsSort(s, p, q);
    DistinctIdsPermute(s, t);
    SecondIsMarked(s, p, q);
    SecondIsMarked(t, p, q);
    assert t[p].reportId == s[q].reportId;
    VerdictsDiffer(s, t, ORDERING_ONLY, s[q].reportId, EventOrdering);
    assert SortOf(s, c) && SortOf(t, c);
  }

  lemma VerdictsDiffer(s: seq<Report>, t: seq<Report>, cfg: Config, id: string, rule: RuleId)
    requires Marks(s, cfg, id, rule) && !Marks(t, cfg, id, rule) && rule in CONTINUITY_RULES
    requires id in IdSet(s)
    ensures Verdicts(s, cfg) != Verdicts(t, cfg)
  {
    VerdictMeaning(s, cfg, id);
    VerdictMeaning(t, cfg, id);
    assert rule in Verdict(s, cfg, id) && rule !in Verdict(t, cfg, id);
    assert Verdicts(s, cfg)[id] == Verdict(s, cfg, id);
  }

  lemma PositionOf(s: seq<Report>, c: seq<Report>, i: nat) returns (a: nat)
    requires multiset(s) == multiset(c) && i < |c|
    ensures a < |s| && s[a] == c[i]
  {
    SameElements(s, c);
    assert c[i] in s;
    a :| 0 <= a < |s| && s[a] == c[i];
  }

  lemma TieBreaksOrderFreedom(chain: seq<Report>, i: nat, j: nat)
    requires DistinctIds(chain) && i < j < |chain| && chain[i].eventTime == chain[j].eventTime
    ensures exists c :: SameSkeleton(c, chain) && !OrderFree(c)
  {
    var c := Staged(chain, i, j);
    var s := ByTime(c);
    ByTimeSorts(c);
    DistinctIdsPermute(c, s);
    var a := PositionOf(s, c, i);
    var b := PositionOf(s, c, j);
    forall k | 0 <= k < |s| ensures s[k].eventType == if k == a || k == b then "X" else "" {
      var m := PositionOf(c, s, k);
    }
    SwappingMovesTheMark(c, s, if a < b then a else b, if a < b then b else a);
    assert SameSkeleton(c, chain);
  }

  /** Revalidation is independent of how the sort breaks ties, for every
      content and configuration, exactly when no two event times are equal. */
  lemma OrderFreeIffDistinctTimes(chain: seq<Report>)
    requires DistinctIds(chain)
    ensures (forall c :: SameSkeleton(c, chain) ==> OrderFree(c)) <==> DistinctTimes(chain)
  {
    if DistinctTimes(chain) {
      forall c | SameSkeleton(c, chain) ensures OrderFree(c) {
        forall s, t, cfg | SortOf(s, c) && SortOf(t, c) ensures Verdicts(s, cfg) == Verdicts(t, cfg) {
          OrderIndependence(c, c, s, t, cfg);
        }
      }
    } else {
      var i, j :| 0 <= i < j < |chain| && chain[i].eventTime == chain[j].eventTime;
      TieBreaksOrderFreedom(chain, i, j);
    }
  }

  // ---- The reach of one change ----

  /** `i` is the first staged report after `k` in a group where the change moved `k` to another stage. */
  ghost predicate ReachedThrough(s: seq<Report>, k: nat, changed: Report, i: nat, g: AlternatingGroup)
    requires k < |s| && i < |s|
  {
    && StageOf(g, changed.eventType) != StageAt(s, k, g)
    && k < i && StageAt(s, i, g) != -1
    && forall m :: k < m < i ==> StageAt(s, m, g) == -1
  }

  lemma {:induction false} LastStageBeyondChange(s: seq<Report>, k: nat, changed: Report, i: nat, g: AlternatingGroup)
    requires k < |s| && i <= |s|
    requires i <= k || StageOf(g, changed.eventType) == StageAt(s, k, g)
             || exists m :: k < m < i && StageAt(s, m, g) != -1
    ensures LastStage(s[k := changed][..i], g) == LastStage(s[..i], g)
    decreases i
  {
    var t := s[k := changed];
    if i <= k {
      assert t[..i] == s[..i];
    } else if StageAt(s, i - 1, g) == -1 || StageAt(t, i - 1, g) == -1 {
      assert t[..i][..i - 1] == t[..i - 1] && s[..i][..i - 1] == s[..i - 1];
      LastStageBeyondChange(s, k, changed, i - 1, g);
    }
  }

  /** Changing one report's content, but not its id or event time, changes the
      verdict of no report other than itself, its successor, and for each group
      whose stage it changed, the next staged report. */
  lemma BlastRadius(s: seq<Report>, k: nat, changed: Report, i: nat, cfg: Config)
    requires k < |s| && i < |s| && DistinctIds(s)
    requires changed.reportId == s[k].reportId && changed.eventTime == s[k].eventTime
    requires i != k && i != k + 1
    requires forall g :: g in cfg.eventGroups ==> !ReachedThrough(s, k, changed, i, g)
    ensures Verdict(s[k := changed], cfg, s[i].reportId) == Verdict(s, cfg, s[i].reportId)
  {
    var t := s[k := changed];
    assert forall m :: 0 <= m < |s| ==> t[m].eventTime == s[m].eventTime && t[m].reportId == s[m].reportId;
    assert t[i] == s[i] && Prev(t, i) == Prev(s, i);
    forall n | 0 <= n < |cfg.eventGroups|
      ensures Flagged(t, i, cfg.eventGroups[n]) <==> Flagged(s, i, cfg.eventGroups[n])
    {
      var g := cfg.eventGroups[n];
      assert !ReachedThrough(s, k, changed, i, g);
      if StageAt(s, i, g) != -1 { LastStageBeyondChange(s, k, changed, i, g); }
    }
    assert FlaggedInSome(t, i, cfg.eventGroups) <==> FlaggedInSome(s, i, cfg.eventGroups);
    SameTimesCollide(s, t, i);
    VerdictByPosition(s, i, t, i, cfg);
  }

  lemma SameTimesCollide(s: seq<Report>, t: seq<Report>, i: nat)
    requires |s| == |t| && i < |s|
    requires forall m :: 0 <= m < |s| ==> t[m].eventTime == s[m].eventTime
    ensures Collides(s, i) <==> Collides(t, i)
  {
    if Collides(s, i) {
      var j :| 0 <= j < |s| && j != i && MinuteKey(s[j].eventTime) == MinuteKey(s[i].eventTime);
      assert MinuteKey(t[j].eventTime) == MinuteKey(t[i].eventTime);
    }
  }

  // ---- Monotonicity ----

  ghost predicate ErrorsKept(loose: Config, strict: Config, rule: RuleId, default: Severity) {
    loose.SeverityOf(rule, default) == Error ==> strict.SeverityOf(rule, default) == Error
  }

  /** No larger tolerances and no error rule relaxed; the same series, groups and bunkering. */
  ghost predicate AtLeastAsStrict(strict: Config, loose: Config) {
    && strict.robSeries == loose.robSeries
    && strict.bunkeredAmounts == loose.bunkeredAmounts
    && strict.eventGroups == loose.eventGroups
    && strict.timeChainToleranceHours <= loose.timeChainToleranceHours
    && strict.robToleranceMt <= loose.robToleranceMt
    && ErrorsKept(loose, strict, TimeChain, Warning)
    && ErrorsKept(loose, strict, ROBContinuity, Warning)
    && ErrorsKept(loose, strict, EventOrdering, Warning)
    && ErrorsKept(loose, strict, TimestampUniqueness, Error)
  }

  /** A stricter configuration keeps every broken rule of every report. */
  lemma StricterOnlyAdds(s: seq<Report>, loose: Config, strict: Config, id: string)
    requires AtLeastAsStrict(strict, loose)
    ensures forall rule :: rule in Verdict(s, loose, id) ==> rule in Verdict(s, strict, id)
    ensures Verdicts(s, loose).Keys <= Verdicts(s, strict).Keys
  {
    forall i, rule ensures Marks(s, loose, i, rule) ==> Marks(s, strict, i, rule) {
      forall k | 0 <= k < |s| && ROBError(s[k], Prev(s, k), loose) ensures ROBError(s[k], Prev(s, k), strict) {
        var n :| 0 <= n < |loose.robSeries| && ROBBreak(s[k], Prev(s, k).value, loose.robSeries[n], loose);
        assert ROBBreak(s[k], Prev(s, k).value, strict.robSeries[n], strict);
      }
    }
    VerdictMeaning(s, loose, id);
    VerdictMeaning(s, strict, id);
    forall i | i in Verdicts(s, loose) ensures i in Verdicts(s, strict) {
      VerdictMeaning(s, loose, i);
      VerdictMeaning(s, strict, i);
      assert Verdict(s, loose, i)[0] in Verdict(s, strict, i);
    }
  }
}
