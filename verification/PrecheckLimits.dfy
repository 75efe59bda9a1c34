// How far the pre-check can be trusted: agreement with revalidation, for every
// content and configuration, ends exactly where event times tie at or before
// the report.
module PrecheckLimits {
  import opened Reports
  import opened Chains
  import opened Continuity
  import opened Cascade
  import opened CascadeLaws
  import opened Precheck

  /** Whatever the configuration and the order of tied reports, the pre-check
      reports what revalidation finds after landing. */
  ghost predicate AlwaysAgrees(r: Report, chain: seq<Report>) {
    forall cfg, s :: SortOf(s, Landed(chain, r)) ==>
                       ErrorsAre(PrecheckFindings(r, chain, cfg), Verdict(s, cfg, r.reportId))
  }

  ghost predicate SamePlace(a: Report, b: Report) {
    a.reportId == b.reportId && a.eventTime == b.eventTime
  }

  lemma {:induction false} OthersKeepSkeleton(a: seq<Report>, b: seq<Report>, id: string)
    requires SameSkeleton(a, b)
    ensures SameSkeleton(Others(a, id), Others(b, id))
  {
    if a != [] { OthersKeepSkeleton(a[..|a| - 1], b[..|b| - 1], id); }
  }

  /** A report stripped to its place and one event type. */
  function Only(r: Report, eventType: string): Report {
    r.(eventType := eventType, fields := map[])
  }

  /** First of the tied pair, second of the pair, the report: what each is labelled. */
  function LabelOf(id: string, first: string, second: string, own: string): string {
    if id == own || id == first then "X" else if id == second then "Y" else ""
  }

  function Labelled(chain: seq<Report>, first: string, second: string, own: string): (c: seq<Report>)
    ensures |c| == |chain|
    ensures forall k :: 0 <= k < |c| ==> c[k] == Only(chain[k], LabelOf(chain[k].reportId, first, second, own))
  {
    seq(|chain|, k requires 0 <= k < |chain| => Only(chain[k], LabelOf(chain[k].reportId, first, second, own)))
  }

  const TWO_STAGES := AlternatingGroup("g", ["X"], ["Y"])
  const ALTERNATION_ONLY := Config(0.0, 0.0, [], map[], [TWO_STAGES], map[EventOrdering := Error])

  /** Stages as the labels give them. */
  ghost predicate StagedAs(s: seq<Report>, first: string, second: string, own: string) {
    forall k :: 0 <= k < |s| ==> s[k].eventType == LabelOf(s[k].reportId, first, second, own)
  }

  lemma FlagAt(s: seq<Report>, k: nat)
    requires k < |s| && DistinctIds(s)
    ensures Marks(s, ALTERNATION_ONLY, s[k].reportId, EventOrdering) <==> Flagged(s, k, TWO_STAGES)
  {
    MarksAreLocal(s, k, ALTERNATION_ONLY, EventOrdering);
    assert ALTERNATION_ONLY.eventGroups[0] == TWO_STAGES;
  }

  lemma StageByLabel(s: seq<Report>, k: nat, first: string, second: string, own: string)
    requires StagedAs(s, first, second, own) && k < |s|
    ensures StageAt(s, k, TWO_STAGES)
         == if s[k].reportId == own || s[k].reportId == first then 0 else if s[k].reportId == second then 1 else -1
  {
  }

  /** The report tied with one other of its stage is flagged exactly when it comes second. */
  lemma FlaggedWhenSecond(s: seq<Report>, a: nat, k: nat)
    requires a < |s| && k < |s| && a != k && DistinctIds(s)
    requires StagedAs(s, s[a].reportId, s[k].reportId, s[k].reportId)
    ensures Marks(s, ALTERNATION_ONLY, s[k].reportId, EventOrdering) <==> a < k
  {
    FlagAt(s, k);
    forall m | 0 <= m < |s| ensures StageAt(s, m, TWO_STAGES) == if m == a || m == k then 0 else -1 {
      StageByLabel(s, m, s[a].reportId, s[k].reportId, s[k].reportId);
    }
    FlaggedIffNearestRepeats(s, k, TWO_STAGES);
    if a < k { assert NearestStagedBefore(s, k, a, TWO_STAGES); }
  }

  /** The report after a tied pair of opposite stages is flagged exactly when its own stage came last. */
  lemma FlaggedByLastOfPair(s: seq<Report>, p: nat, q: nat, k: nat)
    requires p < k < |s| && q < k && p != q && DistinctIds(s)
    requires StagedAs(s, s[p].reportId, s[q].reportId, s[k].reportId)
    ensures Marks(s, ALTERNATION_ONLY, s[k].reportId, EventOrdering) <==> q < p
  {
    FlagAt(s, k);
    forall m | 0 <= m < |s|
      ensures StageAt(s, m, TWO_STAGES) == if m == p || m == k then 0 else if m == q then 1 else -1
    {
      StageByLabel(s, m, s[p].reportId, s[q].reportId, s[k].reportId);
    }
    FlaggedIffNearestRepeats(s, k, TWO_STAGES);
    assert NearestStagedBefore(s, k, if p < q then q else p, TWO_STAGES);
  }

  lemma SwapBoth(s: seq<Report>, p: nat, q: nat) returns (t: seq<Report>)
    requires Sorted(s) && DistinctIds(s) && p < |s| && q < |s| && p != q && s[p].eventTime == s[q].eventTime
    ensures SortOf(t, s) && DistinctIds(t) && |t| == |s|
    ensures t[p] == s[q] && t[q] == s[p] && forall k :: 0 <= k < |s| && k != p && k != q ==> t[k] == s[k]
  {
    t := s[p := s[q]][q := s[p]];
    if p < q { SwapKeepsSort(s, p, q); } else { SwapKeepsSort(s, q, p); assert t == s[q := s[p]][p := s[q]]; }
    DistinctIdsPermute(s, t);
  }

  /** Two admissible orders that judge the report differently. */
  lemma OppositeOrders(m: seq<Report>, p: nat, q: nat, k: nat, second: string) returns (t: seq<Report>)
    requires Sorted(m) && DistinctIds(m)
    requires p < |m| && q < |m| && k < |m| && p != q && p != k && m[p].eventTime == m[q].eventTime <= m[k].eventTime
    requires q != k ==> m[q].eventTime < m[k].eventTime
    requires second == m[q].reportId
    requires StagedAs(m, m[p].reportId, second, m[k].reportId)
    ensures SortOf(t, m)
    ensures Marks(t, ALTERNATION_ONLY, m[k].reportId, EventOrdering)
         != Marks(m, ALTERNATION_ONLY, m[k].reportId, EventOrdering)
  {
    t := SwapBoth(m, p, q);
    assert StagedAs(t, m[p].reportId, second, m[k].reportId);
    if q == k {
      FlaggedWhenSecond(m, p, k);
      FlaggedWhenSecond(t, q, p);
    } else {
      FlaggedByLastOfPair(m, p, q, k);
      FlaggedByLastOfPair(t, q, p, k);
    }
  }

  /** With these labels and tied reports at `i` and `j`, some admissible order contradicts the pre-check. */
  lemma LabelledTieDisagrees(r: Report, c: seq<Report>, i: nat, j: nat)
    requires DistinctIds(c) && i < j < |Merged(r, c)|
    requires var m := Merged(r, c);
             && m[i].eventTime == m[j].eventTime && (m[j].eventTime < r.eventTime || j == |m| - 1)
             && StagedAs(m, m[i].reportId, m[j].reportId, r.reportId)
    ensures !AlwaysAgrees(r, c)
  {
    var merged := Merged(r, c);
    var m := ByTime(merged);
    ByTimeSorts(merged);
    MergedDistinct(r, c);
    DistinctIdsPermute(merged, m);
    StagedPermutes(merged, m, merged[i].reportId, merged[j].reportId, r.reportId);
    var p := PositionOf(m, merged, i);
    var q := PositionOf(m, merged, j);
    var k := PositionOf(m, merged, |merged| - 1);
    var t := OppositeOrders(m, p, q, k, merged[j].reportId);
    PrecheckIsStableVerdict(r, c, ALTERNATION_ONLY);
    LandedIsMerged(c, r);
    DisagreesOn(PrecheckFindings(r, c, ALTERNATION_ONLY), m, t, r.reportId);
    assert SortOf(t, Landed(c, r));
  }

  lemma TieBreaksAgreement(r: Report, chain: seq<Report>, i: nat, j: nat)
    requires DistinctIds(chain)
    requires i < j < |Merged(r, chain)|
    requires var m := Merged(r, chain);
             m[i].eventTime == m[j].eventTime && (m[j].eventTime < r.eventTime || j == |m| - 1)
    ensures exists r', c :: SamePlace(r', r) && SameSkeleton(c, chain) && !AlwaysAgrees(r', c)
  {
    var merged := Merged(r, chain);
    var first, second, own := merged[i].reportId, merged[j].reportId, r.reportId;
    var c := Labelled(chain, first, second, own);
    var r' := Only(r, LabelOf(own, first, second, own));
    OthersKeepSkeleton(c, chain, own);
    assert SameSkeleton(Merged(r', c), merged);
    MergedStaged(r', c, first, second, own);
    LabelledTieDisagrees(r', c, i, j);
    assert SamePlace(r', r) && SameSkeleton(c, chain);
  }

  lemma DisagreesOn(findings: seq<Finding>, m: seq<Report>, t: seq<Report>, id: string)
    requires ErrorsAre(findings, Verdict(m, ALTERNATION_ONLY, id))
    requires Marks(t, ALTERNATION_ONLY, id, EventOrdering) != Marks(m, ALTERNATION_ONLY, id, EventOrdering)
    ensures !ErrorsAre(findings, Verdict(t, ALTERNATION_ONLY, id))
  {
    VerdictMeaning(m, ALTERNATION_ONLY, id);
    VerdictMeaning(t, ALTERNATION_ONLY, id);
    assert ErrorOf(findings, EventOrdering) <==> EventOrdering in Verdict(m, ALTERNATION_ONLY, id);
  }

  lemma MergedStaged(r: Report, c: seq<Report>, first: string, second: string, own: string)
    requires StagedAs(c, first, second, own) && r.eventType == LabelOf(r.reportId, first, second, own)
    ensures StagedAs(Merged(r, c), first, second, own)
  {
    OthersElements(c, r.reportId);
    var o := Others(c, r.reportId);
    forall k | 0 <= k < |o| ensures o[k].eventType == LabelOf(o[k].reportId, first, second, own) {
      assert o[k] in c;
    }
  }

  lemma StagedPermutes(a: seq<Report>, b: seq<Report>, first: string, second: string, own: string)
    requires multiset(a) == multiset(b) && StagedAs(a, first, second, own)
    ensures StagedAs(b, first, second, own)
  {
    forall k | 0 <= k < |b| ensures b[k].eventType == LabelOf(b[k].reportId, first, second, own) {
      var i := PositionOf(a, b, k);
    }
  }

  lemma DistinctTimesAgree(r: Report, chain: seq<Report>, r': Report, c: seq<Report>)
    requires DistinctIds(chain) && DistinctTimesUpTo(Merged(r, chain), r.eventTime)
    requires SamePlace(r', r) && SameSkeleton(c, chain)
    ensures AlwaysAgrees(r', c)
  {
    OthersKeepSkeleton(c, chain, r.reportId);
    assert SameSkeleton(Merged(r', c), Merged(r, chain));
    forall cfg, s | SortOf(s, Landed(c, r'))
      ensures ErrorsAre(PrecheckFindings(r', c, cfg), Verdict(s, cfg, r'.reportId))
    {
      PrecheckAgrees(r', c, cfg, s);
    }
  }

  /** Pre-check and revalidation agree on the report, for every content of the
      reports, every configuration and every order of tied reports, exactly
      when no two event times up to the report's own are equal. */
  lemma AgreementIffDistinctTimes(r: Report, chain: seq<Report>)
    requires DistinctIds(chain)
    ensures (forall r', c :: SamePlace(r', r) && SameSkeleton(c, chain) ==> AlwaysAgrees(r', c))
            <==> DistinctTimesUpTo(Merged(r, chain), r.eventTime)
  {
    var merged := Merged(r, chain);
    if DistinctTimesUpTo(merged, r.eventTime) {
      forall r', c | SamePlace(r', r) && SameSkeleton(c, chain) ensures AlwaysAgrees(r', c) {
        DistinctTimesAgree(r, chain, r', c);
      }
    } else {
      var i, j :| 0 <= i < j < |merged| && merged[i].eventTime <= r.eventTime
          && merged[i].eventTime == merged[j].eventTime;
      if merged[j].eventTime < r.eventTime {
        TieBreaksAgreement(r, chain, i, j);
      } else {
        TieBreaksAgreement(r, chain, i, |merged| - 1);
      }
    }
  }
}
