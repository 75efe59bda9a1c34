// Cascade revalidation: which reports of a committed chain break a continuity
// rule at error severity, and which rules they break.
module Cascade {
  import opened Prelude
  import opened Reports
  import opened Chains
  import opened Continuity

  type CascadeResult = map<string, seq<RuleId>>

  // ---- Meaning of a verdict ----

  function Prev(s: seq<Report>, i: nat): Option<Report>
    requires i < |s|
  {
    if i == 0 then None else Some(s[i - 1])
  }

  /** A report of this id, among the first `n`, breaks a neighbour rule at error severity. */
  ghost predicate NeighbourMark(s: seq<Report>, n: nat, cfg: Config, id: string, rule: RuleId)
    requires n <= |s|
  {
    match rule
    case TimeChain =>
      cfg.SeverityOf(TimeChain, Warning) == Error
      && exists i :: 0 <= i < n && s[i].reportId == id && TimeChainBreak(s[i], Prev(s, i), cfg)
    case ROBContinuity =>
      exists i :: 0 <= i < n && s[i].reportId == id && ROBError(s[i], Prev(s, i), cfg)
    case _ => false
  }

  /** The chain, in this order, breaks `rule` at a report of this id. */
  ghost predicate Marks(s: seq<Report>, cfg: Config, id: string, rule: RuleId) {
    match rule
    case EventOrdering =>
      cfg.SeverityOf(EventOrdering, Warning) == Error && id in OrderingTally(s, cfg.eventGroups)
    case TimestampUniqueness =>
      cfg.SeverityOf(TimestampUniqueness, Error) == Error && id in Collisions(s)
    case _ => NeighbourMark(s, |s|, cfg, id, rule)
  }

  const CONTINUITY_RULES: seq<RuleId> := [TimeChain, ROBContinuity, EventOrdering, TimestampUniqueness]

  /** The listed ones of the four rules, in the fixed order. */
  function RuleList(time: bool, rob: bool, ordering: bool, uniqueness: bool): seq<RuleId> {
    (if time then [TimeChain] else [])
    + (if rob then [ROBContinuity] else [])
    + (if ordering then [EventOrdering] else [])
    + (if uniqueness then [TimestampUniqueness] else [])
  }

  /** The broken rules of a report id, in the fixed rule order. */
  ghost function Verdict(s: seq<Report>, cfg: Config, id: string): seq<RuleId> {
    RuleList(Marks(s, cfg, id, TimeChain), Marks(s, cfg, id, ROBContinuity), Marks(s, cfg, id, EventOrdering),
             Marks(s, cfg, id, TimestampUniqueness))
  }

  ghost function IdSet(s: seq<Report>): set<string> {
    set i | 0 <= i < |s| :: s[i].reportId
  }

  ghost function Verdicts(s: seq<Report>, cfg: Config): CascadeResult {
    map id | id in IdSet(s) && Verdict(s, cfg, id) != [] :: Verdict(s, cfg, id)
  }

  function Rank(rule: RuleId): int {
    match rule
    case TimeChain => 0
    case ROBContinuity => 1
    case EventOrdering => 2
    case TimestampUniqueness => 3
    case _ => 4
  }

  ghost predicate InFixedOrder(rules: seq<RuleId>) {
    forall i, j :: 0 <= i < j < |rules| ==> Rank(rules[i]) < Rank(rules[j])
  }

  lemma RuleListMeaning(time: bool, rob: bool, ordering: bool, uniqueness: bool, rule: RuleId)
    ensures var rules := RuleList(time, rob, ordering, uniqueness);
            && (rule in rules <==> match rule
                                   case TimeChain => time
                                   case ROBContinuity => rob
                                   case EventOrdering => ordering
                                   case TimestampUniqueness => uniqueness
                                   case _ => false)
            && InFixedOrder(rules) && NoDuplicates(rules)
  {
  }

  /** A verdict lists exactly the broken rules, each once and in the fixed order. */
  lemma VerdictMeaning(s: seq<Report>, cfg: Config, id: string)
    ensures forall rule :: rule in Verdict(s, cfg, id) <==> Marks(s, cfg, id, rule)
    ensures InFixedOrder(Verdict(s, cfg, id)) && NoDuplicates(Verdict(s, cfg, id))
  {
    var t, r, o, u := Marks(s, cfg, id, TimeChain), Marks(s, cfg, id, ROBContinuity), Marks(s, cfg, id, EventOrdering),
      Marks(s, cfg, id, TimestampUniqueness);
    RuleListMeaning(t, r, o, u, TimeChain);
    forall rule ensures rule in RuleList(t, r, o, u) <==> Marks(s, cfg, id, rule) {
      RuleListMeaning(t, r, o, u, rule);
    }
  }

  lemma VerdictsLookup(s: seq<Report>, cfg: Config, id: string)
    ensures id in Verdicts(s, cfg) <==> Verdict(s, cfg, id) != []
    ensures id in Verdicts(s, cfg) ==> Verdicts(s, cfg)[id] == Verdict(s, cfg, id)
  {
    MarkedIdsAreInChain(s, cfg, id);
  }

  lemma MarkedIdsAreInChain(s: seq<Report>, cfg: Config, id: string)
    ensures Verdict(s, cfg, id) != [] ==> id in IdSet(s)
  {
    OrderingTallyMeaning(s, cfg.eventGroups, id);
    CollisionsMeaning(s, id);
  }

  /** Lists in the fixed order with the same rules are the same list. */
  lemma {:induction false} SameRulesSameList(a: seq<RuleId>, b: seq<RuleId>)
    requires InFixedOrder(a) && InFixedOrder(b)
    requires forall rule :: rule in a <==> rule in b
    requires forall rule :: rule in a ==> rule in CONTINUITY_RULES
    ensures a == b
    decreases |a|
  {
    if b != [] { assert b[0] in a; }
    if a != [] {
      assert a[0] in b;
      var i :| 0 <= i < |a| && a[i] == b[0];
      var j :| 0 <= j < |b| && b[j] == a[0];
      assert i == 0 && j == 0;
      forall rule ensures rule in a[1..] <==> rule in b[1..] {
        TailMembers(a, rule);
        TailMembers(b, rule);
      }
      SameRulesSameList(a[1..], b[1..]);
      assert a == [a[0]] + a[1..] && b == [b[0]] + b[1..];
    }
  }

  lemma TailMembers(a: seq<RuleId>, rule: RuleId)
    requires a != [] && InFixedOrder(a)
    ensures rule in a[1..] <==> rule in a && rule != a[0]
  {
    if rule in a && rule != a[0] {
      var i :| 0 <= i < |a| && a[i] == rule;
      assert a[1..][i - 1] == rule;
    }
    if rule in a[1..] {
      var i :| 0 <= i < |a[1..]| && a[1..][i] == rule;
      assert a[i + 1] == rule && Rank(a[0]) < Rank(a[i + 1]);
    }
  }

  // ---- Recording ----

  function RulesAt(result: CascadeResult, id: string): seq<RuleId> {
    if id in result then result[id] else []
  }

  /** Appends the rule to the report's list unless it is there already. */
  function Record(result: CascadeResult, id: string, rule: RuleId): CascadeResult {
    if rule in RulesAt(result, id) then result else result[id := RulesAt(result, id) + [rule]]
  }

  /** The result lists exactly these (id, rule) pairs, each once. */
  ghost predicate Recorded(result: CascadeResult, marks: set<(string, RuleId)>) {
    && (forall id :: id in result ==> result[id] != [])
    && (forall id, rule :: rule in RulesAt(result, id) <==> (id, rule) in marks)
    && (forall id :: NoDuplicates(RulesAt(result, id)))
  }

  ghost predicate AllInFixedOrder(result: CascadeResult) {
    forall id :: InFixedOrder(RulesAt(result, id))
  }

  lemma RecordAdds(result: CascadeResult, marks: set<(string, RuleId)>, id: string, rule: RuleId)
    requires Recorded(result, marks)
    ensures Recorded(Record(result, id, rule), marks + {(id, rule)})
    ensures AllInFixedOrder(result) && (forall r :: (id, r) in marks ==> Rank(r) < Rank(rule))
            ==> AllInFixedOrder(Record(result, id, rule))
  {
    var list, next := RulesAt(result, id), Record(result, id, rule);
    forall i | i != id ensures RulesAt(next, i) == RulesAt(result, i) {}
    if AllInFixedOrder(result) && forall r :: (id, r) in marks ==> Rank(r) < Rank(rule) {
      forall i | 0 <= i < |list| ensures Rank(list[i]) < Rank(rule) {
        assert list[i] in list;
      }
      forall i ensures InFixedOrder(RulesAt(next, i)) {
        assert InFixedOrder(RulesAt(result, i));
      }
    }
  }

  /** The reports with an error finding, each paired with the rule. */
  ghost function ErrorPairs(byReport: map<string, seq<Finding>>, ids: set<string>, rule: RuleId): set<(string, RuleId)>
  {
    set id | id in ids && id in byReport && HasErrors(byReport[id]) :: (id, rule)
  }

  lemma ErrorPairsOfOneMore(byReport: map<string, seq<Finding>>, ids: set<string>, id: string, rule: RuleId)
    requires id in byReport
    ensures ErrorPairs(byReport, ids + {id}, rule)
         == ErrorPairs(byReport, ids, rule) + if HasErrors(byReport[id]) then {(id, rule)} else {}
  {
  }

  ghost predicate RanksBelow(marks: set<(string, RuleId)>, rank: int) {
    forall pair :: pair in marks ==> Rank(pair.1) < rank
  }

  method RecordErrors(start: CascadeResult, byReport: map<string, seq<Finding>>, rule: RuleId,
                      ghost marks: set<(string, RuleId)>)
    returns (result: CascadeResult)
    requires Recorded(start, marks)
    ensures Recorded(result, marks + ErrorPairs(byReport, byReport.Keys, rule))
    ensures AllInFixedOrder(start) && RanksBelow(marks, Rank(rule)) ==> AllInFixedOrder(result)
  {
    result := start;
    var keys := byReport.Keys;
    var todo := keys;
    ghost var all := marks;
    assert keys - todo == {};
    while todo != {}
      invariant todo <= keys
      invariant all == marks + ErrorPairs(byReport, keys - todo, rule)
      invariant Recorded(result, all)
      invariant AllInFixedOrder(start) && RanksBelow(marks, Rank(rule)) ==> AllInFixedOrder(result)
      decreases todo
    {
      var id :| id in todo;  // map iteration: any order
      ErrorPairsOfOneMore(byReport, keys - todo, id, rule);
      assert keys - (todo - {id}) == keys - todo + {id};
      if HasErrors(byReport[id]) {
        UnpairedId(byReport, keys - todo, marks, id, rule);
        RecordAdds(result, all, id, rule);
        result := Record(result, id, rule);
        all := all + {(id, rule)};
      }
      todo := todo - {id};
    }
    assert keys - todo == keys;
  }

  lemma UnpairedId(byReport: map<string, seq<Finding>>, ids: set<string>, marks: set<(string, RuleId)>, id: string,
                   rule: RuleId)
    requires id !in ids
    ensures forall r :: (id, r) in marks + ErrorPairs(byReport, ids, rule) ==> (id, r) in marks
  {
  }

  lemma TallyErrors(tally: multiset<string>, finding: Finding, id: string)
    ensures id in FromTally(tally, finding) && HasErrors(FromTally(tally, finding)[id]) <==>
            id in tally && finding.severity == Error
  {
    if id in tally && finding.severity == Error {
      assert FromTally(tally, finding)[id][0] == finding;
    }
  }

  // ---- Revalidate ----

  /** The marks of the first `n` reports, as a set. */
  ghost predicate NeighbourMarks(marks: set<(string, RuleId)>, s: seq<Report>, n: nat, cfg: Config)
    requires n <= |s|
  {
    forall id, rule :: (id, rule) in marks <==> NeighbourMark(s, n, cfg, id, rule)
  }

  ghost function MarksOf(r: Report, prev: Option<Report>, cfg: Config): set<(string, RuleId)> {
    (if HasErrors(EvaluateTimeChain(r, prev, cfg)) then {(r.reportId, TimeChain)} else {})
    + (if ROBError(r, prev, cfg) then {(r.reportId, ROBContinuity)} else {})
  }

  lemma NeighbourStep(marks: set<(string, RuleId)>, s: seq<Report>, i: nat, cfg: Config)
    requires i < |s| && NeighbourMarks(marks, s, i, cfg)
    ensures NeighbourMarks(marks + MarksOf(s[i], Prev(s, i), cfg), s, i + 1, cfg)
  {
    var added := MarksOf(s[i], Prev(s, i), cfg);
    forall id, rule
      ensures (id, rule) in marks + added <==> NeighbourMark(s, i + 1, cfg, id, rule)
    {
      assert (id, rule) in marks <==> NeighbourMark(s, i, cfg, id, rule);
    }
  }

  method RevalidateReport(start: CascadeResult, r: Report, prev: Option<Report>, cfg: Config,
                          ghost marks: set<(string, RuleId)>)
    returns (result: CascadeResult)
    requires Recorded(start, marks)
    ensures Recorded(result, marks + MarksOf(r, prev, cfg))
    ensures AllInFixedOrder(start) && (forall rule :: (r.reportId, rule) !in marks) ==> AllInFixedOrder(result)
  {
    result := start;
    ghost var all := marks;
    if HasErrors(EvaluateTimeChain(r, prev, cfg)) {
      RecordAdds(result, all, r.reportId, TimeChain);
      result, all := Record(result, r.reportId, TimeChain), all + {(r.reportId, TimeChain)};
    }
    var rob := EvaluateROBContinuity(r, prev, cfg);
    ROBErrorMeaning(r, prev, cfg);
    if HasErrors(rob) {
      RecordAdds(result, all, r.reportId, ROBContinuity);
      result, all := Record(result, r.reportId, ROBContinuity), all + {(r.reportId, ROBContinuity)};
    }
    assert all == marks + MarksOf(r, prev, cfg);
  }

  method RevalidateNeighbours(sorted: seq<Report>, cfg: Config)
    returns (result: CascadeResult, ghost marks: set<(string, RuleId)>)
    ensures Recorded(result, marks)
    ensures NeighbourMarks(marks, sorted, |sorted|, cfg)
    ensures DistinctIds(sorted) ==> AllInFixedOrder(result)
  {
    result, marks := map[], {};
    var prev: Option<Report> := None;
    for i := 0 to |sorted|
      invariant prev == if i == 0 then None else Some(sorted[i - 1])
      invariant Recorded(result, marks)
      invariant NeighbourMarks(marks, sorted, i, cfg)
      invariant DistinctIds(sorted) ==> AllInFixedOrder(result)
    {
      if DistinctIds(sorted) { UnseenId(marks, sorted, i, cfg); }
      NeighbourStep(marks, sorted, i, cfg);
      result := RevalidateReport(result, sorted[i], prev, cfg, marks);
      marks := marks + MarksOf(sorted[i], prev, cfg);
      prev := Some(sorted[i]);
    }
  }

  lemma UnseenId(marks: set<(string, RuleId)>, s: seq<Report>, i: nat, cfg: Config)
    requires i < |s| && NeighbourMarks(marks, s, i, cfg) && DistinctIds(s)
    ensures forall rule :: (s[i].reportId, rule) !in marks
  {
    forall rule ensures (s[i].reportId, rule) !in marks {
      assert (s[i].reportId, rule) in marks <==> NeighbourMark(s, i, cfg, s[i].reportId, rule);
    }
  }

  /** The result holds the verdict of every report id on the chain in this order. */
  ghost predicate IsVerdictOf(result: CascadeResult, s: seq<Report>, cfg: Config) {
    && (forall id :: id in result ==> result[id] != [])
    && (forall id :: multiset(RulesAt(result, id)) == multiset(Verdict(s, cfg, id)))
    && (DistinctIds(s) ==> result == Verdicts(s, cfg))
  }

  ghost predicate MarksAre(marks: set<(string, RuleId)>, s: seq<Report>, cfg: Config) {
    forall id, rule :: (id, rule) in marks <==> Marks(s, cfg, id, rule)
  }

  lemma RecordedRules(result: CascadeResult, marks: set<(string, RuleId)>, s: seq<Report>, cfg: Config, id: string)
    requires Recorded(result, marks) && MarksAre(marks, s, cfg)
    ensures multiset(RulesAt(result, id)) == multiset(Verdict(s, cfg, id))
    ensures id in result <==> Verdict(s, cfg, id) != []
    ensures AllInFixedOrder(result) ==> RulesAt(result, id) == Verdict(s, cfg, id)
  {
    VerdictMeaning(s, cfg, id);
    var a, b := RulesAt(result, id), Verdict(s, cfg, id);
    forall rule ensures rule in a <==> rule in b {
      assert rule in a <==> (id, rule) in marks;
    }
    SameMembersOnce(a, b);
    if AllInFixedOrder(result) { SameRulesSameList(a, b); }
    if a != [] { assert a[0] in b; }
    if b != [] { assert b[0] in a; }
  }

  lemma RecordedIsVerdicts(result: CascadeResult, marks: set<(string, RuleId)>, s: seq<Report>, cfg: Config)
    requires Recorded(result, marks) && MarksAre(marks, s, cfg) && AllInFixedOrder(result)
    ensures result == Verdicts(s, cfg)
  {
    forall id ensures SameAt(result, Verdicts(s, cfg), id) {
      RecordedRules(result, marks, s, cfg, id);
      VerdictsLookup(s, cfg, id);
    }
    SameEverywhere(result, Verdicts(s, cfg));
  }

  ghost predicate SameAt(a: CascadeResult, b: CascadeResult, id: string) {
    (id in a <==> id in b) && (id in a ==> a[id] == b[id])
  }

  lemma SameEverywhere(a: CascadeResult, b: CascadeResult)
    requires forall id :: SameAt(a, b, id)
    ensures a == b
  {
    forall id ensures (id in a <==> id in b) && (id in a ==> a[id] == b[id]) {
      assert SameAt(a, b, id);
    }
  }

  lemma RecordedIsVerdict(result: CascadeResult, marks: set<(string, RuleId)>, s: seq<Report>, cfg: Config)
    requires Recorded(result, marks) && MarksAre(marks, s, cfg)
    requires DistinctIds(s) ==> AllInFixedOrder(result)
    ensures IsVerdictOf(result, s, cfg)
  {
    forall id ensures multiset(RulesAt(result, id)) == multiset(Verdict(s, cfg, id)) {
      RecordedRules(result, marks, s, cfg, id);
    }
    if DistinctIds(s) { RecordedIsVerdicts(result, marks, s, cfg); }
  }

  lemma TallyPairs(tally: multiset<string>, finding: Finding, id: string, rule: RuleId)
    ensures var out := FromTally(tally, finding);
            (id, rule) in ErrorPairs(out, out.Keys, rule) <==> id in tally && finding.severity == Error
  {
    TallyErrors(tally, finding, id);
  }

  lemma AllMarks(neighbour: set<(string, RuleId)>, ordering: set<(string, RuleId)>, uniqueness: set<(string, RuleId)>,
                 s: seq<Report>, cfg: Config)
    requires NeighbourMarks(neighbour, s, |s|, cfg)
    requires forall id, rule :: (id, rule) in ordering <==> rule == EventOrdering && Marks(s, cfg, id, EventOrdering)
    requires forall id, rule :: (id, rule) in uniqueness <==>
                                rule == TimestampUniqueness && Marks(s, cfg, id, TimestampUniqueness)
    ensures MarksAre(neighbour + ordering + uniqueness, s, cfg)
  {
    forall id, rule ensures (id, rule) in neighbour + ordering + uniqueness <==> Marks(s, cfg, id, rule) {
      assert (id, rule) in neighbour <==> NeighbourMark(s, |s|, cfg, id, rule);
      assert (id, rule) in ordering <==> rule == EventOrdering && Marks(s, cfg, id, EventOrdering);
      assert (id, rule) in uniqueness <==> rule == TimestampUniqueness && Marks(s, cfg, id, TimestampUniqueness);
    }
  }

  lemma OrderingPairs(s: seq<Report>, cfg: Config, pairs: set<(string, RuleId)>)
    requires var out := FromTally(OrderingTally(s, cfg.eventGroups), OrderingFinding(cfg));
             pairs == ErrorPairs(out, out.Keys, EventOrdering)
    ensures forall id, rule :: (id, rule) in pairs <==> rule == EventOrdering && Marks(s, cfg, id, EventOrdering)
  {
    forall id ensures (id, EventOrdering) in pairs <==> Marks(s, cfg, id, EventOrdering) {
      TallyPairs(OrderingTally(s, cfg.eventGroups), OrderingFinding(cfg), id, EventOrdering);
    }
  }

  lemma UniquenessPairs(s: seq<Report>, cfg: Config, pairs: set<(string, RuleId)>)
    requires var out := FromTally(Collisions(s), CollisionFinding(cfg));
             pairs == ErrorPairs(out, out.Keys, TimestampUniqueness)
    ensures forall id, rule :: (id, rule) in pairs <==>
        rule == TimestampUniqueness && Marks(s, cfg, id, TimestampUniqueness)
  {
    forall id ensures (id, TimestampUniqueness) in pairs <==> Marks(s, cfg, id, TimestampUniqueness) {
      TallyPairs(Collisions(s), CollisionFinding(cfg), id, TimestampUniqueness);
    }
  }

  lemma NeighbourRanks(marks: set<(string, RuleId)>, s: seq<Report>, cfg: Config)
    requires NeighbourMarks(marks, s, |s|, cfg)
    ensures RanksBelow(marks, Rank(EventOrdering))
  {
    forall pair | pair in marks ensures Rank(pair.1) < 2 {
      assert (pair.0, pair.1) in marks <==> NeighbourMark(s, |s|, cfg, pair.0, pair.1);
    }
  }

  lemma OrderingRanks(neighbour: set<(string, RuleId)>, ordered: set<(string, RuleId)>)
    requires RanksBelow(neighbour, Rank(EventOrdering))
    requires forall pair :: pair in ordered ==> pair.1 == EventOrdering
    ensures RanksBelow(neighbour + ordered, Rank(TimestampUniqueness))
  {
  }

  /** The result is the verdict of the chain in some admissible order. */
  ghost predicate Revalidated(chain: seq<Report>, cfg: Config, result: CascadeResult) {
    exists s :: SortOf(s, chain) && IsVerdictOf(result, s, cfg)
  }

  method Revalidate(chain: seq<Report>, config: Option<Config>) returns (result: CascadeResult)
    ensures Revalidated(chain, OrDefault(config), result)
  {
    var cfg := OrDefault(config);
    var order := SortSlice(chain);
    ghost var neighbour;
    result, neighbour := RevalidateNeighbours(order, cfg);
    NeighbourRanks(neighbour, order, cfg);
    var ordering := EvaluateEventOrdering(order, cfg);
    result := RecordErrors(result, ordering, EventOrdering, neighbour);
    ghost var ordered := ErrorPairs(ordering, ordering.Keys, EventOrdering);
    OrderingPairs(order, cfg, ordered);
    var uniqueness := EvaluateTimestampUniqueness(order, cfg);
    OrderingRanks(neighbour, ordered);
    result := RecordErrors(result, uniqueness, TimestampUniqueness, neighbour + ordered);
    ghost var unique := ErrorPairs(uniqueness, uniqueness.Keys, TimestampUniqueness);
    UniquenessPairs(order, cfg, unique);
    AllMarks(neighbour, ordered, unique, order, cfg);
    RecordedIsVerdict(result, neighbour + ordered + unique, order, cfg);
  }
}
