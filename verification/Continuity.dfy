// The four continuity rules: two compare a report with its predecessor, two
// look at a whole chain.
module Continuity {
  import opened Prelude
  import opened Reports

  // ---- Time chain ----

  const TIME_SINCE_PREVIOUS := "Time_Since_Previous_Report"

  /** The reported interval is further than the tolerance from the real one. */
  ghost predicate TimeChainBreak(r: Report, prev: Option<Report>, cfg: Config) {
    && prev.Some?
    && r.Float(TIME_SINCE_PREVIOUS).Some?
    && Abs(r.Float(TIME_SINCE_PREVIOUS).value - HoursBetween(prev.value.eventTime, r.eventTime))
       > cfg.timeChainToleranceHours
  }

  function EvaluateTimeChain(r: Report, prev: Option<Report>, cfg: Config): (findings: seq<Finding>)
    ensures TimeChainBreak(r, prev, cfg) ==>
              findings == [Finding(TimeChain, cfg.SeverityOf(TimeChain, Warning), TIME_SINCE_PREVIOUS)]
    ensures !TimeChainBreak(r, prev, cfg) ==> findings == []
    ensures HasErrors(findings) <==>
            TimeChainBreak(r, prev, cfg) && cfg.SeverityOf(TimeChain, Warning) == Error
  {
    if prev.None? then []
    else
      var tsp := r.Float(TIME_SINCE_PREVIOUS);
      if tsp.None? then []
      else
        var actual := HoursBetween(prev.value.eventTime, r.eventTime);
        if Abs(tsp.value - actual) > cfg.timeChainToleranceHours then
          var finding := Finding(TimeChain, cfg.SeverityOf(TimeChain, Warning), TIME_SINCE_PREVIOUS);
          assert [finding][0] == finding;
          [finding]
        else []
  }

  // ---- ROB continuity ----

  function Consumption(r: Report, fields: seq<string>): real {
    if fields == [] then 0.0
    else Consumption(r, fields[..|fields| - 1]) + r.FloatOrZero(fields[|fields| - 1])
  }

  /** What should remain on board after `r`, continuing from `prior`. */
  function ExpectedROB(r: Report, prior: real, s: ROBSeries, cfg: Config): real {
    prior - Consumption(r, s.consumptionFields) + cfg.Bunkered(s.name)
  }

  predicate ROBBreak(r: Report, p: Report, s: ROBSeries, cfg: Config) {
    && r.Float(s.robField).Some?
    && p.Float(s.robField).Some?
    && Abs(r.Float(s.robField).value - ExpectedROB(r, p.Float(s.robField).value, s, cfg)) > cfg.robToleranceMt
  }

  /** One finding for each broken series, in configuration order. */
  function ROBFindings(r: Report, prev: Option<Report>, cfg: Config, series: seq<ROBSeries>): (findings: seq<Finding>)
    ensures findings == [] <==> prev.None? || forall i :: 0 <= i < |series| ==> !ROBBreak(r, prev.value, series[i], cfg)
    ensures forall i :: 0 <= i < |findings| ==>
                          findings[i].rule == ROBContinuity
                          && findings[i].severity == cfg.SeverityOf(ROBContinuity, Warning)
  {
    if prev.None? || series == [] then []
    else
      var init, s := series[..|series| - 1], series[|series| - 1];
      assert forall i :: 0 <= i < |init| ==> init[i] == series[i];
      ROBFindings(r, prev, cfg, init)
      + if ROBBreak(r, prev.value, s, cfg)
        then [Finding(ROBContinuity, cfg.SeverityOf(ROBContinuity, Warning), s.robField)]
        else []
  }

  method EvaluateROBContinuity(r: Report, prev: Option<Report>, cfg: Config) returns (findings: seq<Finding>)
    ensures findings == ROBFindings(r, prev, cfg, cfg.robSeries)
  {
    findings := [];
    if prev.None? { return; }
    for n := 0 to |cfg.robSeries|
      invariant findings == ROBFindings(r, prev, cfg, cfg.robSeries[..n])
    {
      var s := cfg.robSeries[n];
      assert cfg.robSeries[..n + 1][..n] == cfg.robSeries[..n];
      var cur, prior := r.Float(s.robField), prev.value.Float(s.robField);
      if cur.None? || prior.None? { continue; }
      var consumption := 0.0;
      for k := 0 to |s.consumptionFields|
        invariant consumption == Consumption(r, s.consumptionFields[..k])
      {
        assert s.consumptionFields[..k + 1][..k] == s.consumptionFields[..k];
        consumption := consumption + r.FloatOrZero(s.consumptionFields[k]);
      }
      assert s.consumptionFields[..|s.consumptionFields|] == s.consumptionFields;
      var expected := prior.value - consumption + cfg.Bunkered(s.name);
      if Abs(cur.value - expected) > cfg.robToleranceMt {
        findings := findings + [Finding(ROBContinuity, cfg.SeverityOf(ROBContinuity, Warning), s.robField)];
      }
    }
    assert cfg.robSeries[..|cfg.robSeries|] == cfg.robSeries;
  }

  /** ROB continuity is an error finding exactly when some series breaks and the rule is an error. */
  ghost predicate ROBError(r: Report, prev: Option<Report>, cfg: Config) {
    && prev.Some?
    && cfg.SeverityOf(ROBContinuity, Warning) == Error
    && exists i :: 0 <= i < |cfg.robSeries| && ROBBreak(r, prev.value, cfg.robSeries[i], cfg)
  }

  lemma ROBErrorMeaning(r: Report, prev: Option<Report>, cfg: Config)
    ensures HasErrors(ROBFindings(r, prev, cfg, cfg.robSeries)) <==> ROBError(r, prev, cfg)
  {
    var findings := ROBFindings(r, prev, cfg, cfg.robSeries);
    if ROBError(r, prev, cfg) {
      assert findings != [];
      assert findings[0].severity == Error;
    }
  }

  // ---- Findings per report id ----

  /** What a map of findings per report looks like when each report got one
      and the same finding as often as the tally says. */
  function FromTally(tally: multiset<string>, finding: Finding): map<string, seq<Finding>> {
    map id | id in tally :: Repeat(finding, tally[id])
  }

  function AddFinding(out: map<string, seq<Finding>>, id: string, finding: Finding): map<string, seq<Finding>> {
    out[id := (if id in out then out[id] else []) + [finding]]
  }

  lemma AddToTally(tally: multiset<string>, id: string, finding: Finding)
    ensures AddFinding(FromTally(tally, finding), id, finding) == FromTally(tally + multiset{id}, finding)
  {
    var left, right := AddFinding(FromTally(tally, finding), id, finding), FromTally(tally + multiset{id}, finding);
    assert left.Keys == right.Keys;
    assert left[id] == right[id];
  }

  /** The findings of one report: what indexing the result map yields. */
  function FindingsOf(out: map<string, seq<Finding>>, id: string): seq<Finding> {
    if id in out then out[id] else []
  }

  // ---- Timestamp uniqueness ----

  /** Unix seconds divided by sixty, truncating toward zero. */
  function MinuteKey(t: Instant): int {
    if Unix(t) >= 0 then Unix(t) / 60 else -((-Unix(t)) / 60)
  }

  function Bucket(chain: seq<Report>, key: int): seq<Report> {
    if chain == [] then []
    else
      var r := chain[|chain| - 1];
      Bucket(chain[..|chain| - 1], key) + if MinuteKey(r.eventTime) == key then [r] else []
  }

  /** The report's id, if its minute key is among these and shared within `full`. */
  function Collision(r: Report, full: seq<Report>, keys: set<int>): multiset<string> {
    var key := MinuteKey(r.eventTime);
    if key in keys && |Bucket(full, key)| >= 2 then multiset{r.reportId} else multiset{}
  }

  /** Reports of `chain` that share one of these minute keys within `full`. */
  function CollisionsWithin(chain: seq<Report>, full: seq<Report>, keys: set<int>): multiset<string> {
    if chain == [] then multiset{}
    else CollisionsWithin(chain[..|chain| - 1], full, keys) + Collision(chain[|chain| - 1], full, keys)
  }

  function MinuteKeys(chain: seq<Report>): set<int> {
    set i | 0 <= i < |chain| :: MinuteKey(chain[i].eventTime)
  }

  function Collisions(chain: seq<Report>): multiset<string> {
    CollisionsWithin(chain, chain, MinuteKeys(chain))
  }

  function CollisionFinding(cfg: Config): Finding {
    Finding(TimestampUniqueness, cfg.SeverityOf(TimestampUniqueness, Error), "")
  }

  lemma IdsOfAppend(reports: seq<Report>, r: Report)
    ensures multiset(Ids(reports + [r])) == multiset(Ids(reports)) + multiset{r.reportId}
  {
    assert Ids(reports + [r]) == Ids(reports) + [r.reportId];
  }

  lemma {:induction false} CollisionsOfKey(chain: seq<Report>, full: seq<Report>, key: int)
    ensures CollisionsWithin(chain, full, {key})
         == if |Bucket(full, key)| >= 2 then multiset(Ids(Bucket(chain, key))) else multiset{}
  {
    if chain == [] {
      assert Ids(Bucket(chain, key)) == [];
    } else {
      var init, r := chain[..|chain| - 1], chain[|chain| - 1];
      CollisionsOfKey(init, full, key);
      IdsOfAppend(Bucket(init, key), r);
      if MinuteKey(r.eventTime) != key { assert Bucket(chain, key) == Bucket(init, key); }
    }
  }

  lemma {:induction false} CollisionsOfOneKey(chain: seq<Report>, full: seq<Report>, keys: set<int>, key: int)
    requires key !in keys
    ensures CollisionsWithin(chain, full, keys + {key})
         == CollisionsWithin(chain, full, keys) + CollisionsWithin(chain, full, {key})
  {
    if chain != [] {
      var init, r := chain[..|chain| - 1], chain[|chain| - 1];
      CollisionsOfOneKey(init, full, keys, key);
      CollisionOfOneKey(r, full, keys, key);
      SumOfSums(CollisionsWithin(init, full, keys), CollisionsWithin(init, full, {key}),
                Collision(r, full, keys), Collision(r, full, {key}));
    }
  }

  lemma CollisionOfOneKey(r: Report, full: seq<Report>, keys: set<int>, key: int)
    requires key !in keys
    ensures Collision(r, full, keys + {key}) == Collision(r, full, keys) + Collision(r, full, {key})
  {
  }

  lemma SumOfSums(a: multiset<string>, b: multiset<string>, c: multiset<string>, d: multiset<string>)
    ensures (a + b) + (c + d) == (a + c) + (b + d)
  {
  }

  lemma {:induction false} NoKeysNoCollisions(chain: seq<Report>, full: seq<Report>)
    ensures CollisionsWithin(chain, full, {}) == multiset{}
  {
    if chain != [] { NoKeysNoCollisions(chain[..|chain| - 1], full); }
  }

  /** The map holds one bucket for each minute key of the chain. */
  ghost predicate Grouped(byMinute: map<int, seq<Report>>, chain: seq<Report>) {
    && byMinute.Keys == MinuteKeys(chain)
    && forall k :: k in byMinute ==> byMinute[k] == Bucket(chain, k)
  }

  method GroupByMinute(chain: seq<Report>) returns (byMinute: map<int, seq<Report>>)
    ensures Grouped(byMinute, chain)
  {
    byMinute := map[];
    for i := 0 to |chain|
      invariant Grouped(byMinute, chain[..i])
    {
      GroupOneMore(byMinute, chain[..i], chain[i]);
      assert chain[..i + 1] == chain[..i] + [chain[i]];
      var key := MinuteKey(chain[i].eventTime);
      byMinute := byMinute[key := (if key in byMinute then byMinute[key] else []) + [chain[i]]];
    }
    assert chain[..|chain|] == chain;
  }

  lemma GroupOneMore(byMinute: map<int, seq<Report>>, chain: seq<Report>, r: Report)
    requires Grouped(byMinute, chain)
    ensures var key := MinuteKey(r.eventTime);
            Grouped(byMinute[key := (if key in byMinute then byMinute[key] else []) + [r]], chain + [r])
  {
    var key := MinuteKey(r.eventTime);
    var next := chain + [r];
    assert next[..|next| - 1] == chain;
    BucketElements(chain, key);
    forall k ensures k in MinuteKeys(next) <==> k in MinuteKeys(chain) + {key} {
      if k in MinuteKeys(chain) {
        var i :| 0 <= i < |chain| && k == MinuteKey(chain[i].eventTime);
        assert next[i] == chain[i];
      }
      assert next[|chain|] == r;
    }
  }

  /** Adds the same finding to every report of the list. */
  method AddFindings(start: map<string, seq<Finding>>, reports: seq<Report>, finding: Finding,
                     ghost tally: multiset<string>)
    returns (out: map<string, seq<Finding>>)
    requires start == FromTally(tally, finding)
    ensures out == FromTally(tally + multiset(Ids(reports)), finding)
  {
    out := start;
    ghost var ids := Ids(reports);
    for i := 0 to |reports|
      invariant out == FromTally(tally + multiset(ids[..i]), finding)
    {
      AddToTally(tally + multiset(ids[..i]), reports[i].reportId, finding);
      assert ids[..i + 1] == ids[..i] + [ids[i]];
      assert tally + multiset(ids[..i]) + multiset{ids[i]} == tally + multiset(ids[..i + 1]);
      out := AddFinding(out, reports[i].reportId, finding);
    }
    assert ids[..|reports|] == ids;
  }

  method EvaluateTimestampUniqueness(chain: seq<Report>, cfg: Config) returns (out: map<string, seq<Finding>>)
    ensures out == FromTally(Collisions(chain), CollisionFinding(cfg))
  {
    var byMinute := GroupByMinute(chain);
    var keys := byMinute.Keys;
    out := map[];
    var finding := CollisionFinding(cfg);
    var todo := keys;
    NoKeysNoCollisions(chain, chain);
    assert keys - todo == {};
    while todo != {}
      invariant todo <= keys
      invariant out == FromTally(CollisionsWithin(chain, chain, keys - todo), finding)
      decreases todo
    {
      var key :| key in todo;  // map iteration: any order
      ghost var done := keys - todo;
      OneKeyMore(chain, keys, todo, key);
      if |byMinute[key]| >= 2 {
        out := AddFindings(out, byMinute[key], finding, CollisionsWithin(chain, chain, done));
      }
      todo := todo - {key};
    }
    assert keys - todo == MinuteKeys(chain);
  }

  lemma OneKeyMore(chain: seq<Report>, keys: set<int>, todo: set<int>, key: int)
    requires todo <= keys && key in todo
    ensures CollisionsWithin(chain, chain, keys - (todo - {key}))
         == if |Bucket(chain, key)| >= 2
             then CollisionsWithin(chain, chain, keys - todo) + multiset(Ids(Bucket(chain, key)))
            else CollisionsWithin(chain, chain, keys - todo)
  {
    CollisionsOfOneKey(chain, chain, keys - todo, key);
    CollisionsOfKey(chain, chain, key);
    assert keys - (todo - {key}) == keys - todo + {key};
  }

  /** The report at `i` shares its minute key with a report elsewhere in the chain. */
  ghost predicate Collides(chain: seq<Report>, i: nat)
    requires i < |chain|
  {
    exists j :: 0 <= j < |chain| && j != i && MinuteKey(chain[j].eventTime) == MinuteKey(chain[i].eventTime)
  }

  lemma {:induction false} BucketElements(chain: seq<Report>, key: int)
    ensures |Bucket(chain, key)| >= 1 <==> exists j :: 0 <= j < |chain| && MinuteKey(chain[j].eventTime) == key
    ensures |Bucket(chain, key)| >= 2 <==>
            exists i, j :: 0 <= i < j < |chain| && MinuteKey(chain[i].eventTime) == key == MinuteKey(chain[j].eventTime)
  {
    if chain != [] {
      var init := chain[..|chain| - 1];
      BucketElements(init, key);
      assert forall k :: 0 <= k < |init| ==> init[k] == chain[k];
      var last := |chain| - 1;
      if |Bucket(init, key)| >= 1 {
        var i :| 0 <= i < |init| && MinuteKey(init[i].eventTime) == key;
        assert MinuteKey(chain[i].eventTime) == key;
        if MinuteKey(chain[last].eventTime) == key {
          assert 0 <= i < last < |chain|;
        }
      }
    }
  }

  lemma {:induction false} CollisionsWithinMeaning(chain: seq<Report>, full: seq<Report>, keys: set<int>, id: string)
    ensures id in CollisionsWithin(chain, full, keys) <==>
            exists i :: 0 <= i < |chain| && chain[i].reportId == id && MinuteKey(chain[i].eventTime) in keys
                        && |Bucket(full, MinuteKey(chain[i].eventTime))| >= 2
  {
    if chain != [] {
      var init := chain[..|chain| - 1];
      CollisionsWithinMeaning(init, full, keys, id);
      assert forall k :: 0 <= k < |init| ==> init[k] == chain[k];
      assert chain[|chain| - 1] == chain[|init|];
    }
  }

  /** A report id is reported exactly when a report of that id shares its
      minute key with another position of the chain. */
  lemma CollisionsMeaning(chain: seq<Report>, id: string)
    ensures id in Collisions(chain) <==> exists i :: 0 <= i < |chain| && chain[i].reportId == id && Collides(chain, i)
  {
    CollisionsWithinMeaning(chain, chain, MinuteKeys(chain), id);
    forall i | 0 <= i < |chain|
      ensures |Bucket(chain, MinuteKey(chain[i].eventTime))| >= 2 <==> Collides(chain, i)
    {
      BucketElements(chain, MinuteKey(chain[i].eventTime));
    }
  }

  /** The minute of the clock an instant falls in. */
  function ClockMinute(t: Instant): int {
    Unix(t) / 60
  }

  /** The key is the minute of the clock exactly from the epoch on, and before
      it on whole minutes only; otherwise it names the following minute. */
  lemma MinuteKeyIsClockMinute(t: Instant)
    ensures MinuteKey(t) == ClockMinute(t) <==> Unix(t) >= 0 || Unix(t) % 60 == 0
    ensures MinuteKey(t) == ClockMinute(t) || MinuteKey(t) == ClockMinute(t) + 1
  {
  }

  // ---- Event ordering ----

  /** 0 or 1 when the group lists the event type, -1 when it ignores it. */
  function StageOf(g: AlternatingGroup, eventType: string): (stage: int)
    ensures -1 <= stage <= 1
  {
    if eventType in g.stage0 then 0 else if eventType in g.stage1 then 1 else -1
  }

  function StageAt(chain: seq<Report>, i: nat, g: AlternatingGroup): int
    requires i < |chain|
  {
    StageOf(g, chain[i].eventType)
  }

  /** The stage of the last staged report, -1 if there is none. */
  function LastStage(chain: seq<Report>, g: AlternatingGroup): int {
    if chain == [] then -1
    else
      var stage := StageAt(chain, |chain| - 1, g);
      if stage != -1 then stage else LastStage(chain[..|chain| - 1], g)
  }

  /** The report at `i` repeats the stage its group was last in. */
  predicate Flagged(chain: seq<Report>, i: nat, g: AlternatingGroup)
    requires i < |chain|
  {
    StageAt(chain, i, g) != -1 && LastStage(chain[..i], g) == StageAt(chain, i, g)
  }

  function FlaggedIds(chain: seq<Report>, g: AlternatingGroup): multiset<string> {
    if chain == [] then multiset{}
    else
      FlaggedIds(chain[..|chain| - 1], g)
      + if Flagged(chain, |chain| - 1, g) then multiset{chain[|chain| - 1].reportId} else multiset{}
  }

  function OrderingTally(chain: seq<Report>, groups: seq<AlternatingGroup>): multiset<string> {
    if groups == [] then multiset{}
    else OrderingTally(chain, groups[..|groups| - 1]) + FlaggedIds(chain, groups[|groups| - 1])
  }

  function OrderingFinding(cfg: Config): Finding {
    Finding(EventOrdering, cfg.SeverityOf(EventOrdering, Warning), "")
  }

  method OrderWithinGroup(start: map<string, seq<Finding>>, chain: seq<Report>, g: AlternatingGroup, finding: Finding,
                          ghost tally: multiset<string>)
    returns (out: map<string, seq<Finding>>)
    requires start == FromTally(tally, finding)
    ensures out == FromTally(tally + FlaggedIds(chain, g), finding)
  {
    out := start;
    var lastStage := -1;
    ghost var flagged := multiset{};
    assert tally + flagged == tally;
    for i := 0 to |chain|
      invariant lastStage == LastStage(chain[..i], g)
      invariant flagged == FlaggedIds(chain[..i], g)
      invariant out == FromTally(tally + flagged, finding)
    {
      assert chain[..i + 1][..i] == chain[..i];
      var stage := StageOf(g, chain[i].eventType);
      if stage == -1 { continue; }
      if lastStage == stage {
        var id := chain[i].reportId;
        AddToTally(tally + flagged, id, finding);
        assert tally + flagged + multiset{id} == tally + (flagged + multiset{id});
        flagged := flagged + multiset{id};
        out := AddFinding(out, id, finding);
      }
      lastStage := stage;
    }
    assert chain[..|chain|] == chain;
  }

  method EvaluateEventOrdering(chain: seq<Report>, cfg: Config) returns (out: map<string, seq<Finding>>)
    ensures out == FromTally(OrderingTally(chain, cfg.eventGroups), OrderingFinding(cfg))
  {
    out := map[];
    var finding := OrderingFinding(cfg);
    for n := 0 to |cfg.eventGroups|
      invariant out == FromTally(OrderingTally(chain, cfg.eventGroups[..n]), finding)
    {
      out := OrderWithinGroup(out, chain, cfg.eventGroups[n], finding, OrderingTally(chain, cfg.eventGroups[..n]));
      assert cfg.eventGroups[..n + 1][..n] == cfg.eventGroups[..n];
    }
    assert cfg.eventGroups[..|cfg.eventGroups|] == cfg.eventGroups;
  }

  /** This group flags some report of this id. */
  ghost predicate OrderingMark(chain: seq<Report>, g: AlternatingGroup, id: string) {
    exists i :: 0 <= i < |chain| && chain[i].reportId == id && Flagged(chain, i, g)
  }

  lemma LastFlag(chain: seq<Report>, g: AlternatingGroup, id: string)
    requires chain != []
    ensures OrderingMark(chain, g, id) <==>
            OrderingMark(chain[..|chain| - 1], g, id)
            || (chain[|chain| - 1].reportId == id && Flagged(chain, |chain| - 1, g))
  {
    var init := chain[..|chain| - 1];
    forall i | 0 <= i < |init| ensures init[i] == chain[i] && (Flagged(init, i, g) <==> Flagged(chain, i, g)) {
      assert init[..i] == chain[..i];
    }
    if OrderingMark(init, g, id) {
      var i :| 0 <= i < |init| && init[i].reportId == id && Flagged(init, i, g);
      assert chain[i].reportId == id && Flagged(chain, i, g);
    }
  }

  lemma {:induction false} FlaggedIdsMeaning(chain: seq<Report>, g: AlternatingGroup, id: string)
    ensures id in FlaggedIds(chain, g) <==> OrderingMark(chain, g, id)
  {
    if chain != [] {
      FlaggedIdsMeaning(chain[..|chain| - 1], g, id);
      LastFlag(chain, g, id);
    }
  }

  ghost predicate SomeGroupMarks(chain: seq<Report>, groups: seq<AlternatingGroup>, id: string) {
    exists n :: 0 <= n < |groups| && OrderingMark(chain, groups[n], id)
  }

  lemma LastGroup(chain: seq<Report>, groups: seq<AlternatingGroup>, id: string)
    requires groups != []
    ensures SomeGroupMarks(chain, groups, id) <==>
            SomeGroupMarks(chain, groups[..|groups| - 1], id) || OrderingMark(chain, groups[|groups| - 1], id)
  {
    var init := groups[..|groups| - 1];
    if SomeGroupMarks(chain, init, id) {
      var n :| 0 <= n < |init| && OrderingMark(chain, init[n], id);
      assert groups[n] == init[n];
    }
    if SomeGroupMarks(chain, groups, id) {
      var n :| 0 <= n < |groups| && OrderingMark(chain, groups[n], id);
      if n < |init| { assert init[n] == groups[n]; }
    }
  }

  lemma LastGroupTally(chain: seq<Report>, groups: seq<AlternatingGroup>, id: string)
    requires groups != []
    ensures id in OrderingTally(chain, groups) <==>
            id in OrderingTally(chain, groups[..|groups| - 1]) || id in FlaggedIds(chain, groups[|groups| - 1])
  {
  }

  lemma {:induction false} OrderingTallyMeaning(chain: seq<Report>, groups: seq<AlternatingGroup>, id: string)
    ensures id in OrderingTally(chain, groups) <==> SomeGroupMarks(chain, groups, id)
  {
    if groups != [] {
      OrderingTallyMeaning(chain, groups[..|groups| - 1], id);
      LastGroupTally(chain, groups, id);
      FlaggedIdsMeaning(chain, groups[|groups| - 1], id);
      LastGroup(chain, groups, id);
    }
  }

  // ---- Alternation ----

  /** `j` is the nearest staged report before `i`. */
  ghost predicate NearestStagedBefore(chain: seq<Report>, i: nat, j: nat, g: AlternatingGroup)
    requires i <= |chain|
  {
    j < i && StageAt(chain, j, g) != -1 && forall k :: j < k < i ==> StageAt(chain, k, g) == -1
  }

  lemma {:induction false} LastStageIsNearest(chain: seq<Report>, i: nat, g: AlternatingGroup)
    requires i <= |chain|
    ensures LastStage(chain[..i], g) == -1 <==> forall k :: 0 <= k < i ==> StageAt(chain, k, g) == -1
    ensures forall j :: 0 <= j < i && NearestStagedBefore(chain, i, j, g) ==>
        LastStage(chain[..i], g) == StageAt(chain, j, g)
    ensures LastStage(chain[..i], g) != -1 ==> exists j :: 0 <= j < i && NearestStagedBefore(chain, i, j, g)
  {
    if i > 0 {
      LastStageIsNearest(chain, i - 1, g);
      assert chain[..i][..i - 1] == chain[..i - 1];
      if StageAt(chain, i - 1, g) != -1 {
        assert NearestStagedBefore(chain, i, i - 1, g);
      } else if LastStage(chain[..i], g) != -1 {
        var j :| 0 <= j < i - 1 && NearestStagedBefore(chain, i - 1, j, g);
        assert NearestStagedBefore(chain, i, j, g);
      }
    }
  }

  /** A report is flagged exactly when the nearest staged report before it is in the same stage. */
  lemma FlaggedIffNearestRepeats(chain: seq<Report>, i: nat, g: AlternatingGroup)
    requires i < |chain|
    ensures Flagged(chain, i, g) <==>
            exists j :: 0 <= j < i && NearestStagedBefore(chain, i, j, g)
                        && StageAt(chain, j, g) == StageAt(chain, i, g)
  {
    LastStageIsNearest(chain, i, g);
  }

  /** How many more stage-0 than stage-1 reports there are among `chain[a..b]`. */
  function Lead(chain: seq<Report>, a: nat, b: nat, g: AlternatingGroup): int
    requires a <= b <= |chain|
    decreases b
  {
    if a == b then 0
    else
      Lead(chain, a, b - 1, g)
      + match StageAt(chain, b - 1, g)
        case 0 => 1
        case 1 => -1
        case _ => 0
  }

  /** In no stretch of the chain does either stage lead by more than one. */
  ghost predicate Balanced(chain: seq<Report>, g: AlternatingGroup) {
    forall a, b :: 0 <= a <= b <= |chain| ==> -1 <= Lead(chain, a, b, g) <= 1
  }

  lemma {:induction false} UnflaggedStretch(chain: seq<Report>, a: nat, b: nat, g: AlternatingGroup)
    requires a <= b <= |chain|
    requires forall i :: 0 <= i < |chain| ==> !Flagged(chain, i, g)
    ensures -1 <= Lead(chain, a, b, g) <= 1
    ensures Lead(chain, a, b, g) == 1 ==> LastStage(chain[..b], g) == 0
    ensures Lead(chain, a, b, g) == -1 ==> LastStage(chain[..b], g) == 1
    decreases b
  {
    if a < b {
      UnflaggedStretch(chain, a, b - 1, g);
      assert !Flagged(chain, b - 1, g);
      assert chain[..b][..b - 1] == chain[..b - 1];
    }
  }

  lemma {:induction false} LeadOverUnstaged(chain: seq<Report>, a: nat, b: nat, g: AlternatingGroup)
    requires a <= b <= |chain|
    requires forall k :: a <= k < b ==> StageAt(chain, k, g) == -1
    ensures Lead(chain, a, b, g) == 0
    decreases b
  {
    if a < b { LeadOverUnstaged(chain, a, b - 1, g); }
  }

  lemma {:induction false} LeadSplit(chain: seq<Report>, a: nat, m: nat, b: nat, g: AlternatingGroup)
    requires a <= m <= b <= |chain|
    ensures Lead(chain, a, b, g) == Lead(chain, a, m, g) + Lead(chain, m, b, g)
    decreases b
  {
    if m < b { LeadSplit(chain, a, m, b - 1, g); }
  }

  /** A chain has no ordering finding for a group exactly when the group's two
      stages stay within one of each other over every stretch of the chain. */
  lemma AlternatesIffBalanced(chain: seq<Report>, g: AlternatingGroup)
    ensures (forall i :: 0 <= i < |chain| ==> !Flagged(chain, i, g)) <==> Balanced(chain, g)
  {
    if forall i :: 0 <= i < |chain| ==> !Flagged(chain, i, g) {
      forall a, b | 0 <= a <= b <= |chain| ensures -1 <= Lead(chain, a, b, g) <= 1 {
        UnflaggedStretch(chain, a, b, g);
      }
    } else {
      var i :| 0 <= i < |chain| && Flagged(chain, i, g);
      FlaggedIffNearestRepeats(chain, i, g);
      var j :| 0 <= j < i && NearestStagedBefore(chain, i, j, g) && StageAt(chain, j, g) == StageAt(chain, i, g);
      LeadSplit(chain, j, j + 1, i, g);
      LeadOverUnstaged(chain, j + 1, i, g);
      assert Lead(chain, j, j, g) == 0;
      var lead := Lead(chain, j, i + 1, g);
      assert lead == 2 || lead == -2;
    }
  }

  // ---- Telescoping ----

  function TotalConsumption(chain: seq<Report>, n: nat, s: ROBSeries): real
    requires n < |chain|
  {
    if n == 0 then 0.0 else TotalConsumption(chain, n - 1, s) + Consumption(chain[n], s.consumptionFields)
  }

  lemma DriftStep(level: real, prior: real, expectedPrior: real, change: real, drift: real, tolerance: real)
    requires Abs(prior - expectedPrior) <= drift
    requires Abs(level - (prior + change)) <= tolerance
    ensures Abs(level - (expectedPrior + change)) <= drift + tolerance
  {
  }

  /** `n` times `x`, by repeated addition. */
  function Times(n: nat, x: real): real {
    if n == 0 then 0.0 else Times(n - 1, x) + x
  }

  lemma {:induction false} TimesIsProduct(n: nat, x: real)
    ensures Times(n, x) == n as real * x
  {
    if n > 0 {
      TimesIsProduct(n - 1, x);
      Distribute((n - 1) as real, n as real, x);
    }
  }

  lemma Distribute(a: real, b: real, x: real)
    requires b == a + 1.0
    ensures b * x == a * x + x
  {
  }

  function ExpectedLevel(chain: seq<Report>, n: nat, first: real, s: ROBSeries, cfg: Config): real
    requires n < |chain|
  {
    if n == 0 then first else ExpectedROB(chain[n], ExpectedLevel(chain, n - 1, first, s, cfg), s, cfg)
  }

  lemma {:induction false} ExpectedLevelClosedForm(chain: seq<Report>, n: nat, first: real, s: ROBSeries, cfg: Config)
    requires n < |chain|
    ensures ExpectedLevel(chain, n, first, s, cfg)
         == first - TotalConsumption(chain, n, s) + Times(n, cfg.Bunkered(s.name))
  {
    if n > 0 {
      ExpectedLevelClosedForm(chain, n - 1, first, s, cfg);
    }
  }

  lemma {:induction false} ROBDriftFromExpected(chain: seq<Report>, n: nat, s: ROBSeries, cfg: Config)
    requires n < |chain|
    requires forall i :: 0 <= i <= n ==> chain[i].Float(s.robField).Some?
    requires UnbrokenSeries(chain, n, s, cfg)
    ensures Abs(chain[n].FloatOrZero(s.robField)
                - ExpectedLevel(chain, n, chain[0].FloatOrZero(s.robField), s, cfg))
            <= Times(n, cfg.robToleranceMt)
  {
    if n > 0 {
      ROBDriftFromExpected(chain, n - 1, s, cfg);
      assert !ROBBreak(chain[n], chain[n - 1], s, cfg);
      DriftStep(chain[n].FloatOrZero(s.robField), chain[n - 1].FloatOrZero(s.robField),
                ExpectedLevel(chain, n - 1, chain[0].FloatOrZero(s.robField), s, cfg),
                cfg.Bunkered(s.name) - Consumption(chain[n], s.consumptionFields),
                Times(n - 1, cfg.robToleranceMt), cfg.robToleranceMt);
    }
  }

  lemma NoFindingNoBreak(r: Report, p: Report, s: ROBSeries, cfg: Config)
    requires s in cfg.robSeries
    requires ROBFindings(r, Some(p), cfg, cfg.robSeries) == []
    ensures !ROBBreak(r, p, s, cfg)
  {
    var k :| 0 <= k < |cfg.robSeries| && cfg.robSeries[k] == s;
    assert !ROBBreak(r, p, cfg.robSeries[k], cfg);
  }

  /** No step of the first `n` has an ROB finding. */
  ghost predicate CleanROBSteps(chain: seq<Report>, n: nat, cfg: Config)
    requires n < |chain|
  {
    forall i :: 0 < i <= n ==> ROBFindings(chain[i], Some(chain[i - 1]), cfg, cfg.robSeries) == []
  }

  ghost predicate UnbrokenSeries(chain: seq<Report>, n: nat, s: ROBSeries, cfg: Config)
    requires n < |chain|
  {
    forall i :: 0 < i <= n ==> !ROBBreak(chain[i], chain[i - 1], s, cfg)
  }

  lemma CleanStepsUnbroken(chain: seq<Report>, n: nat, s: ROBSeries, cfg: Config)
    requires n < |chain|
    requires s in cfg.robSeries
    requires CleanROBSteps(chain, n, cfg)
    ensures UnbrokenSeries(chain, n, s, cfg)
  {
    forall i | 0 < i <= n ensures !ROBBreak(chain[i], chain[i - 1], s, cfg) {
      NoFindingNoBreak(chain[i], chain[i - 1], s, cfg);
    }
  }

  lemma ROBDriftSum(chain: seq<Report>, n: nat, s: ROBSeries, cfg: Config)
    requires n < |chain|
    requires s in cfg.robSeries
    requires forall i :: 0 <= i <= n ==> chain[i].Float(s.robField).Some?
    requires CleanROBSteps(chain, n, cfg)
    ensures Abs(chain[n].FloatOrZero(s.robField)
                - (chain[0].FloatOrZero(s.robField) - TotalConsumption(chain, n, s) + Times(n, cfg.Bunkered(s.name))))
            <= Times(n, cfg.robToleranceMt)
  {
    CleanStepsUnbroken(chain, n, s, cfg);
    ROBDriftFromExpected(chain, n, s, cfg);
    ExpectedLevelClosedForm(chain, n, chain[0].FloatOrZero(s.robField), s, cfg);
  }

  /** After `n` steps the level is within `n` tolerances of the base and `n` times the change. */
  ghost predicate Drifts(level: real, base: real, n: nat, change: real, tolerance: real) {
    Abs(level - (base + n as real * change)) <= n as real * tolerance
  }

  lemma DriftAsProducts(level: real, base: real, n: nat, change: real, tolerance: real)
    requires Abs(level - (base + Times(n, change))) <= Times(n, tolerance)
    ensures Drifts(level, base, n, change, tolerance)
  {
    TimesIsProduct(n, change);
    TimesIsProduct(n, tolerance);
  }

  /** If no step of a series is out of tolerance, then over n steps the level
      drifts from first level minus all consumption plus all bunkering by at
      most n tolerances. */
  lemma ROBDriftBound(chain: seq<Report>, n: nat, s: ROBSeries, cfg: Config)
    requires n < |chain|
    requires s in cfg.robSeries
    requires forall i :: 0 <= i <= n ==> chain[i].Float(s.robField).Some?
    requires CleanROBSteps(chain, n, cfg)
    ensures Drifts(chain[n].FloatOrZero(s.robField), chain[0].FloatOrZero(s.robField) - TotalConsumption(chain, n, s),
                   n, cfg.Bunkered(s.name), cfg.robToleranceMt)
  {
    ROBDriftSum(chain, n, s, cfg);
    DriftAsProducts(chain[n].FloatOrZero(s.robField), chain[0].FloatOrZero(s.robField) - TotalConsumption(chain, n, s),
                    n, cfg.Bunkered(s.name), cfg.robToleranceMt);
  }

  function TotalReportedHours(chain: seq<Report>, n: nat): real
    requires n < |chain|
  {
    if n == 0 then 0.0 else TotalReportedHours(chain, n - 1) + chain[n].FloatOrZero(TIME_SINCE_PREVIOUS)
  }

  lemma {:induction false} TimeDriftSum(chain: seq<Report>, n: nat, cfg: Config)
    requires n < |chain|
    requires forall i :: 0 < i <= n ==> chain[i].Float(TIME_SINCE_PREVIOUS).Some?
    requires forall i :: 0 < i <= n ==> EvaluateTimeChain(chain[i], Some(chain[i - 1]), cfg) == []
    ensures Abs(TotalReportedHours(chain, n) - HoursBetween(chain[0].eventTime, chain[n].eventTime))
            <= Times(n, cfg.timeChainToleranceHours)
  {
    if n > 0 {
      TimeDriftSum(chain, n - 1, cfg);
      assert !TimeChainBreak(chain[n], Some(chain[n - 1]), cfg);
      var first, prior, last := chain[0].eventTime, chain[n - 1].eventTime, chain[n].eventTime;
      var reported, step := TotalReportedHours(chain, n - 1), chain[n].FloatOrZero(TIME_SINCE_PREVIOUS);
      HoursAdd(first, prior, last);
      assert Abs(step - HoursBetween(prior, last)) <= cfg.timeChainToleranceHours;
      DriftStep(HoursBetween(first, last) , HoursBetween(first, prior), reported, step,
                Times(n - 1, cfg.timeChainToleranceHours), cfg.timeChainToleranceHours);
    }
  }

  /** The same for reported intervals against elapsed time. */
  lemma TimeDriftBound(chain: seq<Report>, n: nat, cfg: Config)
    requires n < |chain|
    requires forall i :: 0 < i <= n ==> chain[i].Float(TIME_SINCE_PREVIOUS).Some?
    requires forall i :: 0 < i <= n ==> EvaluateTimeChain(chain[i], Some(chain[i - 1]), cfg) == []
    ensures Drifts(TotalReportedHours(chain, n), HoursBetween(chain[0].eventTime, chain[n].eventTime), n, 0.0,
                   cfg.timeChainToleranceHours)
  {
    TimeDriftSum(chain, n, cfg);
    NoChange(n);
    DriftAsProducts(TotalReportedHours(chain, n), HoursBetween(chain[0].eventTime, chain[n].eventTime), n, 0.0,
                    cfg.timeChainToleranceHours);
  }

  lemma {:induction false} NoChange(n: nat)
    ensures Times(n, 0.0) == 0.0
  {
    if n > 0 { NoChange(n - 1); }
  }

  lemma HoursAdd(a: Instant, b: Instant, c: Instant)
    ensures HoursBetween(a, c) == HoursBetween(a, b) + HoursBetween(b, c)
  {
    assert (c - a) as real == (b - a) as real + (c - b) as real;
  }
}
