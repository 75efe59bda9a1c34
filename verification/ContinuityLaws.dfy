// The continuity rules said from the reports' own readings: what a level, an
// interval or an event type must be for a rule to find nothing, and how many
// findings a report gets.
module ContinuityLaws {
  import opened Prelude
  import opened Reports
  import opened Continuity

  function WithNumber(r: Report, field: string, x: real): Report {
    r.(fields := r.fields[field := Num(x)])
  }


  // ---- Remaining on board ----

  /** Raising one field's reading raises the consumption once for each time the field is listed. */
  lemma {:induction false} ConsumptionMoves(r: Report, fields: seq<string>, field: string, d: real)
    ensures Consumption(WithNumber(r, field, r.FloatOrZero(field) + d), fields)
         == Consumption(r, fields) + Times(multiset(fields)[field], d)
  {
    if fields != [] {
      var init, last := fields[..|fields| - 1], fields[|fields| - 1];
      ConsumptionMoves(r, init, field, d);
      assert fields == init + [last];
      assert multiset(fields)[field] == multiset(init)[field] + if last == field then 1 else 0;
    }
  }

  lemma {:induction false} ConsumptionReads(r: Report, q: Report, fields: seq<string>)
    requires forall f :: f in fields ==> r.FloatOrZero(f) == q.FloatOrZero(f)
    ensures Consumption(r, fields) == Consumption(q, fields)
  {
    if fields != [] {
      var init, last := fields[..|fields| - 1], fields[|fields| - 1];
      assert last in fields && forall f :: f in init ==> f in fields;
      ConsumptionReads(r, q, init);
    }
  }

  lemma {:induction false} ConsumptionJoin(r: Report, a: seq<string>, b: seq<string>)
    ensures Consumption(r, a + b) == Consumption(r, a) + Consumption(r, b)
    decreases |b|
  {
    if b == [] {
      assert a + b == a;
    } else {
      assert (a + b)[..|a + b| - 1] == a + b[..|b| - 1];
      ConsumptionJoin(r, a, b[..|b| - 1]);
    }
  }

  lemma ConsumptionWithout(r: Report, fields: seq<string>, k: nat)
    requires k < |fields|
    ensures Consumption(r, fields) == Consumption(r, fields[..k] + fields[k + 1..]) + r.FloatOrZero(fields[k])
  {
    var before, after := fields[..k], fields[k + 1..];
    assert fields == (before + [fields[k]]) + after;
    ConsumptionJoin(r, before, after);
    ConsumptionJoin(r, before + [fields[k]], after);
    assert (before + [fields[k]])[..k] == before;
  }

  lemma {:induction false} ConsumptionPermutes(r: Report, a: seq<string>, b: seq<string>)
    requires multiset(a) == multiset(b)
    ensures Consumption(r, a) == Consumption(r, b)
    decreases |a|
  {
    SameElements(a, b);
    if a != [] {
      var n := |a| - 1;
      assert a[n] in b;
      var k :| 0 <= k < |b| && b[k] == a[n];
      RemoveAt(b, k);
      assert a == a[..n] + [a[n]];
      ConsumptionPermutes(r, a[..n], b[..k] + b[k + 1..]);
      ConsumptionWithout(r, b, k);
    }
  }

  /** Every listed field counts, once for each time it is listed: what is added
      to its reading and taken off the level leaves the rule's answer as it was.
      A field that is not listed has no say at all. */
  lemma EveryFieldCounts(r: Report, p: Report, s: ROBSeries, cfg: Config, field: string, d: real)
    requires field != s.robField && s.robField !in s.consumptionFields && r.Float(s.robField).Some?
    ensures var burnt := WithNumber(r, field, r.FloatOrZero(field) + d);
            var level := r.FloatOrZero(s.robField) - Times(multiset(s.consumptionFields)[field], d);
            ROBBreak(WithNumber(burnt, s.robField, level), p, s, cfg) <==> ROBBreak(r, p, s, cfg)
  {
    var burnt := WithNumber(r, field, r.FloatOrZero(field) + d);
    var level := r.FloatOrZero(s.robField) - Times(multiset(s.consumptionFields)[field], d);
    ConsumptionMoves(r, s.consumptionFields, field, d);
    ConsumptionReads(burnt, WithNumber(burnt, s.robField, level), s.consumptionFields);
  }

  /** The same against the level before, with no exception: a field listed as
      its own consumption moves the level it is compared with as well. */
  lemma EveryFieldCountsBefore(r: Report, p: Report, s: ROBSeries, cfg: Config, field: string, d: real)
    requires r.Float(s.robField).Some? && p.Float(s.robField).Some?
    ensures var burnt := WithNumber(r, field, r.FloatOrZero(field) + d);
            var more := Times(multiset(s.consumptionFields)[field], d) + if field == s.robField then d else 0.0;
            ROBBreak(burnt, WithNumber(p, s.robField, p.FloatOrZero(s.robField) + more), s, cfg)
            <==> ROBBreak(r, p, s, cfg)
  {
    ConsumptionMoves(r, s.consumptionFields, field, d);
  }

  /** Nothing but the two levels and the listed readings matters, and the list in any order. */
  lemma OnlyListedFieldsCount(r: Report, q: Report, p: Report, o: Report, s: ROBSeries, t: ROBSeries, cfg: Config)
    requires r.Float(s.robField) == q.Float(s.robField) && p.Float(s.robField) == o.Float(s.robField)
    requires forall f :: f in s.consumptionFields ==> r.FloatOrZero(f) == q.FloatOrZero(f)
    requires t.name == s.name && t.robField == s.robField
    requires multiset(t.consumptionFields) == multiset(s.consumptionFields)
    ensures ROBBreak(r, p, s, cfg) <==> ROBBreak(q, o, t, cfg)
  {
    ConsumptionReads(r, q, s.consumptionFields);
    ConsumptionPermutes(q, s.consumptionFields, t.consumptionFields);
  }

  /** With nothing consumed the level must be the one before plus what was
      bunkered, to within the tolerance; a level missing on either side breaks nothing. */
  lemma NothingConsumed(r: Report, p: Report, s: ROBSeries, cfg: Config)
    requires forall f :: f in s.consumptionFields ==> !(f in r.fields && r.fields[f].Num? && r.fields[f].n != 0.0)
    ensures var bunkered := if s.name in cfg.bunkeredAmounts then cfg.bunkeredAmounts[s.name] else 0.0;
            ROBBreak(r, p, s, cfg) <==>
              && s.robField in r.fields && r.fields[s.robField].Num?
              && s.robField in p.fields && p.fields[s.robField].Num?
              && (r.fields[s.robField].n - p.fields[s.robField].n - bunkered > cfg.robToleranceMt
                  || p.fields[s.robField].n + bunkered - r.fields[s.robField].n > cfg.robToleranceMt)
  {
    var blank := r.(fields := map[]);
    ConsumptionReads(r, blank, s.consumptionFields);
    NoReadings(blank, s.consumptionFields);
  }

  lemma {:induction false} NoReadings(r: Report, fields: seq<string>)
    requires r.fields == map[]
    ensures Consumption(r, fields) == 0.0
  {
    if fields != [] { NoReadings(r, fields[..|fields| - 1]); }
  }

  function BrokenSeries(r: Report, p: Report, cfg: Config, series: seq<ROBSeries>): nat {
    if series == [] then 0
    else
      BrokenSeries(r, p, cfg, series[..|series| - 1]) + if ROBBreak(r, p, series[|series| - 1], cfg) then 1 else 0
  }

  lemma {:induction false} ROBFindingCount(r: Report, p: Report, cfg: Config, series: seq<ROBSeries>)
    ensures |ROBFindings(r, Some(p), cfg, series)| == BrokenSeries(r, p, cfg, series)
  {
    if series != [] { ROBFindingCount(r, p, cfg, series[..|series| - 1]); }
  }

  // ---- Time chain ----

  lemma WholeHours(t: Instant, hours: int)
    ensures HoursBetween(t, t + hours * 3_600_000_000_000) == hours as real
  {
  }

  /** A report that comes this many hours after its predecessor must say so, to within the tolerance. */
  lemma IntervalMustMatch(r: Report, p: Report, cfg: Config, hours: int)
    requires r.eventTime == p.eventTime + hours * 3_600_000_000_000
    ensures EvaluateTimeChain(r, Some(p), cfg) != [] <==>
              && "Time_Since_Previous_Report" in r.fields && r.fields["Time_Since_Previous_Report"].Num?
              && (r.fields["Time_Since_Previous_Report"].n - hours as real > cfg.timeChainToleranceHours
                  || hours as real - r.fields["Time_Since_Previous_Report"].n > cfg.timeChainToleranceHours)
    ensures EvaluateTimeChain(r, None, cfg) == []
  {
    WholeHours(p.eventTime, hours);
  }

  // ---- Event ordering ----

  /** The group knows the event type. */
  predicate Listed(g: AlternatingGroup, eventType: string) {
    eventType in g.stage0 || eventType in g.stage1
  }

  /** Both of the first stage, or both of the second and not of the first. */
  predicate SameStage(g: AlternatingGroup, a: string, b: string) {
    || (a in g.stage0 && b in g.stage0)
    || (a !in g.stage0 && b !in g.stage0 && a in g.stage1 && b in g.stage1)
  }

  /** A report is flagged exactly when an earlier one is of its stage and the
      group knows none of the event types in between. */
  lemma FlaggedFromLists(chain: seq<Report>, i: nat, g: AlternatingGroup)
    requires i < |chain|
    ensures Flagged(chain, i, g) <==>
            exists j :: 0 <= j < i && SameStage(g, chain[j].eventType, chain[i].eventType)
                        && forall k :: j < k < i ==> !Listed(g, chain[k].eventType)
  {
    FlaggedIffNearestRepeats(chain, i, g);
    forall k | 0 <= k < |chain| ensures StageAt(chain, k, g) != -1 <==> Listed(g, chain[k].eventType) {}
    if j :| 0 <= j < i && NearestStagedBefore(chain, i, j, g) && StageAt(chain, j, g) == StageAt(chain, i, g) {
      assert SameStage(g, chain[j].eventType, chain[i].eventType);
    }
    if j :| 0 <= j < i && SameStage(g, chain[j].eventType, chain[i].eventType)
            && forall k :: j < k < i ==> !Listed(g, chain[k].eventType) {
      assert NearestStagedBefore(chain, i, j, g) && StageAt(chain, j, g) == StageAt(chain, i, g);
    }
  }

  function FlaggingGroups(chain: seq<Report>, i: nat, groups: seq<AlternatingGroup>): nat
    requires i < |chain|
  {
    if groups == [] then 0
    else FlaggingGroups(chain, i, groups[..|groups| - 1]) + if Flagged(chain, i, groups[|groups| - 1]) then 1 else 0
  }

  /** With distinct ids a report gets one ordering finding for each group that flags it. */
  lemma {:induction false} OrderingCount(chain: seq<Report>, i: nat, groups: seq<AlternatingGroup>)
    requires i < |chain| && DistinctIds(chain)
    ensures OrderingTally(chain, groups)[chain[i].reportId] == FlaggingGroups(chain, i, groups)
  {
    if groups != [] {
      OrderingCount(chain, i, groups[..|groups| - 1]);
      FlagCount(chain, i, groups[|groups| - 1], |chain|);
      assert chain[..|chain|] == chain;
    }
  }

  lemma {:induction false} FlagCount(chain: seq<Report>, i: nat, g: AlternatingGroup, n: nat)
    requires i < |chain| && DistinctIds(chain) && n <= |chain|
    ensures FlaggedIds(chain[..n], g)[chain[i].reportId] == if i < n && Flagged(chain, i, g) then 1 else 0
  {
    if n > 0 {
      FlagCount(chain, i, g, n - 1);
      var front := chain[..n];
      assert front[..n - 1] == chain[..n - 1];
    }
  }

  // ---- Timestamp uniqueness ----

  /** From 1970 on the key is the number of whole minutes since then. */
  lemma MinuteKeyFromEpoch(t: Instant)
    requires t >= 0
    ensures MinuteKey(t) == t / 60_000_000_000
  {
  }

  /** With distinct ids a report gets one uniqueness finding if its minute key is shared, and none otherwise. */
  lemma CollisionCount(chain: seq<Report>, i: nat)
    requires i < |chain| && DistinctIds(chain)
    ensures Collisions(chain)[chain[i].reportId] == if Collides(chain, i) then 1 else 0
  {
    CollisionsMeaning(chain, chain[i].reportId);
    CollisionAtMostOnce(chain, i, chain, MinuteKeys(chain), |chain|);
    assert chain[..|chain|] == chain;
  }

  lemma {:induction false} CollisionAtMostOnce(chain: seq<Report>, i: nat, full: seq<Report>, keys: set<int>, n: nat)
    requires i < |chain| && DistinctIds(chain) && n <= |chain|
    ensures CollisionsWithin(chain[..n], full, keys)[chain[i].reportId] <= if i < n then 1 else 0
  {
    if n > 0 {
      CollisionAtMostOnce(chain, i, full, keys, n - 1);
      assert chain[..n][..n - 1] == chain[..n - 1];
    }
  }
}
