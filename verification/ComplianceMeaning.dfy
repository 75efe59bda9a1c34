// What a vessel's severities and thresholds are, said from the assignments and
// the severities themselves.
module ComplianceMeaning {
  import opened Prelude
  import opened Reports
  import opened Scopes
  import opened Compliance

  predicate CoversAsGroup<T>(a: Scoped<T>, groups: seq<string>) {
    a.scope.GroupScope? && a.scope.group in groups
  }

  /** Some covering group sets the rule to this severity. */
  ghost predicate GroupSets(all: seq<Scoped<SeverityMap>>, groups: seq<string>, rule: RuleId, severity: Severity) {
    exists a :: a in all && CoversAsGroup(a, groups) && rule in a.content && a.content[rule] == severity
  }

  lemma GroupContent<T(!new)>(all: seq<Scoped<T>>, groups: seq<string>, content: T)
    ensures content in GroupPicks(all, groups) <==>
        exists a :: a in all && CoversAsGroup(a, groups) && a.content == content
  {
    GroupPicksMember(all, groups, content);
    if g :| g in groups && Scoped(GroupScope(g), content) in all {
      assert CoversAsGroup(Scoped(GroupScope(g), content), groups);
    }
    if a :| a in all && CoversAsGroup(a, groups) && a.content == content {
      assert a == Scoped(GroupScope(a.scope.group), content);
    }
  }

  /** Scoping to a single vessel or the fleet, some assignment sets the rule. */
  ghost predicate SetAt(all: seq<Scoped<SeverityMap>>, scope: Scope, rule: RuleId) {
    exists m :: Scoped(scope, m) in all && rule in m
  }

  /** Among the covering groups' assignments, those that set the rule set it to some severity. */
  lemma PicksSet(all: seq<Scoped<SeverityMap>>, groups: seq<string>, rule: RuleId)
    ensures forall c :: c in GroupPicks(all, groups) && rule in c ==> GroupSets(all, groups, rule, c[rule])
    ensures forall t :: GroupSets(all, groups, rule, t) ==>
              exists c :: c in GroupPicks(all, groups) && rule in c && c[rule] == t
  {
    forall c | c in GroupPicks(all, groups) && rule in c ensures GroupSets(all, groups, rule, c[rule]) {
      GroupContent(all, groups, c);
    }
    forall t | GroupSets(all, groups, rule, t)
      ensures exists c :: c in GroupPicks(all, groups) && rule in c && c[rule] == t
    {
      var a :| a in all && CoversAsGroup(a, groups) && rule in a.content && a.content[rule] == t;
      GroupContent(all, groups, a.content);
    }
  }

  lemma OwnDecides(all: seq<Scoped<SeverityMap>>, vessel: string, groups: seq<string>, rule: RuleId, m: SeverityMap)
    requires UniqueScopes(all) && Scoped(VesselScope(vessel), m) in all && rule in m
    ensures EffectiveSeverity(all, vessel, groups, rule) == Some(m[rule])
  {
    ScopePickIff(all, VesselScope(vessel), m);
  }

  lemma TopIsStrictest(picks: seq<SeverityMap>, rule: RuleId, top: SeverityMap)
    requires Top(picks, Sets(rule), StricterOn(rule), top)
    ensures rule in top && top in picks
    ensures forall d :: d in picks && rule in d ==> SeverityRank(top[rule]) <= SeverityRank(d[rule])
  {
    assert Sets(rule)(top);
    forall d | d in picks && rule in d ensures SeverityRank(top[rule]) <= SeverityRank(d[rule]) {
      assert Sets(rule)(d) && !StricterOn(rule)(d, top);
      assert SeverityIn(rule)(d) == d[rule] && SeverityIn(rule)(top) == top[rule];
    }
  }

  lemma GroupTop(all: seq<Scoped<SeverityMap>>, vessel: string, groups: seq<string>, rule: RuleId, c: SeverityMap)
    returns (top: SeverityMap)
    requires UniqueScopes(all) && !SetAt(all, VesselScope(vessel), rule)
    requires c in GroupPicks(all, groups) && rule in c
    ensures Top(GroupPicks(all, groups), Sets(rule), StricterOn(rule), top) && rule in top
    ensures EffectiveSeverity(all, vessel, groups, rule) == Some(top[rule])
  {
    SeverityMeaning(all, vessel, groups, rule);
    assert Sets(rule)(c);
    top := Resolve(all, vessel, groups, Sets(rule), StricterOn(rule)).value;
  }

  lemma GroupsDecide(all: seq<Scoped<SeverityMap>>, vessel: string, groups: seq<string>, rule: RuleId, set_: Severity)
    returns (s: Severity)
    requires UniqueScopes(all) && !SetAt(all, VesselScope(vessel), rule) && GroupSets(all, groups, rule, set_)
    ensures EffectiveSeverity(all, vessel, groups, rule) == Some(s) && GroupSets(all, groups, rule, s)
    ensures forall t :: GroupSets(all, groups, rule, t) ==> SeverityRank(s) <= SeverityRank(t)
  {
    PicksSet(all, groups, rule);
    var c :| c in GroupPicks(all, groups) && rule in c && c[rule] == set_;
    var top := GroupTop(all, vessel, groups, rule, c);
    TopIsStrictest(GroupPicks(all, groups), rule, top);
    s := top[rule];
  }

  lemma FleetDecides(all: seq<Scoped<SeverityMap>>, vessel: string, groups: seq<string>, rule: RuleId)
    requires UniqueScopes(all) && !SetAt(all, VesselScope(vessel), rule)
    requires forall t :: !GroupSets(all, groups, rule, t)
    ensures forall m :: Scoped(FleetScope, m) in all && rule in m ==>
              EffectiveSeverity(all, vessel, groups, rule) == Some(m[rule])
    ensures !SetAt(all, FleetScope, rule) ==> EffectiveSeverity(all, vessel, groups, rule) == None
  {
    SeverityMeaning(all, vessel, groups, rule);
    PicksSet(all, groups, rule);
    forall m | Scoped(FleetScope, m) in all && rule in m
      ensures EffectiveSeverity(all, vessel, groups, rule) == Some(m[rule])
    {
      ScopePickIff(all, FleetScope, m);
      assert Sets(rule)(m);
      FleetResolved(all, vessel, groups, rule, m);
    }
  }

  lemma FleetResolved(all: seq<Scoped<SeverityMap>>, vessel: string, groups: seq<string>, rule: RuleId, m: SeverityMap)
    requires UniqueScopes(all) && Scoped(FleetScope, m) in all && rule in m
    requires !SetAt(all, VesselScope(vessel), rule) && forall c :: c in GroupPicks(all, groups) ==> !Sets(rule)(c)
    ensures Resolve(all, vessel, groups, Sets(rule), StricterOn(rule)) == Some(m)
  {
    SeverityMeaning(all, vessel, groups, rule);
    var r := Resolve(all, vessel, groups, Sets(rule), StricterOn(rule));
    assert Sets(rule)(m);
    assert r.Some? && Scoped(FleetScope, r.value) in all;
    ScopePickIff(all, FleetScope, m);
    ScopePickIff(all, FleetScope, r.value);
  }

  /** The vessel's own severity decides. Without one, an error if any covering
      group sets the rule to it, else a warning, else an info; where no covering
      group sets the rule, the fleet's severity; and none at all otherwise. */
  lemma SeverityFromAssignments(all: seq<Scoped<SeverityMap>>, vessel: string, groups: seq<string>, rule: RuleId)
    requires UniqueScopes(all)
    ensures var severity := EffectiveSeverity(all, vessel, groups, rule);
            && (forall m :: Scoped(VesselScope(vessel), m) in all && rule in m ==> severity == Some(m[rule]))
            && (!SetAt(all, VesselScope(vessel), rule) ==>
                  if GroupSets(all, groups, rule, Error) then severity == Some(Error)
                  else if GroupSets(all, groups, rule, Warning) then severity == Some(Warning)
                  else if GroupSets(all, groups, rule, Info) then severity == Some(Info)
                  else
                    && (forall m :: Scoped(FleetScope, m) in all && rule in m ==> severity == Some(m[rule]))
                    && (!SetAt(all, FleetScope, rule) ==> severity == None))
  {
    forall m | Scoped(VesselScope(vessel), m) in all && rule in m
      ensures EffectiveSeverity(all, vessel, groups, rule) == Some(m[rule])
    {
      OwnDecides(all, vessel, groups, rule, m);
    }
    if !SetAt(all, VesselScope(vessel), rule) {
      if t :| GroupSets(all, groups, rule, t) {
        var s := GroupsDecide(all, vessel, groups, rule, t);
        assert s == Error || s == Warning || s == Info;
      } else {
        FleetDecides(all, vessel, groups, rule);
      }
    }
  }

  // ---- Cadence ----

  ghost predicate RuleAt(all: seq<Scoped<Thresholds>>, scope: Scope) {
    exists a :: a in all && a.scope == scope
  }

  /** No covering group's maximum gap is smaller, nor its minimum interval at the same gap. */
  ghost predicate Tightest(all: seq<Scoped<Thresholds>>, groups: seq<string>, t: Thresholds) {
    && (exists a :: a in all && CoversAsGroup(a, groups) && a.content == t)
    && forall a :: a in all && CoversAsGroup(a, groups) ==>
         || t.maxGapHours < a.content.maxGapHours
         || (t.maxGapHours == a.content.maxGapHours && t.minReportIntervalHours <= a.content.minReportIntervalHours)
  }

  /** A vessel's thresholds are its own rule's; else the tightest covering
      group's; else the fleet's; else a report a day with a gap of twelve hours. */
  lemma CadenceFromRules(all: seq<Scoped<Thresholds>>, vessel: string, groups: seq<string>)
    requires UniqueScopes(all)
    ensures var t := CadenceOf(all, vessel, groups);
            if RuleAt(all, VesselScope(vessel)) then Scoped(VesselScope(vessel), t) in all
            else if exists a :: a in all && CoversAsGroup(a, groups) then Tightest(all, groups, t)
            else if RuleAt(all, FleetScope) then Scoped(FleetScope, t) in all
            else t == Thresholds(24.0, 12.0)
  {
    CadenceOrder();
    ResolveMeaning(all, vessel, groups, Always(), StricterCadence());
    var r := Resolve(all, vessel, groups, Always(), StricterCadence());
    AlwaysAt(all, VesselScope(vessel));
    AlwaysAt(all, FleetScope);
    if !RuleAt(all, VesselScope(vessel)) {
      if a :| a in all && CoversAsGroup(a, groups) {
        GroupContent(all, groups, a.content);
        assert Always()(a.content);
        TopIsTightest(all, groups, r.value);
      } else {
        forall c ensures c !in GroupPicks(all, groups) {
          GroupContent(all, groups, c);
        }
      }
    }
  }

  lemma AlwaysAt(all: seq<Scoped<Thresholds>>, scope: Scope)
    ensures RuleAt(all, scope) <==> exists c :: Always()(c) && Scoped(scope, c) in all
  {
    if a :| a in all && a.scope == scope {
      assert Always()(a.content) && a == Scoped(scope, a.content);
    }
  }

  lemma TopIsTightest(all: seq<Scoped<Thresholds>>, groups: seq<string>, t: Thresholds)
    requires Top(GroupPicks(all, groups), Always(), StricterCadence(), t)
    ensures Tightest(all, groups, t)
  {
    GroupContent(all, groups, t);
    forall a | a in all && CoversAsGroup(a, groups)
      ensures || t.maxGapHours < a.content.maxGapHours
              || (t.maxGapHours == a.content.maxGapHours
                  && t.minReportIntervalHours <= a.content.minReportIntervalHours)
    {
      GroupContent(all, groups, a.content);
      assert !StricterCadence()(a.content, t);
    }
  }
}
