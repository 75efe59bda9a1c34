// Rule severities and reporting cadence, assigned by scope and resolved for
// one vessel.
module Compliance {
  import opened Prelude
  import opened Reports
  import opened Cells
  import opened Scopes
  import opened Cascade
  import opened CascadeLaws

  // ---- Rule severities ----

  type SeverityMap = map<RuleId, Severity>

  const OVERRIDABLE_RULES: seq<RuleId> := [
    TimeBucketSum, ImpliedSpeed, NoDistanceStationary, PositionRequired, PositionConsistency,
    TimeChain, ROBContinuity, EventOrdering, TimestampUniqueness
  ]

  const HARD_RULES: seq<RuleId> := [ConsumptionSchemeExclusive]

  /** Strictest first. */
  function SeverityRank(s: Severity): int {
    match s
    case Error => 0
    case Warning => 1
    case Info => 2
  }

  function SeverityIn(rule: RuleId): SeverityMap -> Severity {
    (m: SeverityMap) => if rule in m then m[rule] else Info
  }

  function Sets(rule: RuleId): SeverityMap -> bool {
    (m: SeverityMap) => rule in m
  }

  function StricterOn(rule: RuleId): (SeverityMap, SeverityMap) -> bool {
    (a: SeverityMap, b: SeverityMap) => SeverityRank(SeverityIn(rule)(a)) < SeverityRank(SeverityIn(rule)(b))
  }

  /** The override of one rule for one vessel, if any. */
  function EffectiveSeverity(all: seq<Scoped<SeverityMap>>, vessel: string, groups: seq<string>,
                             rule: RuleId): Option<Severity>
  {
    Aspect(Resolve(all, vessel, groups, Sets(rule), StricterOn(rule)), SeverityIn(rule))
  }

  /** The overrides for one vessel: a rule is overridden exactly when it may be
      and some assignment that applies says so. */
  ghost predicate IsEffective(all: seq<Scoped<SeverityMap>>, vessel: string, groups: seq<string>, result: SeverityMap) {
    && (forall rule :: rule in result ==> rule in OVERRIDABLE_RULES)
    && forall rule :: rule in OVERRIDABLE_RULES ==>
         (if rule in result then Some(result[rule]) else None) == EffectiveSeverity(all, vessel, groups, rule)
  }

  method EffectiveSeverities(all: seq<Scoped<SeverityMap>>, vessel: string, groups: seq<string>)
    returns (result: SeverityMap)
    ensures IsEffective(all, vessel, groups, result)
  {
    var own, fleet, groupPicks := Pick(all, vessel, groups);
    result := map[];
    for i := 0 to |OVERRIDABLE_RULES|
      invariant forall rule :: rule in result ==> rule in OVERRIDABLE_RULES[..i]
      invariant forall rule :: rule in OVERRIDABLE_RULES[..i] ==>
                  (if rule in result then Some(result[rule]) else None) == EffectiveSeverity(all, vessel, groups, rule)
    {
      var rule := OVERRIDABLE_RULES[i];
      RulesDistinct(i);
      assert OVERRIDABLE_RULES[..i + 1] == OVERRIDABLE_RULES[..i] + [rule];
      var group := StrictestGroupSeverity(groupPicks, rule);
      if own.Some? && rule in own.value {
        result := result[rule := own.value[rule]];
      } else if group.Some? {
        result := result[rule := group.value];
      } else if fleet.Some? && rule in fleet.value {
        result := result[rule := fleet.value[rule]];
      }
    }
    assert OVERRIDABLE_RULES[..|OVERRIDABLE_RULES|] == OVERRIDABLE_RULES;
  }

  lemma RulesDistinct(i: nat)
    requires i < |OVERRIDABLE_RULES|
    ensures OVERRIDABLE_RULES[i] !in OVERRIDABLE_RULES[..i]
  {
  }

  /** Sorts the assignments that apply into the vessel's own, the fleet's and the groups'. */
  method Pick<T>(all: seq<Scoped<T>>, vessel: string, groups: seq<string>)
    returns (own: Option<T>, fleet: Option<T>, groupPicks: seq<T>)
    ensures own == ScopePick(all, VesselScope(vessel)) && fleet == ScopePick(all, FleetScope)
    ensures groupPicks == GroupPicks(all, groups)
  {
    own, fleet, groupPicks := None, None, [];
    for i := 0 to |all|
      invariant own == ScopePick(all[..i], VesselScope(vessel)) && fleet == ScopePick(all[..i], FleetScope)
      invariant groupPicks == GroupPicks(all[..i], groups)
    {
      assert all[..i + 1][..i] == all[..i];
      match all[i].scope {
        case VesselScope(v) => if v == vessel { own := Some(all[i].content); }
        case FleetScope => fleet := Some(all[i].content);
        case GroupScope(_) =>
          if CoversVessel(all[i].scope, vessel, groups) { groupPicks := groupPicks + [all[i].content]; }
      }
    }
    assert all[..|all|] == all;
  }

  method StrictestGroupSeverity(picks: seq<SeverityMap>, rule: RuleId) returns (strictest: Option<Severity>)
    ensures strictest == Aspect(Strictest(picks, Sets(rule), StricterOn(rule)), SeverityIn(rule))
  {
    strictest := None;
    for i := 0 to |picks|
      invariant strictest == Aspect(Strictest(picks[..i], Sets(rule), StricterOn(rule)), SeverityIn(rule))
    {
      assert picks[..i + 1][..i] == picks[..i];
      if rule in picks[i] {
        if strictest.None? || SeverityRank(picks[i][rule]) < SeverityRank(strictest.value) {
          strictest := Some(picks[i][rule]);
        }
      }
    }
    assert picks[..|picks|] == picks;
  }

  // ---- What the resolved severity is ----

  lemma SeverityOrder(rule: RuleId)
    ensures StrictOrder(StricterOn(rule))
  {
  }

  /** The vessel's own severity; else the strictest one a covering group sets;
      else the fleet's; else none. */
  lemma SeverityMeaning(all: seq<Scoped<SeverityMap>>, vessel: string, groups: seq<string>, rule: RuleId)
    requires UniqueScopes(all)
    ensures IsResolved(all, vessel, groups, Sets(rule), StricterOn(rule),
                       Resolve(all, vessel, groups, Sets(rule), StricterOn(rule)))
    ensures EffectiveSeverity(all, vessel, groups, rule).Some? <==>
            exists a :: a in all && rule in a.content && CoversVessel(a.scope, vessel, groups)
  {
    SeverityOrder(rule);
    ResolveMeaning(all, vessel, groups, Sets(rule), StricterOn(rule));
    var r := Resolve(all, vessel, groups, Sets(rule), StricterOn(rule));
    if r.Some? {
      AppliesFrom(all, vessel, groups, rule, r.value);
    } else if a :| a in all && rule in a.content && CoversVessel(a.scope, vessel, groups) {
      AppliesTo(all, vessel, groups, rule, a);
    }
  }

  lemma AppliesFrom(all: seq<Scoped<SeverityMap>>, vessel: string, groups: seq<string>, rule: RuleId, m: SeverityMap)
    requires IsResolved(all, vessel, groups, Sets(rule), StricterOn(rule), Some(m))
    ensures exists a :: a in all && rule in a.content && CoversVessel(a.scope, vessel, groups)
  {
    GroupPicksMember(all, groups, m);
    if Scoped(VesselScope(vessel), m) !in all && Scoped(FleetScope, m) !in all {
      var g :| g in groups && Scoped(GroupScope(g), m) in all;
      assert CoversVessel(GroupScope(g), vessel, groups);
    }
  }

  lemma AppliesTo(all: seq<Scoped<SeverityMap>>, vessel: string, groups: seq<string>, rule: RuleId,
                  a: Scoped<SeverityMap>)
    requires a in all && rule in a.content && CoversVessel(a.scope, vessel, groups)
    ensures !IsResolved(all, vessel, groups, Sets(rule), StricterOn(rule), None)
  {
    assert Sets(rule)(a.content);
    GroupPicksMember(all, groups, a.content);
    assert a == Scoped(a.scope, a.content);
    match a.scope
    case VesselScope(_) =>
    case FleetScope =>
    case GroupScope(g) => assert g in groups && Scoped(GroupScope(g), a.content) in all;
  }

  /** With one assignment per scope the resolved severity does not depend on the order of assignments. */
  lemma SeveritiesOrderFree(all: seq<Scoped<SeverityMap>>, other: seq<Scoped<SeverityMap>>, vessel: string,
                            groups: seq<string>, rule: RuleId)
    requires UniqueScopes(all) && multiset(other) == multiset(all)
    ensures EffectiveSeverity(other, vessel, groups, rule) == EffectiveSeverity(all, vessel, groups, rule)
  {
    SeverityOrder(rule);
    ReorderedSame(all, other, vessel, groups, Sets(rule), StricterOn(rule), SeverityIn(rule));
  }

  // ---- Raising severities ----

  ghost predicate RaisedMap(strict: SeverityMap, loose: SeverityMap) {
    strict.Keys == loose.Keys && forall rule :: rule in loose ==>
        SeverityRank(strict[rule]) <= SeverityRank(loose[rule])
  }

  /** The same scopes override the same rules, none less strictly. */
  ghost predicate Raised(strict: seq<Scoped<SeverityMap>>, loose: seq<Scoped<SeverityMap>>) {
    |strict| == |loose|
    && forall i :: 0 <= i < |loose| ==>
        strict[i].scope == loose[i].scope && RaisedMap(strict[i].content, loose[i].content)
  }

  ghost predicate RaisedPick(strict: Option<SeverityMap>, loose: Option<SeverityMap>) {
    if loose.Some? then strict.Some? && RaisedMap(strict.value, loose.value) else strict.None?
  }

  lemma {:induction false} RaisedScopePick(strict: seq<Scoped<SeverityMap>>, loose: seq<Scoped<SeverityMap>>,
                                           scope: Scope)
    requires Raised(strict, loose)
    ensures RaisedPick(ScopePick(strict, scope), ScopePick(loose, scope))
  {
    if loose != [] { RaisedScopePick(strict[..|strict| - 1], loose[..|loose| - 1], scope); }
  }

  ghost predicate RaisedAll(strict: seq<SeverityMap>, loose: seq<SeverityMap>) {
    |strict| == |loose| && forall i :: 0 <= i < |loose| ==> RaisedMap(strict[i], loose[i])
  }

  lemma {:induction false} RaisedGroupPicks(strict: seq<Scoped<SeverityMap>>, loose: seq<Scoped<SeverityMap>>,
                                            groups: seq<string>)
    requires Raised(strict, loose)
    ensures RaisedAll(GroupPicks(strict, groups), GroupPicks(loose, groups))
  {
    if loose != [] { RaisedGroupPicks(strict[..|strict| - 1], loose[..|loose| - 1], groups); }
  }

  ghost predicate NoLooser(strict: Option<Severity>, loose: Option<Severity>) {
    if loose.Some? then strict.Some? && SeverityRank(strict.value) <= SeverityRank(loose.value) else strict.None?
  }

  lemma {:induction false} RaisedStrictest(strict: seq<SeverityMap>, loose: seq<SeverityMap>, rule: RuleId)
    requires RaisedAll(strict, loose)
    ensures NoLooser(Aspect(Strictest(strict, Sets(rule), StricterOn(rule)), SeverityIn(rule)),
                     Aspect(Strictest(loose, Sets(rule), StricterOn(rule)), SeverityIn(rule)))
  {
    if loose != [] { RaisedStrictest(strict[..|strict| - 1], loose[..|loose| - 1], rule); }
  }

  /** Raising assigned severities never lowers the severity a vessel gets. */
  lemma RaisingIsMonotone(strict: seq<Scoped<SeverityMap>>, loose: seq<Scoped<SeverityMap>>, vessel: string,
                          groups: seq<string>, rule: RuleId)
    requires Raised(strict, loose)
    ensures NoLooser(EffectiveSeverity(strict, vessel, groups, rule), EffectiveSeverity(loose, vessel, groups, rule))
  {
    RaisedScopePick(strict, loose, VesselScope(vessel));
    RaisedScopePick(strict, loose, FleetScope);
    RaisedGroupPicks(strict, loose, groups);
    RaisedStrictest(GroupPicks(strict, groups), GroupPicks(loose, groups), rule);
  }

  /** The configuration the office revalidates a vessel's chain with. */
  function ConfigForVessel(base: Config, overrides: SeverityMap): Config {
    base.(severities := overrides)
  }

  lemma RaisedRuleKept(base: Config, strict: seq<Scoped<SeverityMap>>, loose: seq<Scoped<SeverityMap>>, vessel: string,
                       groups: seq<string>, strictMap: SeverityMap, looseMap: SeverityMap, rule: RuleId,
                       default: Severity)
    requires Raised(strict, loose) && rule in OVERRIDABLE_RULES
    requires IsEffective(strict, vessel, groups, strictMap) && IsEffective(loose, vessel, groups, looseMap)
    ensures ErrorsKept(ConfigForVessel(base, looseMap), ConfigForVessel(base, strictMap), rule, default)
  {
    RaisingIsMonotone(strict, loose, vessel, groups, rule);
  }

  /** Raising any assigned severities only adds to what cascade revalidation of
      any chain invalidates, for every vessel. */
  lemma RaisingOnlyInvalidatesMore(base: Config, strict: seq<Scoped<SeverityMap>>, loose: seq<Scoped<SeverityMap>>,
                                   vessel: string, groups: seq<string>, strictMap: SeverityMap, looseMap: SeverityMap,
                                   chain: seq<Report>, id: string)
    requires Raised(strict, loose)
    requires IsEffective(strict, vessel, groups, strictMap) && IsEffective(loose, vessel, groups, looseMap)
    ensures forall rule :: rule in Verdict(chain, ConfigForVessel(base, looseMap), id) ==>
                           rule in Verdict(chain, ConfigForVessel(base, strictMap), id)
    ensures Verdicts(chain, ConfigForVessel(base, looseMap)).Keys
        <= Verdicts(chain, ConfigForVessel(base, strictMap)).Keys
  {
    RaisedRuleKept(base, strict, loose, vessel, groups, strictMap, looseMap, TimeChain, Warning);
    RaisedRuleKept(base, strict, loose, vessel, groups, strictMap, looseMap, ROBContinuity, Warning);
    RaisedRuleKept(base, strict, loose, vessel, groups, strictMap, looseMap, EventOrdering, Warning);
    RaisedRuleKept(base, strict, loose, vessel, groups, strictMap, looseMap, TimestampUniqueness, Error);
    StricterOnlyAdds(chain, ConfigForVessel(base, looseMap), ConfigForVessel(base, strictMap), id);
  }

  // ---- Reporting cadence ----

  datatype Thresholds = Thresholds(minReportIntervalHours: real, maxGapHours: real)

  const DEFAULT_THRESHOLDS := Thresholds(24.0, 12.0)

  function StricterCadence(): (Thresholds, Thresholds) -> bool {
    (a: Thresholds, b: Thresholds) =>
      if a.maxGapHours != b.maxGapHours then a.maxGapHours < b.maxGapHours
      else a.minReportIntervalHours < b.minReportIntervalHours
  }

  function Always(): Thresholds -> bool {
    (_: Thresholds) => true
  }

  function Itself(): Thresholds -> Thresholds {
    (t: Thresholds) => t
  }

  function CadenceOf(all: seq<Scoped<Thresholds>>, vessel: string, groups: seq<string>): Thresholds {
    match Resolve(all, vessel, groups, Always(), StricterCadence())
    case Some(t) => t
    case None => DEFAULT_THRESHOLDS
  }

  method EffectiveCadence(all: seq<Scoped<Thresholds>>, vessel: string, groups: seq<string>) returns (t: Thresholds)
    ensures t == CadenceOf(all, vessel, groups)
  {
    var own, fleet, group := None, None, None;
    for i := 0 to |all|
      invariant own == ScopePick(all[..i], VesselScope(vessel)) && fleet == ScopePick(all[..i], FleetScope)
      invariant group == Strictest(GroupPicks(all[..i], groups), Always(), StricterCadence())
    {
      assert all[..i + 1][..i] == all[..i];
      NextGroupPick(all, i, groups);
      var rule := all[i].content;
      match all[i].scope {
        case VesselScope(v) => if v == vessel { own := Some(rule); }
        case FleetScope => fleet := Some(rule);
        case GroupScope(_) =>
          if CoversVessel(all[i].scope, vessel, groups) {
            if group.None? || StricterCadence()(rule, group.value) { group := Some(rule); }
          }
      }
    }
    assert all[..|all|] == all;
    return if own.Some? then own.value else if group.Some? then group.value
           else if fleet.Some? then fleet.value else DEFAULT_THRESHOLDS;
  }

  lemma NextGroupPick(all: seq<Scoped<Thresholds>>, i: nat, groups: seq<string>)
    requires i < |all|
    ensures Strictest(GroupPicks(all[..i + 1], groups), Always(), StricterCadence()) ==
            if all[i].scope.GroupScope? && all[i].scope.group in groups then
              var before := Strictest(GroupPicks(all[..i], groups), Always(), StricterCadence());
              if before.None? || StricterCadence()(all[i].content, before.value) then Some(all[i].content) else before
            else Strictest(GroupPicks(all[..i], groups), Always(), StricterCadence())
  {
    assert all[..i + 1][..i] == all[..i];
    var picks := GroupPicks(all[..i], groups);
    var next := if all[i].scope.GroupScope? && all[i].scope.group in groups then [all[i].content] else [];
    assert GroupPicks(all[..i + 1], groups) == picks + next;
    assert next == [] ==> picks + next == picks;
    assert next != [] ==> (picks + next)[..|picks|] == picks && Always()(all[i].content);
  }

  lemma CadenceOrder()
    ensures StrictOrder(StricterCadence())
  {
  }

  /** The vessel's thresholds; else those of a covering group that no covering
      group's undercut; else the fleet's; else the defaults. */
  lemma CadenceMeaning(all: seq<Scoped<Thresholds>>, vessel: string, groups: seq<string>)
    requires UniqueScopes(all)
    ensures IsResolved(all, vessel, groups, Always(), StricterCadence(),
                       Resolve(all, vessel, groups, Always(), StricterCadence()))
    ensures (forall a :: a in all ==> !CoversVessel(a.scope, vessel, groups)) ==>
              CadenceOf(all, vessel, groups) == DEFAULT_THRESHOLDS
    ensures forall a :: a in all && a.scope.GroupScope? && a.scope.group in groups
                        && (forall b :: b in all ==> b.scope != VesselScope(vessel)) ==>
                          CadenceOf(all, vessel, groups).maxGapHours <= a.content.maxGapHours
  {
    CadenceOrder();
    ResolveMeaning(all, vessel, groups, Always(), StricterCadence());
    if forall a :: a in all ==> !CoversVessel(a.scope, vessel, groups) {
      NoCoverNoRule(all, vessel, groups);
    }
    forall a | a in all && a.scope.GroupScope? && a.scope.group in groups
        && (forall b :: b in all ==> b.scope != VesselScope(vessel))
      ensures CadenceOf(all, vessel, groups).maxGapHours <= a.content.maxGapHours
    {
      assert a == Scoped(GroupScope(a.scope.group), a.content);
      GroupPicksMember(all, groups, a.content);
      assert Always()(a.content);
    }
  }

  lemma NoCoverNoRule(all: seq<Scoped<Thresholds>>, vessel: string, groups: seq<string>)
    requires forall a :: a in all ==> !CoversVessel(a.scope, vessel, groups)
    ensures Resolve(all, vessel, groups, Always(), StricterCadence()) == None
  {
    ScopePickMember(all, VesselScope(vessel));
    ScopePickMember(all, FleetScope);
    NoCoverNoPicks(all, vessel, groups);
  }

  lemma {:induction false} NoCoverNoPicks(all: seq<Scoped<Thresholds>>, vessel: string, groups: seq<string>)
    requires forall a :: a in all ==> !CoversVessel(a.scope, vessel, groups)
    ensures GroupPicks(all, groups) == []
  {
    if all != [] {
      assert all[|all| - 1] in all;
      NoCoverNoPicks(all[..|all| - 1], vessel, groups);
    }
  }

  /** With one rule per scope the thresholds do not depend on the order of rules. */
  lemma CadenceOrderFree(all: seq<Scoped<Thresholds>>, other: seq<Scoped<Thresholds>>, vessel: string,
                         groups: seq<string>)
    requires UniqueScopes(all) && multiset(other) == multiset(all)
    ensures CadenceOf(other, vessel, groups) == CadenceOf(all, vessel, groups)
  {
    CadenceOrder();
    var picks := GroupPicks(all, groups);
    forall a, b | Top(picks, Always(), StricterCadence(), a) && Top(picks, Always(), StricterCadence(), b)
      ensures Itself()(a) == Itself()(b)
    {
      assert !StricterCadence()(a, b) && !StricterCadence()(b, a);
    }
    ReorderedSame(all, other, vessel, groups, Always(), StricterCadence(), Itself());
  }

  // ---- Regulatory profiles ----

  datatype Profile = MRV | DCS | CII | VoyageVerification

  const ALL_PROFILES: seq<Profile> := [MRV, DCS, CII, VoyageVerification]

  /** Some assignment that covers the vessel turns the profile on. */
  ghost predicate Enabled(all: seq<Scoped<seq<Profile>>>, vessel: string, groups: seq<string>, p: Profile) {
    exists a :: a in all && CoversVessel(a.scope, vessel, groups) && p in a.content
  }

  ghost function EnabledOf(all: seq<Scoped<seq<Profile>>>, vessel: string, groups: seq<string>,
                           known: seq<Profile>): seq<Profile>
  {
    if known == [] then []
    else
      var last := known[|known| - 1];
      EnabledOf(all, vessel, groups, known[..|known| - 1]) + if Enabled(all, vessel, groups, last) then [last] else []
  }

  /** The union over all covering assignments, in the fixed order. */
  method EffectiveProfiles(all: seq<Scoped<seq<Profile>>>, vessel: string, groups: seq<string>)
    returns (out: seq<Profile>)
    ensures out == EnabledOf(all, vessel, groups, ALL_PROFILES)
    ensures forall p :: p in out <==> Enabled(all, vessel, groups, p)
  {
    var enabled: set<Profile> := {};
    for i := 0 to |all|
      invariant forall p :: p in enabled <==> Enabled(all[..i], vessel, groups, p)
    {
      OneMoreAssignment(all, i, vessel, groups);
      if CoversVessel(all[i].scope, vessel, groups) {
        enabled := enabled + set p | p in all[i].content;
      }
    }
    assert all[..|all|] == all;
    out := [];
    for i := 0 to |ALL_PROFILES|
      invariant out == EnabledOf(all, vessel, groups, ALL_PROFILES[..i])
    {
      assert ALL_PROFILES[..i + 1][..i] == ALL_PROFILES[..i];
      if ALL_PROFILES[i] in enabled { out := out + [ALL_PROFILES[i]]; }
    }
    assert ALL_PROFILES[..|ALL_PROFILES|] == ALL_PROFILES;
    forall p ensures p in out <==> Enabled(all, vessel, groups, p) {
      EnabledMember(all, vessel, groups, ALL_PROFILES, p);
      EveryProfileKnown(p);
    }
  }

  lemma EveryProfileKnown(p: Profile)
    ensures p in ALL_PROFILES
  {
    assert ALL_PROFILES[0] == MRV && ALL_PROFILES[1] == DCS && ALL_PROFILES[2] == CII
        && ALL_PROFILES[3] == VoyageVerification;
  }

  lemma OneMoreAssignment(all: seq<Scoped<seq<Profile>>>, i: nat, vessel: string, groups: seq<string>)
    requires i < |all|
    ensures forall p :: Enabled(all[..i + 1], vessel, groups, p) <==>
                        Enabled(all[..i], vessel, groups, p)
                            || (CoversVessel(all[i].scope, vessel, groups) && p in all[i].content)
  {
    assert all[..i + 1] == all[..i] + [all[i]];
    forall p ensures Enabled(all[..i + 1], vessel, groups, p) <==>
                     Enabled(all[..i], vessel, groups, p)
                         || (CoversVessel(all[i].scope, vessel, groups) && p in all[i].content)
    {
      if Enabled(all[..i], vessel, groups, p) {
        var a :| a in all[..i] && CoversVessel(a.scope, vessel, groups) && p in a.content;
        assert a in all[..i + 1];
      }
    }
  }

  lemma {:induction false} EnabledMember(all: seq<Scoped<seq<Profile>>>, vessel: string, groups: seq<string>,
                                         known: seq<Profile>, p: Profile)
    ensures p in EnabledOf(all, vessel, groups, known) <==> p in known && Enabled(all, vessel, groups, p)
  {
    if known != [] {
      EnabledMember(all, vessel, groups, known[..|known| - 1], p);
      assert p in known <==> p in known[..|known| - 1] || p == known[|known| - 1];
    }
  }

  // ---- The assignments as the office holds and edits them ----

  datatype SetResult = Set | HardRuleLocked | UnknownRule | UnknownSeverity

  /** One scope's severity overrides. */
  class RuleSeverityAssignment {
    const scope: Scope
    const severities: Cell<SeverityMap>

    constructor (scope: Scope, severities: Cell<SeverityMap>)
      ensures this.scope == scope && this.severities == severities
    {
      this.scope := scope;
      this.severities := severities;
    }

    /** `None` stands for a text that names no severity. */
    method SetSeverity(rule: RuleId, severity: Option<Severity>) returns (r: SetResult)
      modifies severities
      ensures r.HardRuleLocked? <==> rule in HARD_RULES
      ensures r.UnknownSeverity? <==> rule in OVERRIDABLE_RULES && severity == None
      ensures r.Set? <==> rule in OVERRIDABLE_RULES && severity != None
      ensures severities.value
           == if r.Set? then old(severities.value)[rule := severity.value] else old(severities.value)
    {
      if rule in HARD_RULES { return HardRuleLocked; }
      if rule !in OVERRIDABLE_RULES { return UnknownRule; }
      if severity.None? { return UnknownSeverity; }
      severities.value := severities.value[rule := severity.value];
      return Set;
    }
  }

  /** One scope's enabled profiles. */
  class ProfileAssignment {
    const scope: Scope
    const profiles: Cell<seq<Profile>>

    constructor (scope: Scope, profiles: Cell<seq<Profile>>)
      ensures this.scope == scope && this.profiles == profiles
    {
      this.scope := scope;
      this.profiles := profiles;
    }
  }

  /** One scope's thresholds. */
  class CadenceRule {
    const scope: Scope
    const thresholds: Cell<Thresholds>

    constructor (scope: Scope, thresholds: Cell<Thresholds>)
      ensures this.scope == scope && this.thresholds == thresholds
    {
      this.scope := scope;
      this.thresholds := thresholds;
    }
  }
}
