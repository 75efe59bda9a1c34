// Company field policy: one rule per field (its state and the voyage events it
// is narrowed to) and a prefill class, authored by scope and resolved for a
// vessel field by field.
module FieldPolicy {
  import opened Prelude
  import opened Cells
  import opened Scopes

  datatype State = Hidden | Optional | Recommended | CompanyMandatory | SchemaMandatory | UnknownState(name: string)

  datatype PrefillClass = NoPrefill | CarryForward | Computed | Ghost | UnknownClass(name: string)

  /** What one scope says about one schema version's fields. */
  datatype Rules = Rules(schemaName: string, schemaVersion: string,
                         policy: map<string, State>, events: map<string, seq<string>>,
                         prefill: map<string, PrefillClass>)

  type Assignment = Scoped<Rules>

  // ---- Ranking ----

  function PolicyStateRank(s: State): int {
    match s
    case Hidden => 0
    case Optional => 1
    case Recommended => 2
    case CompanyMandatory => 3
    case _ => 1
  }

  /** A rule without a state loses to every state. */
  function RuleRank(a: Rules, field: string): int {
    if field in a.policy then PolicyStateRank(a.policy[field]) else -1
  }

  function HasRule(field: string): Rules -> bool {
    (a: Rules) => field in a.policy || field in a.events
  }

  function StricterRule(field: string): (Rules, Rules) -> bool {
    (a: Rules, b: Rules) => RuleRank(a, field) > RuleRank(b, field)
  }

  /** A field's rule, as one piece. */
  datatype FieldRule = FieldRule(state: Option<State>, events: Option<seq<string>>)

  function StateOf(a: Rules, field: string): Option<State> {
    if field in a.policy then Some(a.policy[field]) else None
  }

  function RuleOf(field: string): Rules -> FieldRule {
    (a: Rules) => FieldRule(StateOf(a, field), if field in a.events then Some(a.events[field]) else None)
  }

  function StateAspect(field: string): Rules -> Option<State> {
    (a: Rules) => StateOf(a, field)
  }

  const NO_RULE := FieldRule(None, None)

  function HasPrefill(field: string): Rules -> bool {
    (a: Rules) => field in a.prefill
  }

  /** Prefill classes are not ranked: the first covering group's stands. */
  function NeverStricter(): (Rules, Rules) -> bool {
    (_: Rules, _: Rules) => false
  }

  function PrefillOf(field: string): Rules -> PrefillClass {
    (a: Rules) => if field in a.prefill then a.prefill[field] else NoPrefill
  }

  // ---- Resolution ----

  function ForSchema(all: seq<Assignment>, name: string, version: string): seq<Assignment> {
    if all == [] then []
    else
      var last := all[|all| - 1];
      ForSchema(all[..|all| - 1], name, version)
      + if last.content.schemaName == name && last.content.schemaVersion == version then [last] else []
  }

  /** The assignment whose rule for the field applies to the vessel. */
  function Winner(rules: seq<Assignment>, vessel: string, groups: seq<string>, field: string): Option<Rules> {
    Resolve(rules, vessel, groups, HasRule(field), StricterRule(field))
  }

  function WinningRuleOf(rules: seq<Assignment>, vessel: string, groups: seq<string>, field: string): FieldRule {
    match Winner(rules, vessel, groups, field)
    case Some(a) => RuleOf(field)(a)
    case None => NO_RULE
  }

  function WinningPrefill(rules: seq<Assignment>, vessel: string, groups: seq<string>,
                          field: string): Option<PrefillClass>
  {
    Aspect(Resolve(rules, vessel, groups, HasPrefill(field), NeverStricter()), PrefillOf(field))
  }

  /** Every field of the result has the winning rule and prefill class, and no other. */
  ghost predicate IsEffectivePolicy(rules: seq<Assignment>, vessel: string, groups: seq<string>, result: Rules) {
    RulesResolved(rules, vessel, groups, result) && PrefillsResolved(rules, vessel, groups, result.prefill)
  }

  ghost predicate RulesResolved(rules: seq<Assignment>, vessel: string, groups: seq<string>, result: Rules) {
    forall field :: RuleOf(field)(result) == WinningRuleOf(rules, vessel, groups, field)
  }

  ghost predicate PrefillsResolved(rules: seq<Assignment>, vessel: string, groups: seq<string>,
                                   prefill: map<string, PrefillClass>)
  {
    forall field ::
        (if field in prefill then Some(prefill[field]) else None) == WinningPrefill(rules, vessel, groups, field)
  }

  /** Sorts the assignments for one schema version into the vessel's own, the fleet's and the groups'. */
  method PickForSchema(all: seq<Assignment>, vessel: string, groups: seq<string>, name: string, version: string)
    returns (own: Option<Rules>, fleet: Option<Rules>, groupPicks: seq<Rules>)
    ensures var rules := ForSchema(all, name, version);
            && own == ScopePick(rules, VesselScope(vessel)) && fleet == ScopePick(rules, FleetScope)
            && groupPicks == GroupPicks(rules, groups)
  {
    own, fleet, groupPicks := None, None, [];
    for i := 0 to |all|
      invariant own == ScopePick(ForSchema(all[..i], name, version), VesselScope(vessel))
      invariant fleet == ScopePick(ForSchema(all[..i], name, version), FleetScope)
      invariant groupPicks == GroupPicks(ForSchema(all[..i], name, version), groups)
    {
      SchemaOneMore(all, i, name, version);
      var a := all[i];
      if a.content.schemaName == name && a.content.schemaVersion == version {
        PicksOneMore(ForSchema(all[..i], name, version), a, vessel, groups);
        match a.scope {
          case VesselScope(v) => if v == vessel { own := Some(a.content); }
          case FleetScope => fleet := Some(a.content);
          case GroupScope(_) =>
            if CoversVessel(a.scope, vessel, groups) { groupPicks := groupPicks + [a.content]; }
        }
      }
    }
    assert all[..|all|] == all;
  }

  lemma SchemaOneMore(all: seq<Assignment>, i: nat, name: string, version: string)
    requires i < |all|
    ensures ForSchema(all[..i + 1], name, version)
         == if all[i].content.schemaName == name && all[i].content.schemaVersion == version
            then ForSchema(all[..i], name, version) + [all[i]] else ForSchema(all[..i], name, version)
  {
    assert all[..i + 1][..i] == all[..i];
  }

  lemma PicksOneMore(rules: seq<Assignment>, a: Assignment, vessel: string, groups: seq<string>)
    ensures forall scope :: ScopePick(rules + [a], scope)
                         == if a.scope == scope then Some(a.content) else ScopePick(rules, scope)
    ensures GroupPicks(rules + [a], groups)
         == if a.scope.GroupScope? && a.scope.group in groups then GroupPicks(rules, groups) + [a.content]
            else GroupPicks(rules, groups)
  {
    assert (rules + [a])[..|rules|] == rules;
  }

  method StrictestGroupRule(picks: seq<Rules>, field: string) returns (winner: Option<Rules>)
    ensures winner == Strictest(picks, HasRule(field), StricterRule(field))
  {
    winner := None;
    var best := 0;
    for i := 0 to |picks|
      invariant winner == Strictest(picks[..i], HasRule(field), StricterRule(field))
      invariant winner.Some? ==> best == RuleRank(winner.value, field)
    {
      assert picks[..i + 1][..i] == picks[..i];
      var a := picks[i];
      if HasRule(field)(a) {
        var rank := -1;
        if field in a.policy { rank := PolicyStateRank(a.policy[field]); }
        if winner.None? || rank > best { winner, best := Some(a), rank; }
      }
    }
    assert picks[..|picks|] == picks;
  }

  method WinningRule(own: Option<Rules>, fleet: Option<Rules>, groupPicks: seq<Rules>, field: string)
    returns (winner: Option<Rules>)
    ensures winner == Chosen(own, fleet, Strictest(groupPicks, HasRule(field), StricterRule(field)), HasRule(field))
  {
    if own.Some? && HasRule(field)(own.value) { return own; }
    var group := StrictestGroupRule(groupPicks, field);
    if group.Some? { return group; }
    if fleet.Some? && HasRule(field)(fleet.value) { return fleet; }
    return None;
  }

  function Chosen(own: Option<Rules>, fleet: Option<Rules>, group: Option<Rules>, has: Rules -> bool): Option<Rules> {
    if Says(own, has) then own else if group.Some? then group else if Says(fleet, has) then fleet else None
  }

  method FirstGroupPrefill(picks: seq<Rules>, field: string) returns (class_: Option<PrefillClass>)
    ensures class_ == Aspect(Strictest(picks, HasPrefill(field), NeverStricter()), PrefillOf(field))
    ensures class_.None? <==> forall i :: 0 <= i < |picks| ==> field !in picks[i].prefill
    ensures class_.Some? ==> exists i :: 0 <= i < |picks| && field in picks[i].prefill
                                         && class_ == Some(picks[i].prefill[field])
                                         && forall j :: 0 <= j < i ==> field !in picks[j].prefill
  {
    for i := 0 to |picks|
      invariant Strictest(picks[..i], HasPrefill(field), NeverStricter()) == None
      invariant forall j :: 0 <= j < i ==> field !in picks[j].prefill
    {
      assert picks[..i + 1][..i] == picks[..i];
      if field in picks[i].prefill {
        FirstStays(picks, i + 1, field);
        return Some(picks[i].prefill[field]);
      }
    }
    assert picks[..|picks|] == picks;
    return None;
  }

  lemma {:induction false} FirstStays(picks: seq<Rules>, i: nat, field: string)
    requires i <= |picks| && Strictest(picks[..i], HasPrefill(field), NeverStricter()).Some?
    ensures Strictest(picks, HasPrefill(field), NeverStricter())
        == Strictest(picks[..i], HasPrefill(field), NeverStricter())
    decreases |picks|
  {
    if i < |picks| {
      assert picks[..|picks| - 1][..i] == picks[..i];
      FirstStays(picks[..|picks| - 1], i, field);
    } else {
      assert picks[..i] == picks;
    }
  }

  /** Copies a field's whole rule, leaving out the half the winner does not set. */
  function TakeRule(result: Rules, from: Rules, field: string): Rules {
    result.(policy := if field in from.policy then result.policy[field := from.policy[field]] else result.policy,
            events := if field in from.events then result.events[field := from.events[field]] else result.events)
  }

  function RuledNames(a: Rules): set<string> {
    a.policy.Keys + a.events.Keys
  }

  function OptionNames(pick: Option<Rules>): set<string> {
    if pick.Some? then RuledNames(pick.value) else {}
  }

  function OptionPrefills(pick: Option<Rules>): set<string> {
    if pick.Some? then pick.value.prefill.Keys else {}
  }

  function GroupNames(picks: seq<Rules>): set<string> {
    if picks == [] then {} else GroupNames(picks[..|picks| - 1]) + RuledNames(picks[|picks| - 1])
  }

  function GroupPrefills(picks: seq<Rules>): set<string> {
    if picks == [] then {} else GroupPrefills(picks[..|picks| - 1]) + picks[|picks| - 1].prefill.Keys
  }

  /** The names any of the assignments that apply rules on, and those any of them prefills. */
  method CollectNames(own: Option<Rules>, fleet: Option<Rules>, groupPicks: seq<Rules>)
    returns (fields: set<string>, prefills: set<string>)
    ensures fields == OptionNames(own) + OptionNames(fleet) + GroupNames(groupPicks)
    ensures prefills == OptionPrefills(own) + OptionPrefills(fleet) + GroupPrefills(groupPicks)
  {
    fields, prefills := {}, {};
    for i := 0 to |groupPicks|
      invariant fields == GroupNames(groupPicks[..i]) && prefills == GroupPrefills(groupPicks[..i])
    {
      assert groupPicks[..i + 1][..i] == groupPicks[..i];
      fields := fields + RuledNames(groupPicks[i]);
      prefills := prefills + groupPicks[i].prefill.Keys;
    }
    assert groupPicks[..|groupPicks|] == groupPicks;
    fields := OptionNames(own) + OptionNames(fleet) + fields;
    prefills := OptionPrefills(own) + OptionPrefills(fleet) + prefills;
  }

  /** No covering group rules on, or prefills, a field outside the collected names. */
  lemma {:induction false} UnnamedByGroups(picks: seq<Rules>, field: string)
    ensures field !in GroupNames(picks) ==> Strictest(picks, HasRule(field), StricterRule(field)) == None
    ensures field !in GroupPrefills(picks) ==> Strictest(picks, HasPrefill(field), NeverStricter()) == None
  {
    if picks != [] { UnnamedByGroups(picks[..|picks| - 1], field); }
  }

  function RuleFor(own: Option<Rules>, fleet: Option<Rules>, groupPicks: seq<Rules>, field: string): FieldRule {
    match Chosen(own, fleet, Strictest(groupPicks, HasRule(field), StricterRule(field)), HasRule(field))
    case Some(a) => RuleOf(field)(a)
    case None => NO_RULE
  }

  /** The fields done have their winning rule, and no other field has one. */
  ghost predicate RulesTaken(result: Rules, own: Option<Rules>, fleet: Option<Rules>, groupPicks: seq<Rules>,
                             done: set<string>)
  {
    forall field :: RuleOf(field)(result) == if field in done then RuleFor(own, fleet, groupPicks, field) else NO_RULE
  }

  lemma TakingOne(result: Rules, own: Option<Rules>, fleet: Option<Rules>, groupPicks: seq<Rules>, done: set<string>,
                  field: string, winner: Option<Rules>)
    requires RulesTaken(result, own, fleet, groupPicks, done) && field !in done
    requires winner == Chosen(own, fleet, Strictest(groupPicks, HasRule(field), StricterRule(field)), HasRule(field))
    ensures RulesTaken(if winner.Some? then TakeRule(result, winner.value, field) else result,
                       own, fleet, groupPicks, done + {field})
  {
    var after := if winner.Some? then TakeRule(result, winner.value, field) else result;
    assert RuleOf(field)(result) == NO_RULE;
    forall f ensures RuleOf(f)(after) == if f in done + {field} then RuleFor(own, fleet, groupPicks, f) else NO_RULE {
      if f != field { assert RuleOf(f)(after) == RuleOf(f)(result); }
    }
  }

  method TakeRules(empty: Rules, own: Option<Rules>, fleet: Option<Rules>, groupPicks: seq<Rules>, fields: set<string>)
    returns (result: Rules)
    requires RulesTaken(empty, own, fleet, groupPicks, {})
    ensures RulesTaken(result, own, fleet, groupPicks, fields)
    ensures result == empty.(policy := result.policy, events := result.events)
  {
    result := empty;
    var left := fields;
    while left != {}
      invariant left <= fields
      invariant RulesTaken(result, own, fleet, groupPicks, fields - left)
      invariant result == empty.(policy := result.policy, events := result.events)
      decreases left
    {
      var field :| field in left;
      var winner := WinningRule(own, fleet, groupPicks, field);
      TakingOne(result, own, fleet, groupPicks, fields - left, field, winner);
      if winner.Some? { result := TakeRule(result, winner.value, field); }
      assert fields - left + {field} == fields - (left - {field});
      left := left - {field};
    }
    assert fields - left == fields;
  }

  function PrefillFor(own: Option<Rules>, fleet: Option<Rules>, groupPicks: seq<Rules>,
                      field: string): Option<PrefillClass>
  {
    Aspect(Chosen(own, fleet, Strictest(groupPicks, HasPrefill(field), NeverStricter()), HasPrefill(field)),
           PrefillOf(field))
  }

  ghost predicate PrefillsTaken(prefill: map<string, PrefillClass>, own: Option<Rules>, fleet: Option<Rules>,
                                groupPicks: seq<Rules>, done: set<string>)
  {
    forall field :: (if field in prefill then Some(prefill[field]) else None)
                    == if field in done then PrefillFor(own, fleet, groupPicks, field) else None
  }

  method TakePrefills(own: Option<Rules>, fleet: Option<Rules>, groupPicks: seq<Rules>, prefills: set<string>)
    returns (prefill: map<string, PrefillClass>)
    ensures PrefillsTaken(prefill, own, fleet, groupPicks, prefills)
  {
    prefill := map[];
    var left := prefills;
    while left != {}
      invariant left <= prefills
      invariant PrefillsTaken(prefill, own, fleet, groupPicks, prefills - left)
      decreases left
    {
      var field :| field in left;
      var group := FirstGroupPrefill(groupPicks, field);
      assert prefills - (left - {field}) == prefills - left + {field};
      if own.Some? && field in own.value.prefill {
        prefill := prefill[field := own.value.prefill[field]];
      } else if group.Some? {
        prefill := prefill[field := group.value];
      } else if fleet.Some? && field in fleet.value.prefill {
        prefill := prefill[field := fleet.value.prefill[field]];
      }
      left := left - {field};
    }
    assert prefills - left == prefills;
  }

  method EffectiveFieldPolicy(all: seq<Assignment>, vessel: string, groups: seq<string>, name: string, version: string)
    returns (result: Rules)
    ensures IsEffectivePolicy(ForSchema(all, name, version), vessel, groups, result)
    ensures result.schemaName == name && result.schemaVersion == version
  {
    var own, fleet, groupPicks := PickForSchema(all, vessel, groups, name, version);
    var fields, prefills := CollectNames(own, fleet, groupPicks);
    var ruled := TakeRules(Rules(name, version, map[], map[], map[]), own, fleet, groupPicks, fields);
    var prefill := TakePrefills(own, fleet, groupPicks, prefills);
    result := ruled.(prefill := prefill);
    ghost var rules := ForSchema(all, name, version);
    AllRulesTaken(rules, vessel, groups, ruled, own, fleet, groupPicks);
    AllPrefillsTaken(rules, vessel, groups, prefill, own, fleet, groupPicks);
    SameRulesResolved(rules, vessel, groups, ruled, result);
  }

  lemma RuleForIsWinning(rules: seq<Assignment>, vessel: string, groups: seq<string>, field: string)
    ensures RuleFor(ScopePick(rules, VesselScope(vessel)), ScopePick(rules, FleetScope), GroupPicks(rules, groups),
                    field)
         == WinningRuleOf(rules, vessel, groups, field)
    ensures PrefillFor(ScopePick(rules, VesselScope(vessel)), ScopePick(rules, FleetScope), GroupPicks(rules, groups),
                       field)
         == WinningPrefill(rules, vessel, groups, field)
  {
  }

  lemma UncollectedField(own: Option<Rules>, fleet: Option<Rules>, picks: seq<Rules>, field: string)
    ensures field !in OptionNames(own) + OptionNames(fleet) + GroupNames(picks) ==>
        RuleFor(own, fleet, picks, field) == NO_RULE
    ensures field !in OptionPrefills(own) + OptionPrefills(fleet) + GroupPrefills(picks) ==>
              PrefillFor(own, fleet, picks, field) == None
  {
    UnnamedByGroups(picks, field);
  }

  lemma AllRulesTaken(rules: seq<Assignment>, vessel: string, groups: seq<string>, result: Rules, own: Option<Rules>,
                      fleet: Option<Rules>, picks: seq<Rules>)
    requires own == ScopePick(rules, VesselScope(vessel)) && fleet == ScopePick(rules, FleetScope)
    requires picks == GroupPicks(rules, groups)
    requires RulesTaken(result, own, fleet, picks, OptionNames(own) + OptionNames(fleet) + GroupNames(picks))
    ensures RulesResolved(rules, vessel, groups, result)
  {
    forall field ensures RuleOf(field)(result) == WinningRuleOf(rules, vessel, groups, field) {
      UncollectedField(own, fleet, picks, field);
      RuleForIsWinning(rules, vessel, groups, field);
    }
  }

  lemma AllPrefillsTaken(rules: seq<Assignment>, vessel: string, groups: seq<string>,
                         prefill: map<string, PrefillClass>, own: Option<Rules>, fleet: Option<Rules>,
                         picks: seq<Rules>)
    requires own == ScopePick(rules, VesselScope(vessel)) && fleet == ScopePick(rules, FleetScope)
    requires picks == GroupPicks(rules, groups)
    requires PrefillsTaken(prefill, own, fleet, picks,
                           OptionPrefills(own) + OptionPrefills(fleet) + GroupPrefills(picks))
    ensures PrefillsResolved(rules, vessel, groups, prefill)
  {
    forall field ensures (if field in prefill then Some(prefill[field]) else None)
        == WinningPrefill(rules, vessel, groups, field) {
      UncollectedField(own, fleet, picks, field);
      RuleForIsWinning(rules, vessel, groups, field);
    }
  }

  lemma SameRulesResolved(rules: seq<Assignment>, vessel: string, groups: seq<string>, a: Rules, b: Rules)
    requires RulesResolved(rules, vessel, groups, a) && b.policy == a.policy && b.events == a.events
    ensures RulesResolved(rules, vessel, groups, b)
  {
    forall field ensures RuleOf(field)(b) == WinningRuleOf(rules, vessel, groups, field) {
      assert RuleOf(field)(a) == WinningRuleOf(rules, vessel, groups, field);
    }
  }

  // ---- Authoring ----

  const ALL_EVENTS := "*"

  /** The first entry that settles the matter: the wildcard, or an unknown event. */
  function FirstStop(events: seq<string>, valid: Option<set<string>>): (k: nat)
    ensures k <= |events|
  {
    if events == [] then 0
    else if events[0] == ALL_EVENTS || (valid.Some? && events[0] !in valid.value) then 0
    else 1 + FirstStop(events[1..], valid)
  }

  lemma {:induction false} FirstStopMeaning(events: seq<string>, valid: Option<set<string>>, i: nat)
    requires i <= |events|
    requires forall j :: 0 <= j < i ==> events[j] != ALL_EVENTS && (valid.Some? ==> events[j] in valid.value)
    ensures FirstStop(events, valid) >= i
    ensures i < |events| && (events[i] == ALL_EVENTS || (valid.Some? && events[i] !in valid.value)) ==>
        FirstStop(events, valid) == i
    ensures i == |events| ==> FirstStop(events, valid) == i
  {
    if i > 0 { FirstStopMeaning(events[1..], valid, i - 1); }
  }

  /** The event lists after setting a field's list: kept if the list is refused,
      the entry removed for the wildcard or the empty list, the list stored otherwise. */
  function EventsAfter(events: map<string, seq<string>>, field: string, list: seq<string>, valid: Option<set<string>>)
    : map<string, seq<string>>
  {
    var k := FirstStop(list, valid);
    if k < |list| && list[k] != ALL_EVENTS then events
    else if k < |list| || list == [] then events - {field}
    else events[field := list]
  }

  /** Refused, or asking for what is there already. */
  predicate LeavesEvents(events: map<string, seq<string>>, field: string, list: seq<string>, valid: Option<set<string>>)
  {
    var k := FirstStop(list, valid);
    if k < |list| && list[k] != ALL_EVENTS then true
    else if k < |list| || list == [] then field !in events
    else field in events && events[field] == list
  }

  lemma LeavesEventsIff(events: map<string, seq<string>>, field: string, list: seq<string>, valid: Option<set<string>>)
    ensures EventsAfter(events, field, list, valid) == events <==> LeavesEvents(events, field, list, valid)
    ensures forall f :: f != field ==>
              (f in EventsAfter(events, field, list, valid) <==> f in events)
              && (f in events ==> EventsAfter(events, field, list, valid)[f] == events[f])
  {
    var after := EventsAfter(events, field, list, valid);
    if LeavesEvents(events, field, list, valid) {
      assert after == events;
    } else if field in events {
      assert field !in after || after[field] != events[field];
    } else {
      assert field in after;
    }
  }

  datatype SetPolicyResult = Assigned | SchemaMandatoryImmutable | UnknownPolicyState

  /** One scope's rules for one schema version, as the office holds and edits them. */
  class SchemaFieldPolicy {
    const scope: Scope
    const schemaName: string
    const schemaVersion: string
    const policy: Cell<map<string, State>>
    const events: Cell<map<string, seq<string>>>
    const prefill: Cell<map<string, PrefillClass>>

    constructor (scope: Scope, schemaName: string, schemaVersion: string, policy: Cell<map<string, State>>,
                 events: Cell<map<string, seq<string>>>, prefill: Cell<map<string, PrefillClass>>)
      ensures this.scope == scope && this.schemaName == schemaName && this.schemaVersion == schemaVersion
      ensures this.policy == policy && this.events == events && this.prefill == prefill
    {
      this.scope, this.schemaName, this.schemaVersion := scope, schemaName, schemaVersion;
      this.policy, this.events, this.prefill := policy, events, prefill;
    }

    ghost function View(): Assignment
      reads policy, events, prefill
    {
      Scoped(scope, Rules(schemaName, schemaVersion, policy.value, events.value, prefill.value))
    }

    method SetPolicy(field: string, state: State, schemaMandatory: bool) returns (r: SetPolicyResult)
      modifies policy
      ensures r.SchemaMandatoryImmutable? <==> schemaMandatory || state.SchemaMandatory?
      ensures r.UnknownPolicyState? <==> !schemaMandatory && state.UnknownState?
      ensures policy.value == if r.Assigned? then old(policy.value)[field := state] else old(policy.value)
    {
      if schemaMandatory || state.SchemaMandatory? { return SchemaMandatoryImmutable; }
      if state.UnknownState? { return UnknownPolicyState; }
      policy.value := policy.value[field := state];
      return Assigned;
    }

    /** The wildcard, met before any unknown event, and the empty list remove the narrowing. */
    method SetEvents(field: string, list: seq<string>, valid: Option<set<string>>) returns (ok: bool)
      modifies events
      ensures var k := FirstStop(list, valid); ok <==> k == |list| || list[k] == ALL_EVENTS
      ensures events.value == EventsAfter(old(events.value), field, list, valid)
    {
      for i := 0 to |list|
        invariant forall j :: 0 <= j < i ==> list[j] != ALL_EVENTS && (valid.Some? ==> list[j] in valid.value)
        invariant events.value == old(events.value)
      {
        FirstStopMeaning(list, valid, i);
        if list[i] == ALL_EVENTS {
          events.value := events.value - {field};
          return true;
        }
        if valid.Some? && list[i] !in valid.value { return false; }
      }
      FirstStopMeaning(list, valid, |list|);
      if |list| == 0 {
        events.value := events.value - {field};
        return true;
      }
      events.value := events.value[field := list];
      return true;
    }

    method SetPrefillClass(field: string, class_: PrefillClass) returns (ok: bool)
      modifies prefill
      ensures ok <==> !class_.UnknownClass?
      ensures prefill.value == if !ok then old(prefill.value)
                               else if class_.NoPrefill? then old(prefill.value) - {field}
                               else old(prefill.value)[field := class_]
    {
      if class_.UnknownClass? { return false; }
      if class_.NoPrefill? {
        prefill.value := prefill.value - {field};
        return true;
      }
      prefill.value := prefill.value[field := class_];
      return true;
    }
  }
}
