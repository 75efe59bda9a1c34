// What a resolved policy demands of a report compared with what each scope
// asked for, and what setting an event list does to the reports a field is on.
module PolicyStrength {
  import opened Prelude
  import opened Reports
  import opened Scopes
  import opened FieldPolicy
  import opened FieldPolicyLaws
  import opened FieldRules

  /** As assignments are stored: setting a field to the schema's own state is refused. */
  ghost predicate Storable(rules: seq<Assignment>) {
    forall a, field :: a in rules && field in a.content.policy ==> a.content.policy[field] != SchemaMandatory
  }

  ghost predicate NoOwnRule(rules: seq<Assignment>, vessel: string, field: string) {
    forall a :: a in rules && a.scope == VesselScope(vessel) ==>
                  field !in a.content.policy && field !in a.content.events
  }

  predicate CoversAsGroup(a: Assignment, groups: seq<string>) {
    a.scope.GroupScope? && a.scope.group in groups
  }

  lemma HigherRankDemandsMore(a: State, b: State)
    requires a != SchemaMandatory && PolicyStateRank(a) <= PolicyStateRank(b)
    ensures Demand(a) <= Demand(b)
  {
  }

  lemma GroupRankDecides(rules: seq<Assignment>, vessel: string, groups: seq<string>, result: Rules, field: string,
                         a: Assignment)
    requires UniqueScopes(rules) && IsEffectivePolicy(rules, vessel, groups, result) && NoOwnRule(rules, vessel, field)
    requires a in rules && CoversAsGroup(a, groups) && HasRule(field)(a.content)
    ensures RuleRank(a.content, field) <= RuleRank(result, field)
  {
    RuleIsFromOneAssignment(rules, vessel, groups, result, field);
    assert CoversVessel(a.scope, vessel, groups);
    var d :| Decides(rules, vessel, groups, field, d) && RuleOf(field)(result) == RuleOf(field)(d.content);
    assert StateOf(result, field) == RuleOf(field)(result).state == RuleOf(field)(d.content).state;
  }

  /** Where a vessel's groups decide a field, the resolved state asks for at
      least as much as every covering group's: on any report each error the field
      gives under a group's state it gives under the resolved one. */
  lemma StrongestGroupDecides(rules: seq<Assignment>, vessel: string, groups: seq<string>, result: Rules, f: Field,
                              a: Assignment, r: Report, parses: Parses)
    requires UniqueScopes(rules) && Storable(rules) && IsEffectivePolicy(rules, vessel, groups, result)
    requires NoOwnRule(rules, vessel, f.name)
    requires a in rules && CoversAsGroup(a, groups) && f.name in a.content.policy
    ensures f.name in result.policy && Demand(a.content.policy[f.name]) <= Demand(result.policy[f.name])
    ensures ErrorsIn(FieldFindings(r, f, a.content.policy[f.name], parses))
         <= ErrorsIn(FieldFindings(r, f, result.policy[f.name], parses))
  {
    GroupRankDecides(rules, vessel, groups, result, f.name, a);
    HigherRankDemandsMore(a.content.policy[f.name], result.policy[f.name]);
    StricterStateKeepsErrors(r, f, a.content.policy[f.name], result.policy[f.name], parses);
  }

  /** A group that only narrows events decides a field only when no covering
      group sets a state for it. */
  lemma NarrowingLosesToStates(rules: seq<Assignment>, vessel: string, groups: seq<string>, result: Rules,
                               field: string)
    requires UniqueScopes(rules) && IsEffectivePolicy(rules, vessel, groups, result) && NoOwnRule(rules, vessel, field)
    requires field !in result.policy
    ensures forall a :: a in rules && CoversAsGroup(a, groups) ==> field !in a.content.policy
  {
    forall a | a in rules && CoversAsGroup(a, groups) && HasRule(field)(a.content)
      ensures RuleRank(a.content, field) <= -1
    {
      GroupRankDecides(rules, vessel, groups, result, field, a);
    }
  }

  /** The vessel's own rule decides as it stands; the fleet's where neither the
      vessel nor a covering group has one. */
  lemma OwnThenFleet(rules: seq<Assignment>, vessel: string, groups: seq<string>, result: Rules, field: string,
                     a: Assignment)
    requires UniqueScopes(rules) && IsEffectivePolicy(rules, vessel, groups, result)
    requires a in rules && (field in a.content.policy || field in a.content.events)
    requires || a.scope == VesselScope(vessel)
             || (&& a.scope == FleetScope && NoOwnRule(rules, vessel, field)
                 && forall b :: b in rules && CoversAsGroup(b, groups) ==>
                                  field !in b.content.policy && field !in b.content.events)
    ensures field in result.policy <==> field in a.content.policy
    ensures field in result.policy ==> result.policy[field] == a.content.policy[field]
    ensures field in result.events <==> field in a.content.events
    ensures field in result.events ==> result.events[field] == a.content.events[field]
  {
    RuleIsFromOneAssignment(rules, vessel, groups, result, field);
    assert HasRule(field)(a.content) && CoversVessel(a.scope, vessel, groups);
    var d :| Decides(rules, vessel, groups, field, d) && RuleOf(field)(result) == RuleOf(field)(d.content);
    assert HasRule(field)(d.content) && d.scope == a.scope;
    var i :| 0 <= i < |rules| && rules[i] == a;
    var j :| 0 <= j < |rules| && rules[j] == d;
    assert i == j;
    assert RuleOf(field)(result) == RuleOf(field)(a.content);
  }

  // ---- Setting an event list ----

  /** An unknown event comes up, and no wildcard before it. */
  ghost predicate Refused(list: seq<string>, valid: Option<set<string>>) {
    exists i :: 0 <= i < |list| && valid.Some? && list[i] !in valid.value && "*" !in list[..i + 1]
  }

  lemma {:induction false} FirstStopSplits(list: seq<string>, valid: Option<set<string>>)
    ensures var k := FirstStop(list, valid);
            && "*" !in list[..k]
            && (forall i :: 0 <= i < k ==> valid.Some? ==> list[i] in valid.value)
            && (k < |list| ==> list[k] == "*" || (valid.Some? && list[k] !in valid.value))
  {
    var k := FirstStop(list, valid);
    if k > 0 {
      FirstStopSplits(list[1..], valid);
      assert list[..k] == [list[0]] + list[1..][..k - 1];
      forall i | 0 <= i < k ensures valid.Some? ==> list[i] in valid.value {
        if i > 0 { assert list[i] == list[1..][i - 1]; }
      }
    }
  }

  lemma RefusedIff(list: seq<string>, valid: Option<set<string>>)
    ensures var k := FirstStop(list, valid); Refused(list, valid) <==> k < |list| && list[k] != "*"
    ensures !Refused(list, valid) ==> (FirstStop(list, valid) < |list| <==> "*" in list)
  {
    var k := FirstStop(list, valid);
    FirstStopSplits(list, valid);
    if k < |list| && list[k] != "*" {
      assert list[..k + 1] == list[..k] + [list[k]];
      assert Refused(list, valid);
    }
    if i :| 0 <= i < |list| && valid.Some? && list[i] !in valid.value && "*" !in list[..i + 1] {
      assert k <= i && list[..i + 1][k] == list[k];
    }
    if k == |list| { assert list[..k] == list; }
    if k < |list| { assert list[k] in list; }
  }

  /** A refused list changes nothing. Any other puts the field on exactly the
      reports of the listed events, or on all of them for the empty list or the
      wildcard, in which case nothing is stored; other fields stay as they are. */
  lemma SetEventsMeaning(events: map<string, seq<string>>, field: string, list: seq<string>,
                         valid: Option<set<string>>, eventType: string)
    ensures var after := EventsAfter(events, field, list, valid);
            && (Refused(list, valid) ==> after == events)
            && (!Refused(list, valid) ==>
                  && (Admits(after, field, eventType) <==>
                        eventType == "" || list == [] || "*" in list || eventType in list)
                  && (field in after <==> list != [] && "*" !in list)
                  && (field in after ==> after[field] == list))
            && forall f :: f != field ==> (f in after <==> f in events) && (f in events ==> after[f] == events[f])
  {
    RefusedIff(list, valid);
  }
}
