// What a vessel's resolved field policy is made of, and which parts of it the
// order of assignments can change.
module FieldPolicyLaws {
  import opened Prelude
  import opened Scopes
  import opened FieldPolicy

  lemma RuleOrder(field: string)
    ensures StrictOrder(StricterRule(field)) && StrictOrder(NeverStricter())
  {
  }

  /** Some assignment that applies to the vessel rules on the field. */
  ghost predicate SomeoneRules(rules: seq<Assignment>, vessel: string, groups: seq<string>, field: string) {
    exists a :: a in rules && CoversVessel(a.scope, vessel, groups) && HasRule(field)(a.content)
  }

  /** The assignment applies, and no assignment of a wider scope or lower rank is preferred to it. */
  ghost predicate Decides(rules: seq<Assignment>, vessel: string, groups: seq<string>, field: string, a: Assignment) {
    && a in rules && CoversVessel(a.scope, vessel, groups) && HasRule(field)(a.content)
    && forall b :: b in rules && CoversVessel(b.scope, vessel, groups) && HasRule(field)(b.content) ==>
         match a.scope
         case VesselScope(_) => true
         case GroupScope(_) => b.scope.FleetScope?
             || (b.scope.GroupScope? && RuleRank(b.content, field) <= RuleRank(a.content, field))
         case FleetScope => b.scope.FleetScope?
  }

  /** A resolved rule comes, state and events together, from one assignment that
      decides; and there is one exactly when some assignment that applies rules
      on the field. */
  lemma RuleIsFromOneAssignment(rules: seq<Assignment>, vessel: string, groups: seq<string>, result: Rules,
                                field: string)
    requires UniqueScopes(rules) && IsEffectivePolicy(rules, vessel, groups, result)
    ensures HasRule(field)(result) <==> SomeoneRules(rules, vessel, groups, field)
    ensures HasRule(field)(result) ==>
              exists a :: Decides(rules, vessel, groups, field, a) && RuleOf(field)(result) == RuleOf(field)(a.content)
  {
    RuleOrder(field);
    ResolveMeaning(rules, vessel, groups, HasRule(field), StricterRule(field));
    var winner := Winner(rules, vessel, groups, field);
    assert RuleOf(field)(result) == WinningRuleOf(rules, vessel, groups, field);
    if winner.Some? {
      var a := WinnerDecides(rules, vessel, groups, field, winner.value);
      assert RuleOf(field)(result) == RuleOf(field)(a.content);
      assert HasRule(field)(a.content);
    } else {
      NoWinnerNobody(rules, vessel, groups, field);
    }
  }

  lemma NoWinnerNobody(rules: seq<Assignment>, vessel: string, groups: seq<string>, field: string)
    requires IsResolved(rules, vessel, groups, HasRule(field), StricterRule(field), None)
    ensures !SomeoneRules(rules, vessel, groups, field)
  {
    forall a | a in rules && CoversVessel(a.scope, vessel, groups) ensures !HasRule(field)(a.content) {
      assert a == Scoped(a.scope, a.content);
      GroupPicksMember(rules, groups, a.content);
      if a.scope.GroupScope? { GroupMember(rules, groups, a); }
    }
  }

  lemma GroupMember(rules: seq<Assignment>, groups: seq<string>, a: Assignment)
    requires a in rules && a.scope.GroupScope? && a.scope.group in groups
    ensures a.content in GroupPicks(rules, groups)
  {
    GroupPicksMember(rules, groups, a.content);
    assert a == Scoped(GroupScope(a.scope.group), a.content);
  }

  lemma WinnerDecides(rules: seq<Assignment>, vessel: string, groups: seq<string>, field: string, winner: Rules)
    returns (a: Assignment)
    requires IsResolved(rules, vessel, groups, HasRule(field), StricterRule(field), Some(winner))
    ensures Decides(rules, vessel, groups, field, a) && a.content == winner
  {
    if c :| HasRule(field)(c) && Scoped(VesselScope(vessel), c) in rules {
      a := Scoped(VesselScope(vessel), winner);
    } else if d :| HasRule(field)(d) && d in GroupPicks(rules, groups) {
      GroupPicksMember(rules, groups, winner);
      var g :| g in groups && Scoped(GroupScope(g), winner) in rules;
      a := Scoped(GroupScope(g), winner);
      forall b | b in rules && CoversVessel(b.scope, vessel, groups) && HasRule(field)(b.content)
        ensures b.scope.FleetScope? || (b.scope.GroupScope? && RuleRank(b.content, field) <= RuleRank(winner, field))
      {
        assert b == Scoped(b.scope, b.content);
        if b.scope.GroupScope? {
          GroupMember(rules, groups, b);
          assert !StricterRule(field)(b.content, winner);
        }
      }
    } else {
      a := Scoped(FleetScope, winner);
      forall b | b in rules && CoversVessel(b.scope, vessel, groups) && HasRule(field)(b.content)
          ensures b.scope.FleetScope? {
        assert b == Scoped(b.scope, b.content);
        if b.scope.GroupScope? { GroupMember(rules, groups, b); }
      }
    }
  }

  // ---- Order ----

  lemma {:induction false} SchemaCounts(all: seq<Assignment>, name: string, version: string, a: Assignment)
    ensures multiset(ForSchema(all, name, version))[a]
         == if a.content.schemaName == name && a.content.schemaVersion == version then multiset(all)[a] else 0
  {
    if all != [] {
      var front, last := all[..|all| - 1], all[|all| - 1];
      SchemaCounts(front, name, version, a);
      assert all == front + [last];
    }
  }

  lemma SchemaPermutes(all: seq<Assignment>, other: seq<Assignment>, name: string, version: string)
    requires multiset(other) == multiset(all)
    ensures multiset(ForSchema(other, name, version)) == multiset(ForSchema(all, name, version))
  {
    forall a ensures multiset(ForSchema(other, name, version))[a] == multiset(ForSchema(all, name, version))[a] {
      SchemaCounts(all, name, version, a);
      SchemaCounts(other, name, version, a);
    }
  }

  ghost predicate KnownStates(rules: seq<Assignment>) {
    forall a, field :: a in rules && field in a.content.policy ==>
        !a.content.policy[field].UnknownState? && !a.content.policy[field].SchemaMandatory?
  }

  lemma TopStatesAgree(rules: seq<Assignment>, groups: seq<string>, field: string)
    requires KnownStates(rules)
    ensures TopAgree(GroupPicks(rules, groups), HasRule(field), StricterRule(field), StateAspect(field))
  {
    var picks := GroupPicks(rules, groups);
    forall a, b | Top(picks, HasRule(field), StricterRule(field), a)
        && Top(picks, HasRule(field), StricterRule(field), b)
      ensures StateAspect(field)(a) == StateAspect(field)(b)
    {
      assert !StricterRule(field)(a, b) && !StricterRule(field)(b, a);
      GroupPicksMember(rules, groups, a);
      GroupPicksMember(rules, groups, b);
    }
  }

  lemma StateOfWinner(rules: seq<Assignment>, vessel: string, groups: seq<string>, result: Rules, field: string)
    requires IsEffectivePolicy(rules, vessel, groups, result)
    ensures StateOf(result, field) == match Aspect(Winner(rules, vessel, groups, field), StateAspect(field))
                                      case Some(s) => s
                                      case None => None
  {
    assert RuleOf(field)(result) == WinningRuleOf(rules, vessel, groups, field);
  }

  /** With one assignment per scope and known states, the resolved states do not
      depend on the order of the assignments. */
  lemma StatesOrderFree(all: seq<Assignment>, other: seq<Assignment>, vessel: string, groups: seq<string>, name: string,
                        version: string, result: Rules, otherResult: Rules)
    requires multiset(other) == multiset(all)
    requires UniqueScopes(ForSchema(all, name, version)) && KnownStates(ForSchema(all, name, version))
    requires IsEffectivePolicy(ForSchema(all, name, version), vessel, groups, result)
    requires IsEffectivePolicy(ForSchema(other, name, version), vessel, groups, otherResult)
    ensures result.policy == otherResult.policy
  {
    var rules, reordered := ForSchema(all, name, version), ForSchema(other, name, version);
    SchemaPermutes(all, other, name, version);
    forall field ensures StateOf(result, field) == StateOf(otherResult, field) {
      RuleOrder(field);
      TopStatesAgree(rules, groups, field);
      ReorderedSame(rules, reordered, vessel, groups, HasRule(field), StricterRule(field), StateAspect(field));
      StateOfWinner(rules, vessel, groups, result, field);
      StateOfWinner(reordered, vessel, groups, otherResult, field);
    }
    SameStatesSameMap(result.policy, otherResult.policy, result, otherResult);
  }

  lemma SameStatesSameMap(p: map<string, State>, q: map<string, State>, a: Rules, b: Rules)
    requires p == a.policy && q == b.policy && forall field :: StateOf(a, field) == StateOf(b, field)
    ensures p == q
  {
    forall field ensures field in p <==> field in q {
      assert StateOf(a, field) == StateOf(b, field);
    }
    forall field | field in p ensures p[field] == q[field] {
      assert StateOf(a, field) == StateOf(b, field);
    }
  }

  /** A field's whole rule, events included, is free of the assignments' order
      exactly when the vessel's own assignment rules on it or the covering
      groups of greatest rank have the same rule for it. */
  lemma RuleOrderFreeIff(rules: seq<Assignment>, vessel: string, groups: seq<string>, field: string)
    requires UniqueScopes(rules)
    ensures OrderFree(rules, vessel, groups, HasRule(field), StricterRule(field), RuleOf(field)) <==>
            || Says(ScopePick(rules, VesselScope(vessel)), HasRule(field))
            || TopAgree(GroupPicks(rules, groups), HasRule(field), StricterRule(field), RuleOf(field))
  {
    RuleOrder(field);
    OrderFreeIff(rules, vessel, groups, HasRule(field), StricterRule(field), RuleOf(field));
  }

  /** A field's prefill class is free of the order exactly when the vessel's own
      assignment sets it or all covering groups that set it agree. */
  lemma PrefillOrderFreeIff(rules: seq<Assignment>, vessel: string, groups: seq<string>, field: string)
    requires UniqueScopes(rules)
    ensures OrderFree(rules, vessel, groups, HasPrefill(field), NeverStricter(), PrefillOf(field)) <==>
            || Says(ScopePick(rules, VesselScope(vessel)), HasPrefill(field))
            || forall a, b ::
                 (&& a in GroupPicks(rules, groups) && b in GroupPicks(rules, groups)
                  && field in a.prefill && field in b.prefill)
                 ==> a.prefill[field] == b.prefill[field]
  {
    RuleOrder(field);
    OrderFreeIff(rules, vessel, groups, HasPrefill(field), NeverStricter(), PrefillOf(field));
    var picks := GroupPicks(rules, groups);
    forall a | a in picks ensures Top(picks, HasPrefill(field), NeverStricter(), a) <==> field in a.prefill {}
    if TopAgree(picks, HasPrefill(field), NeverStricter(), PrefillOf(field)) {
      forall a, b | a in picks && b in picks && field in a.prefill && field in b.prefill
        ensures a.prefill[field] == b.prefill[field]
      {
        assert PrefillOf(field)(a) == PrefillOf(field)(b);
      }
    }
  }

  /** Of two covering groups whose rules for a field rank the same, the one
      listed first supplies the rule: listed the other way round, a vessel in both
      has the other rule, and another event list if theirs differ. */
  lemma EventListsDependOnOrder(x: Assignment, y: Assignment, vessel: string, groups: seq<string>, field: string)
    requires x.scope.GroupScope? && x.scope.group in groups && y.scope.GroupScope? && y.scope.group in groups
    requires HasRule(field)(x.content) && HasRule(field)(y.content)
    requires RuleRank(x.content, field) == RuleRank(y.content, field)
    ensures WinningRuleOf([x, y], vessel, groups, field) == RuleOf(field)(x.content)
    ensures WinningRuleOf([y, x], vessel, groups, field) == RuleOf(field)(y.content)
    ensures (WinningRuleOf([x, y], vessel, groups, field).events
             == WinningRuleOf([y, x], vessel, groups, field).events) <==>
            RuleOf(field)(x.content).events == RuleOf(field)(y.content).events
  {
    FirstOfTwoWins(x, y, vessel, groups, field);
    FirstOfTwoWins(y, x, vessel, groups, field);
  }

  /** Of two groups' rules of equal rank, the one assigned first stands. */
  lemma FirstOfTwoWins(x: Assignment, y: Assignment, vessel: string, groups: seq<string>, field: string)
    requires x.scope.GroupScope? && x.scope.group in groups && y.scope.GroupScope? && y.scope.group in groups
    requires HasRule(field)(x.content) && RuleRank(y.content, field) <= RuleRank(x.content, field)
    ensures Winner([x, y], vessel, groups, field) == Some(x.content)
  {
    ScopePickMember([x, y], VesselScope(vessel));
    OneGroupPick(x, groups);
    OneGroupPick(y, groups);
    GroupPicksJoin([x], [y], groups);
    assert [x, y] == [x] + [y];
    FirstTopWins(x.content, [y.content], HasRule(field), StricterRule(field));
  }

  lemma OneGroupPick(x: Assignment, groups: seq<string>)
    requires x.scope.GroupScope? && x.scope.group in groups
    ensures GroupPicks([x], groups) == [x.content]
  {
    assert [x][..0] == [];
  }
}
