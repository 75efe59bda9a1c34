// What an event list edited after publishing does to the document a vessel
// receives from the published bundle.
module BundleEdits {
  import opened Prelude
  import opened Scopes
  import opened FieldPolicy
  import opened ConfigBundle

  // ---- Assignments that say the same ----

  /** The same schema and prefill classes. */
  ghost predicate SamePrefill(a: Rules, b: Rules) {
    a.schemaName == b.schemaName && a.schemaVersion == b.schemaVersion && a.prefill == b.prefill
  }

  /** And the same rule for this field. */
  ghost predicate SameOn(field: string, a: Rules, b: Rules) {
    && SamePrefill(a, b)
    && (field in a.policy <==> field in b.policy) && (field in a.policy ==> a.policy[field] == b.policy[field])
    && (field in a.events <==> field in b.events) && (field in a.events ==> a.events[field] == b.events[field])
  }

  /** A relation between rules, lifted to picks and to lists. */
  ghost predicate PickRelated(related: (Rules, Rules) -> bool, a: Option<Rules>, b: Option<Rules>) {
    if a.Some? then b.Some? && related(a.value, b.value) else b.None?
  }

  ghost predicate PicksRelated(related: (Rules, Rules) -> bool, p: seq<Rules>, q: seq<Rules>) {
    |p| == |q| && forall i :: 0 <= i < |p| ==> related(p[i], q[i])
  }

  ghost predicate ListsRelated(related: (Rules, Rules) -> bool, p: seq<Assignment>, q: seq<Assignment>) {
    |p| == |q| && forall i :: 0 <= i < |p| ==> p[i].scope == q[i].scope && related(p[i].content, q[i].content)
  }

  ghost function PrefillRelation(): (Rules, Rules) -> bool {
    (a: Rules, b: Rules) => SamePrefill(a, b)
  }

  ghost function RuleRelation(field: string): (Rules, Rules) -> bool {
    (a: Rules, b: Rules) => SameOn(field, a, b)
  }

  lemma {:induction false} RelatedScopePick(related: (Rules, Rules) -> bool, p: seq<Assignment>, q: seq<Assignment>,
                                            scope: Scope)
    requires ListsRelated(related, p, q)
    ensures PickRelated(related, ScopePick(p, scope), ScopePick(q, scope))
  {
    if p != [] { RelatedScopePick(related, p[..|p| - 1], q[..|q| - 1], scope); }
  }

  lemma {:induction false} RelatedGroupPicks(related: (Rules, Rules) -> bool, p: seq<Assignment>, q: seq<Assignment>,
                                             groups: seq<string>)
    requires ListsRelated(related, p, q)
    ensures PicksRelated(related, GroupPicks(p, groups), GroupPicks(q, groups))
  {
    if p != [] { RelatedGroupPicks(related, p[..|p| - 1], q[..|q| - 1], groups); }
  }

  /** Related rules say something together and are ranked alike. */
  ghost predicate Ranks(related: (Rules, Rules) -> bool, has: Rules -> bool, stricter: (Rules, Rules) -> bool) {
    && (forall a, b :: related(a, b) ==> (has(a) <==> has(b)))
    && forall a, b, c, d :: related(a, b) && related(c, d) ==> (stricter(a, c) <==> stricter(b, d))
  }

  lemma {:induction false} RelatedStrictest(related: (Rules, Rules) -> bool, p: seq<Rules>, q: seq<Rules>,
                                            has: Rules -> bool, stricter: (Rules, Rules) -> bool)
    requires PicksRelated(related, p, q) && Ranks(related, has, stricter)
    ensures PickRelated(related, Strictest(p, has, stricter), Strictest(q, has, stricter))
  {
    if p != [] { RelatedStrictest(related, p[..|p| - 1], q[..|q| - 1], has, stricter); }
  }

  lemma RelatedResolve(related: (Rules, Rules) -> bool, p: seq<Assignment>, q: seq<Assignment>, vessel: string,
                       groups: seq<string>, has: Rules -> bool, stricter: (Rules, Rules) -> bool)
    requires ListsRelated(related, p, q) && Ranks(related, has, stricter)
    ensures PickRelated(related, Resolve(p, vessel, groups, has, stricter), Resolve(q, vessel, groups, has, stricter))
  {
    RelatedScopePick(related, p, q, VesselScope(vessel));
    RelatedScopePick(related, p, q, FleetScope);
    RelatedGroupPicks(related, p, q, groups);
    RelatedStrictest(related, GroupPicks(p, groups), GroupPicks(q, groups), has, stricter);
  }

  lemma {:induction false} RelatedForSchema(related: (Rules, Rules) -> bool, p: seq<Assignment>, q: seq<Assignment>,
                                            name: string, version: string)
    requires ListsRelated(related, p, q) && forall a, b :: related(a, b) ==> SamePrefill(a, b)
    ensures ListsRelated(related, ForSchema(p, name, version), ForSchema(q, name, version))
  {
    if p != [] { RelatedForSchema(related, p[..|p| - 1], q[..|q| - 1], name, version); }
  }

  lemma SameWinner(field: string, p: seq<Assignment>, q: seq<Assignment>, vessel: string, groups: seq<string>,
                   name: string, version: string)
    requires ListsRelated(RuleRelation(field), p, q)
    ensures WinningRuleOf(ForSchema(p, name, version), vessel, groups, field)
         == WinningRuleOf(ForSchema(q, name, version), vessel, groups, field)
  {
    RelatedForSchema(RuleRelation(field), p, q, name, version);
    RelatedResolve(RuleRelation(field), ForSchema(p, name, version), ForSchema(q, name, version), vessel, groups,
                   HasRule(field), StricterRule(field));
  }

  lemma SamePrefillWinner(field: string, p: seq<Assignment>, q: seq<Assignment>, vessel: string, groups: seq<string>,
                          name: string, version: string)
    requires ListsRelated(PrefillRelation(), p, q)
    ensures WinningPrefill(ForSchema(p, name, version), vessel, groups, field)
         == WinningPrefill(ForSchema(q, name, version), vessel, groups, field)
  {
    RelatedForSchema(PrefillRelation(), p, q, name, version);
    RelatedResolve(PrefillRelation(), ForSchema(p, name, version), ForSchema(q, name, version), vessel, groups,
                   HasPrefill(field), NeverStricter());
  }

  // ---- One assignment with other event lists ----

  function WithEvents(a: Assignment, events: map<string, seq<string>>): Assignment {
    a.(content := a.content.(events := events))
  }

  function EditedAt(all: seq<Assignment>, i: nat, events: map<string, seq<string>>): seq<Assignment>
    requires i < |all|
  {
    all[i := WithEvents(all[i], events)]
  }

  /** Event lists that differ for this field only. */
  ghost predicate DiffersOnlyOn(field: string, a: map<string, seq<string>>, b: map<string, seq<string>>) {
    forall f :: f != field ==> (f in a <==> f in b) && (f in a ==> a[f] == b[f])
  }

  function EntryOf(events: map<string, seq<string>>, field: string): Option<seq<string>> {
    if field in events then Some(events[field]) else None
  }

  lemma EditIsElsewhere(all: seq<Assignment>, i: nat, events: map<string, seq<string>>, field: string)
    requires i < |all| && DiffersOnlyOn(field, all[i].content.events, events)
    ensures forall f :: f != field ==> ListsRelated(RuleRelation(f), all, EditedAt(all, i, events))
    ensures ListsRelated(PrefillRelation(), all, EditedAt(all, i, events))
  {
  }

  /** A vessel the assignment is meant for: itself, or one of no other group and no assignment of its own. */
  ghost predicate Addressed(rules: seq<Assignment>, scope: Scope, vessel: string, groups: seq<string>) {
    match scope
    case VesselScope(v) => vessel == v && groups == []
    case GroupScope(g) => groups == [g] && forall a :: a in rules ==> a.scope != VesselScope(vessel)
    case FleetScope => groups == [] && forall a :: a in rules ==> a.scope != VesselScope(vessel)
  }

  /** What the vessel has for the field without this assignment. */
  function Fallback(rules: seq<Assignment>, scope: Scope, field: string): FieldRule {
    if scope.FleetScope? || ScopePick(rules, FleetScope).None? then NO_RULE
    else RuleOf(field)(ScopePick(rules, FleetScope).value)
  }

  function RuleFrom(a: Rules, fallback: FieldRule, field: string): FieldRule {
    if HasRule(field)(a) then RuleOf(field)(a) else fallback
  }

  lemma OnlyGroupPick(rules: seq<Assignment>, a: Assignment, field: string)
    requires UniqueScopes(rules) && a in rules && a.scope.GroupScope?
    ensures Strictest(GroupPicks(rules, [a.scope.group]), HasRule(field), StricterRule(field))
         == if HasRule(field)(a.content) then Some(a.content) else None
  {
    var picks := GroupPicks(rules, [a.scope.group]);
    forall c ensures c in picks <==> c == a.content {
      GroupPicksMember(rules, [a.scope.group], c);
      ScopePickIff(rules, a.scope, c);
      ScopePickIff(rules, a.scope, a.content);
      assert a == Scoped(GroupScope(a.scope.group), a.content);
    }
    assert StrictOrder(StricterRule(field));
    StrictestMeaning(picks, HasRule(field), StricterRule(field));
  }

  lemma {:induction false} NoGroupPicks(rules: seq<Assignment>)
    ensures GroupPicks(rules, []) == []
  {
    if rules != [] { NoGroupPicks(rules[..|rules| - 1]); }
  }

  /** The addressed vessel has the assignment's rule, or the fleet's if it has none. */
  lemma AddressedRule(rules: seq<Assignment>, a: Assignment, vessel: string, groups: seq<string>, field: string)
    requires UniqueScopes(rules) && a in rules && Addressed(rules, a.scope, vessel, groups)
    ensures WinningRuleOf(rules, vessel, groups, field) == RuleFrom(a.content, Fallback(rules, a.scope, field), field)
  {
    assert a == Scoped(a.scope, a.content);
    ScopePickIff(rules, a.scope, a.content);
    ScopePickMember(rules, VesselScope(vessel));
    NoGroupPicks(rules);
    match a.scope
    case VesselScope(_) =>
    case FleetScope =>
    case GroupScope(_) => OnlyGroupPick(rules, a, field);
  }

  /** The rule the addressed vessel has for the field stays: the entry is the
      same, or the assignment has no state for the field and the fleet's rule,
      which stands in where it has no entry either, is the very same. */
  predicate Unseen(a: Rules, fallback: FieldRule, field: string, entry: Option<seq<string>>) {
    var before := EntryOf(a.events, field);
    || entry == before
    || (field !in a.policy && entry.None? && fallback == FieldRule(None, before))
    || (field !in a.policy && before.None? && fallback == FieldRule(None, entry))
  }

  lemma UnseenIff(a: Rules, events: map<string, seq<string>>, fallback: FieldRule, field: string)
    ensures RuleFrom(a.(events := events), fallback, field) == RuleFrom(a, fallback, field) <==>
            Unseen(a, fallback, field, EntryOf(events, field))
  {
  }

  lemma {:induction false} InSchema(all: seq<Assignment>, i: nat, name: string, version: string)
    requires i < |all| && all[i].content.schemaName == name && all[i].content.schemaVersion == version
    ensures all[i] in ForSchema(all, name, version)
  {
    var n := |all| - 1;
    if i < n { InSchema(all[..n], i, name, version); }
  }

  lemma {:induction false} EditedSchema(all: seq<Assignment>, i: nat, events: map<string, seq<string>>, name: string,
                                        version: string)
    requires i < |all|
    ensures var rules, edited := ForSchema(all, name, version), ForSchema(EditedAt(all, i, events), name, version);
            |edited| == |rules| && forall k :: 0 <= k < |rules| ==>
              edited[k].scope == rules[k].scope && (edited[k] == rules[k] || edited[k].scope == all[i].scope)
  {
    var n := |all| - 1;
    if i < n {
      EditedSchema(all[..n], i, events, name, version);
      assert EditedAt(all, i, events)[..n] == EditedAt(all[..n], i, events);
    } else {
      assert EditedAt(all, i, events)[..n] == all[..n];
    }
  }

  lemma SameFallback(rules: seq<Assignment>, edited: seq<Assignment>, scope: Scope, field: string)
    requires |edited| == |rules| && forall k :: 0 <= k < |rules| ==>
               edited[k].scope == rules[k].scope && (edited[k] == rules[k] || edited[k].scope == scope)
    ensures Fallback(edited, scope, field) == Fallback(rules, scope, field)
  {
    if !scope.FleetScope? { SameFleetPick(rules, edited, scope); }
  }

  lemma {:induction false} SameFleetPick(rules: seq<Assignment>, edited: seq<Assignment>, scope: Scope)
    requires !scope.FleetScope? && |edited| == |rules| && forall k :: 0 <= k < |rules| ==>
               edited[k].scope == rules[k].scope && (edited[k] == rules[k] || edited[k].scope == scope)
    ensures ScopePick(edited, FleetScope) == ScopePick(rules, FleetScope)
  {
    if rules != [] { SameFleetPick(rules[..|rules| - 1], edited[..|edited| - 1], scope); }
  }

  /** The rule of the edited field, for the addressed vessel, stays exactly when the edit is unseen. */
  lemma AddressedRuleStaysIff(all: seq<Assignment>, i: nat, events: map<string, seq<string>>, field: string,
                              vessel: string, groups: seq<string>)
    requires i < |all|
    requires var rules := ForSchema(all, all[i].content.schemaName, all[i].content.schemaVersion);
             UniqueScopes(rules) && Addressed(rules, all[i].scope, vessel, groups)
    ensures var name, version := all[i].content.schemaName, all[i].content.schemaVersion;
            var rules := ForSchema(all, name, version);
            WinningRuleOf(ForSchema(EditedAt(all, i, events), name, version), vessel, groups, field)
            == WinningRuleOf(rules, vessel, groups, field)
            <==> Unseen(all[i].content, Fallback(rules, all[i].scope, field), field, EntryOf(events, field))
  {
    var name, version := all[i].content.schemaName, all[i].content.schemaVersion;
    var edit := EditedAt(all, i, events);
    var rules, edited := ForSchema(all, name, version), ForSchema(edit, name, version);
    EditedSchema(all, i, events, name, version);
    InSchema(all, i, name, version);
    InSchema(edit, i, name, version);
    SameScopes(rules, edited, all[i].scope, vessel, groups);
    AddressedRule(rules, all[i], vessel, groups, field);
    AddressedRule(edited, edit[i], vessel, groups, field);
    SameFallback(rules, edited, all[i].scope, field);
    UnseenIff(all[i].content, events, Fallback(rules, all[i].scope, field), field);
  }

  lemma SameScopes(rules: seq<Assignment>, edited: seq<Assignment>, scope: Scope, vessel: string, groups: seq<string>)
    requires |edited| == |rules| && forall k :: 0 <= k < |rules| ==> edited[k].scope == rules[k].scope
    requires UniqueScopes(rules) && Addressed(rules, scope, vessel, groups)
    ensures UniqueScopes(edited) && Addressed(edited, scope, vessel, groups)
  {
    forall a | a in edited ensures exists b :: b in rules && b.scope == a.scope {
      var k :| 0 <= k < |edited| && edited[k] == a;
      assert rules[k] in rules;
    }
  }

  // ---- The document ----

  /** A schema's configuration stays under an edit exactly when the edited field's rule does. */
  lemma ConfigSameIff(all: seq<Assignment>, edit: seq<Assignment>, vessel: string, groups: seq<string>,
                      schema: SchemaRef, a: Rules, b: Rules, field: string)
    requires IsSchemaConfig(all, vessel, groups, schema, a) && IsSchemaConfig(edit, vessel, groups, schema, b)
    requires forall f :: f != field ==> ListsRelated(RuleRelation(f), all, edit)
    requires ListsRelated(PrefillRelation(), all, edit)
    ensures a == b <==> WinningRuleOf(ForSchema(edit, schema.name, schema.version), vessel, groups, field)
                        == WinningRuleOf(ForSchema(all, schema.name, schema.version), vessel, groups, field)
  {
    var rules, edited := ForSchema(all, schema.name, schema.version), ForSchema(edit, schema.name, schema.version);
    assert RuleOf(field)(a) == WinningRuleOf(rules, vessel, groups, field);
    assert RuleOf(field)(b) == WinningRuleOf(edited, vessel, groups, field);
    if WinningRuleOf(edited, vessel, groups, field) == WinningRuleOf(rules, vessel, groups, field) {
      forall f ensures RuleOf(f)(b) == WinningRuleOf(rules, vessel, groups, f) {
        assert RuleOf(f)(b) == WinningRuleOf(edited, vessel, groups, f);
        if f != field { SameWinner(f, all, edit, vessel, groups, schema.name, schema.version); }
      }
      forall f ensures (if f in b.prefill then Some(b.prefill[f]) else None)
          == WinningPrefill(rules, vessel, groups, f) {
        SamePrefillWinner(f, all, edit, vessel, groups, schema.name, schema.version);
      }
      SamePolicies(rules, vessel, groups, a, b);
    }
  }

  /** Other schemas' configurations stay under an edit of one schema's assignment. */
  lemma {:induction false} OtherSchemaStays(all: seq<Assignment>, i: nat, events: map<string, seq<string>>,
                                            name: string, version: string)
    requires i < |all| && (all[i].content.schemaName != name || all[i].content.schemaVersion != version)
    ensures ForSchema(EditedAt(all, i, events), name, version) == ForSchema(all, name, version)
  {
    var n := |all| - 1;
    if i < n {
      OtherSchemaStays(all[..n], i, events, name, version);
      assert EditedAt(all, i, events)[..n] == EditedAt(all[..n], i, events);
    } else {
      assert EditedAt(all, i, events)[..n] == all[..n];
    }
  }

  function Edited(c: Content, i: nat, events: map<string, seq<string>>): Content
    requires i < |c.policies|
  {
    c.(policies := EditedAt(c.policies, i, events))
  }

  /** The assignment is the only one of its scope for its schema, which the
      bundle includes, and it is meant for the vessel. */
  ghost predicate Concerns(b: Bundle, policies: seq<Assignment>, i: nat, vessel: string, groups: seq<string>)
    requires i < |policies|
  {
    var a := policies[i];
    var rules := ForSchema(policies, a.content.schemaName, a.content.schemaVersion);
    UniqueScopes(rules) && Addressed(rules, a.scope, vessel, groups)
    && SchemaRef(a.content.schemaName, a.content.schemaVersion) in b.schemas
  }

  ghost predicate StaysUnseen(policies: seq<Assignment>, i: nat, field: string, entry: Option<seq<string>>)
    requires i < |policies|
  {
    var a := policies[i];
    Unseen(a.content, Fallback(ForSchema(policies, a.content.schemaName, a.content.schemaVersion), a.scope, field),
           field, entry)
  }

  lemma ConfigStaysIff(policies: seq<Assignment>, i: nat, events: map<string, seq<string>>, field: string,
                       vessel: string, groups: seq<string>, schema: SchemaRef, v: Rules, w: Rules)
    requires i < |policies| && DiffersOnlyOn(field, policies[i].content.events, events)
    requires var rules := ForSchema(policies, policies[i].content.schemaName, policies[i].content.schemaVersion);
             UniqueScopes(rules) && Addressed(rules, policies[i].scope, vessel, groups)
    requires IsSchemaConfig(policies, vessel, groups, schema, v)
    requires IsSchemaConfig(EditedAt(policies, i, events), vessel, groups, schema, w)
    ensures v == w <==>
            schema != SchemaRef(policies[i].content.schemaName, policies[i].content.schemaVersion)
            || StaysUnseen(policies, i, field, EntryOf(events, field))
  {
    EditIsElsewhere(policies, i, events, field);
    ConfigSameIff(policies, EditedAt(policies, i, events), vessel, groups, schema, v, w, field);
    if schema == SchemaRef(policies[i].content.schemaName, policies[i].content.schemaVersion) {
      AddressedRuleStaysIff(policies, i, events, field, vessel, groups);
    } else {
      OtherSchemaStays(policies, i, events, schema.name, schema.version);
    }
  }

  /** The addressed vessel's document stays exactly when the edit is unseen. */
  lemma WireStaysIff(b: Bundle, c: Content, i: nat, events: map<string, seq<string>>, field: string, vessel: string,
                     groups: seq<string>, versionNo: int, v: Wire, w: Wire)
    requires b.signature.Some? && i < |c.policies| && Concerns(b, c.policies, i, vessel, groups)
    requires DiffersOnlyOn(field, c.policies[i].content.events, events)
    requires IsWire(b, c, vessel, groups, versionNo, v) && IsWire(b, Edited(c, i, events), vessel, groups, versionNo, w)
    ensures v == w <==> StaysUnseen(c.policies, i, field, EntryOf(events, field))
  {
    forall k | 0 <= k < |b.schemas|
      ensures v.schemas[k] == w.schemas[k] <==>
              b.schemas[k] != SchemaRef(c.policies[i].content.schemaName, c.policies[i].content.schemaVersion)
              || StaysUnseen(c.policies, i, field, EntryOf(events, field))
    {
      ConfigStaysIff(c.policies, i, events, field, vessel, groups, b.schemas[k], v.schemas[k], w.schemas[k]);
    }
    SameSeverities(c.severities, vessel, groups, v.severities, w.severities);
    var own :| 0 <= own < |b.schemas|
               && b.schemas[own] == SchemaRef(c.policies[i].content.schemaName, c.policies[i].content.schemaVersion);
    if StaysUnseen(c.policies, i, field, EntryOf(events, field)) {
      assert v.schemas == w.schemas;
    }
  }

  // ---- Editing the live list after publishing ----

  /** No two assignments share an event-list map. */
  ghost predicate OwnEvents(list: seq<SchemaFieldPolicy>) {
    forall i, j :: 0 <= i < j < |list| ==> list[i].events != list[j].events
  }

  /** Published and resolved for a vessel the assignment is meant for; then the
      live assignment's event list is set. The document resolved from the
      published bundle stays the same exactly when the new entry is unseen: it is
      the old one, or the fleet's rule hides the difference. */
  method EventEditReachesVessels(b: Bundle, live: Parts, i: nat, field: string, list: seq<string>,
                                 valid: Option<set<string>>, vessel: string, groups: seq<string>, versionNo: int,
                                 ghost held: Content)
    returns (before: Wire, after: Wire)
    requires b.signature.Some? && Holds(b.parts, held) && EventsApart(b.parts)
    requires i < |live.policies| && SharesEvents(b.parts.policies, live.policies) && OwnEvents(live.policies)
    requires Concerns(b, held.policies, i, vessel, groups)
    modifies live.policies[i].events
    ensures var entry := EntryOf(EventsAfter(held.policies[i].content.events, field, list, valid), field);
            before == after <==> StaysUnseen(held.policies, i, field, entry)
  {
    before := ResolveFor(b, vessel, groups, versionNo, held);
    ghost var events := EventsAfter(held.policies[i].content.events, field, list, valid);
    LeavesEventsIff(held.policies[i].content.events, field, list, valid);
    SetSharedEvents(b.parts, live, i, field, list, valid, held);
    after := ResolveFor(b, vessel, groups, versionNo, Edited(held, i, events));
    WireStaysIff(b, held, i, events, field, vessel, groups, versionNo, before, after);
  }

  method SetSharedEvents(ghost p: Parts, live: Parts, i: nat, field: string, list: seq<string>,
                         valid: Option<set<string>>, ghost held: Content)
    requires Holds(p, held) && EventsApart(p) && i < |live.policies|
    requires SharesEvents(p.policies, live.policies) && OwnEvents(live.policies)
    modifies live.policies[i].events
    ensures Holds(p, Edited(held, i, EventsAfter(held.policies[i].content.events, field, list, valid)))
  {
    assert p.policies[i].events == live.policies[i].events && p.policies[i] in p.policies;
    var _ := live.policies[i].SetEvents(field, list, valid);
  }

  /** With a state for the field, or with no fleet rule to fall back on, the
      condition is that the list is refused or asks for what is there already. */
  lemma EditUnseenIff(policies: seq<Assignment>, i: nat, field: string, list: seq<string>, valid: Option<set<string>>)
    requires i < |policies|
    requires var a := policies[i];
             || field in a.content.policy
             || Fallback(ForSchema(policies, a.content.schemaName, a.content.schemaVersion), a.scope, field) == NO_RULE
    ensures StaysUnseen(policies, i, field,
                        EntryOf(EventsAfter(policies[i].content.events, field, list, valid), field)) <==>
            LeavesEvents(policies[i].content.events, field, list, valid)
  {
  }
}
