// Composing and publishing a configuration bundle, resolving it for a vessel,
// and what later edits of the live configuration can do to it.
module ConfigBundle {
  import opened Prelude
  import opened Cells
  import opened Reports
  import opened Scopes
  import opened Compliance
  import opened FieldPolicy

  // ---- Configurations and what they hold ----

  /** References to one set of configuration objects. */
  datatype Parts = Parts(
    policies: seq<SchemaFieldPolicy>,
    profiles: seq<ProfileAssignment>,
    cadences: seq<CadenceRule>,
    severities: seq<RuleSeverityAssignment>)

  datatype SchemaRef = SchemaRef(name: string, version: string)

  /** Who published a bundle, when, and under which id. */
  datatype Signature = Signature(id: string, publisher: string, at: Instant)

  datatype Bundle = Bundle(signature: Option<Signature>, schemas: seq<SchemaRef>, defaultRoles: seq<string>,
                           parts: Parts)

  /** What the objects hold at one moment. */
  datatype Content = Content(
    policies: seq<Assignment>,
    profiles: seq<Scoped<seq<Profile>>>,
    cadences: seq<Scoped<Thresholds>>,
    severities: seq<Scoped<SeverityMap>>)

  ghost function PolicyCells(list: seq<SchemaFieldPolicy>): set<object> {
    (set p | p in list :: p.policy as object) + set p | p in list :: p.prefill as object
  }

  ghost function EventCells(list: seq<SchemaFieldPolicy>): set<object> {
    set p | p in list :: p.events as object
  }

  ghost function ProfileCells(list: seq<ProfileAssignment>): set<object> {
    set a | a in list :: a.profiles as object
  }

  ghost function CadenceCells(list: seq<CadenceRule>): set<object> {
    set r | r in list :: r.thresholds as object
  }

  ghost function SeverityCells(list: seq<RuleSeverityAssignment>): set<object> {
    set a | a in list :: a.severities as object
  }

  /** Everything mutable except the event lists. */
  ghost function OwnCells(p: Parts): set<object> {
    PolicyCells(p.policies) + ProfileCells(p.profiles) + CadenceCells(p.cadences) + SeverityCells(p.severities)
  }

  /** This is what the objects hold. */
  ghost predicate Holds(p: Parts, c: Content)
    reads OwnCells(p), EventCells(p.policies)
  {
    && |c.policies| == |p.policies| && |c.profiles| == |p.profiles| && |c.cadences| == |p.cadences|
        && |c.severities| == |p.severities|
    && (forall i :: 0 <= i < |p.policies| ==> c.policies[i] == p.policies[i].View())
    && (forall i :: 0 <= i < |p.profiles| ==>
        c.profiles[i] == Scoped(p.profiles[i].scope, p.profiles[i].profiles.value))
    && (forall i :: 0 <= i < |p.cadences| ==>
        c.cadences[i] == Scoped(p.cadences[i].scope, p.cadences[i].thresholds.value))
    && forall i :: 0 <= i < |p.severities| ==>
        c.severities[i] == Scoped(p.severities[i].scope, p.severities[i].severities.value)
  }

  lemma HoldsOne(p: Parts, c: Content, d: Content)
    requires Holds(p, c) && Holds(p, d)
    ensures c == d
  {
    assert c.policies == d.policies && c.profiles == d.profiles;
    assert c.cadences == d.cadences && c.severities == d.severities;
  }

  // ---- Cloning ----

  /** The same event-list maps, object by object. */
  ghost predicate SharesEvents(a: seq<SchemaFieldPolicy>, b: seq<SchemaFieldPolicy>) {
    |a| == |b| && forall i :: 0 <= i < |a| ==> a[i].events == b[i].events
  }

  /** Copies the state and prefill maps; the event lists stay shared. */
  method CloneFieldPolicies(list: seq<SchemaFieldPolicy>) returns (out: seq<SchemaFieldPolicy>)
    ensures SharesEvents(out, list)
    ensures forall i :: 0 <= i < |out| ==> fresh(out[i].policy) && fresh(out[i].prefill)
    ensures forall i :: 0 <= i < |out| ==> out[i].View() == list[i].View()
  {
    out := [];
    for i := 0 to |list|
      invariant |out| == i
      invariant forall k :: 0 <= k < i ==> out[k].events == list[k].events
      invariant forall k :: 0 <= k < i ==> fresh(out[k].policy) && fresh(out[k].prefill)
      invariant forall k :: 0 <= k < i ==> out[k].View() == list[k].View()
    {
      var copy := CloneFieldPolicy(list[i]);
      out := out + [copy];
    }
  }

  method CloneFieldPolicy(p: SchemaFieldPolicy) returns (copy: SchemaFieldPolicy)
    ensures fresh(copy.policy) && fresh(copy.prefill) && copy.events == p.events && copy.View() == p.View()
  {
    var policy := new Cell(p.policy.value);
    var prefill := new Cell(p.prefill.value);
    copy := new SchemaFieldPolicy(p.scope, p.schemaName, p.schemaVersion, policy, p.events, prefill);
  }

  method CloneProfileAssignments(list: seq<ProfileAssignment>) returns (out: seq<ProfileAssignment>)
    ensures |out| == |list| && forall i :: 0 <= i < |out| ==> fresh(out[i].profiles)
    ensures forall i :: 0 <= i < |out| ==>
        out[i].scope == list[i].scope && out[i].profiles.value == list[i].profiles.value
  {
    out := [];
    for i := 0 to |list|
      invariant |out| == i && forall k :: 0 <= k < i ==> fresh(out[k].profiles)
      invariant forall k :: 0 <= k < i ==>
          out[k].scope == list[k].scope && out[k].profiles.value == list[k].profiles.value
    {
      var profiles := new Cell(list[i].profiles.value);
      var copy := new ProfileAssignment(list[i].scope, profiles);
      out := out + [copy];
    }
  }

  method CloneCadenceRules(list: seq<CadenceRule>) returns (out: seq<CadenceRule>)
    ensures |out| == |list| && forall i :: 0 <= i < |out| ==> fresh(out[i].thresholds)
    ensures forall i :: 0 <= i < |out| ==>
        out[i].scope == list[i].scope && out[i].thresholds.value == list[i].thresholds.value
  {
    out := [];
    for i := 0 to |list|
      invariant |out| == i && forall k :: 0 <= k < i ==> fresh(out[k].thresholds)
      invariant forall k :: 0 <= k < i ==>
          out[k].scope == list[k].scope && out[k].thresholds.value == list[k].thresholds.value
    {
      var thresholds := new Cell(list[i].thresholds.value);
      var copy := new CadenceRule(list[i].scope, thresholds);
      out := out + [copy];
    }
  }

  method CloneRuleSeverityAssignments(list: seq<RuleSeverityAssignment>) returns (out: seq<RuleSeverityAssignment>)
    ensures |out| == |list| && forall i :: 0 <= i < |out| ==> fresh(out[i].severities)
    ensures forall i :: 0 <= i < |out| ==>
        out[i].scope == list[i].scope && out[i].severities.value == list[i].severities.value
  {
    out := [];
    for i := 0 to |list|
      invariant |out| == i && forall k :: 0 <= k < i ==> fresh(out[k].severities)
      invariant forall k :: 0 <= k < i ==>
          out[k].scope == list[k].scope && out[k].severities.value == list[k].severities.value
    {
      var severities := new Cell(list[i].severities.value);
      var copy := new RuleSeverityAssignment(list[i].scope, severities);
      out := out + [copy];
    }
  }

  /** An unpublished snapshot holds what the live objects hold, in cells of its
      own (none of them among any given before), except that it shares their
      event lists. */
  method Compose(schemas: seq<SchemaRef>, defaultRoles: seq<string>, live: Parts, ghost held: Content,
                 ghost apart: set<object>)
    returns (bundle: Bundle)
    requires Holds(live, held)
    ensures bundle == Bundle(None, schemas, defaultRoles, bundle.parts) && Holds(bundle.parts, held)
    ensures fresh(OwnCells(bundle.parts)) && OwnCells(bundle.parts) !! apart
    ensures SharesEvents(bundle.parts.policies, live.policies)
  {
    var policies := CloneFieldPolicies(live.policies);
    var profiles := CloneProfileAssignments(live.profiles);
    var cadences := CloneCadenceRules(live.cadences);
    var severities := CloneRuleSeverityAssignments(live.severities);
    bundle := Bundle(None, schemas, defaultRoles, Parts(policies, profiles, cadences, severities));
  }

  /** Needs a publisher's name; signs a second snapshot of the composed bundle. */
  method Publish(composed: Bundle, signature: Signature, ghost held: Content, ghost apart: set<object>)
    returns (published: Option<Bundle>)
    requires Holds(composed.parts, held)
    ensures published.Some? <==> signature.publisher != ""
    ensures published.Some? ==>
              && published.value == composed.(signature := Some(signature), parts := published.value.parts)
              && Holds(published.value.parts, held)
              && fresh(OwnCells(published.value.parts)) && OwnCells(published.value.parts) !! apart
              && SharesEvents(published.value.parts.policies, composed.parts.policies)
  {
    if signature.publisher == "" { return None; }
    var bundle := Compose(composed.schemas, composed.defaultRoles, composed.parts, held, apart);
    return Some(bundle.(signature := Some(signature)));
  }

  // ---- Resolving for a vessel ----

  const WIRE_VERSION := 1

  datatype Wire = Wire(wireVersion: int, bundleId: string, versionNo: int, publishedAt: Instant, schemas: seq<Rules>,
                       profiles: seq<Profile>, maxGapHours: real, severities: SeverityMap, defaultRoles: seq<string>)

  ghost predicate IsSchemaConfig(policies: seq<Assignment>, vessel: string, groups: seq<string>, schema: SchemaRef,
                                 config: Rules)
  {
    && config.schemaName == schema.name && config.schemaVersion == schema.version
    && IsEffectivePolicy(ForSchema(policies, schema.name, schema.version), vessel, groups, config)
  }

  /** The part of a document that depends on the vessel. */
  ghost predicate IsResolved(schemas: seq<SchemaRef>, c: Content, vessel: string, groups: seq<string>, w: Wire) {
    && |w.schemas| == |schemas|
    && (forall i :: 0 <= i < |schemas| ==> IsSchemaConfig(c.policies, vessel, groups, schemas[i], w.schemas[i]))
    && w.profiles == EnabledOf(c.profiles, vessel, groups, ALL_PROFILES)
    && w.maxGapHours == CadenceOf(c.cadences, vessel, groups).maxGapHours
    && IsEffective(c.severities, vessel, groups, w.severities)
  }

  /** The document a vessel receives from a published bundle that holds this content. */
  ghost predicate IsWire(b: Bundle, c: Content, vessel: string, groups: seq<string>, versionNo: int, w: Wire)
    requires b.signature.Some?
  {
    && w.wireVersion == WIRE_VERSION && w.bundleId == b.signature.value.id && w.versionNo == versionNo
    && w.publishedAt == b.signature.value.at && w.defaultRoles == b.defaultRoles
    && IsResolved(b.schemas, c, vessel, groups, w)
  }

  method ReadPolicies(list: seq<SchemaFieldPolicy>) returns (views: seq<Assignment>)
    ensures |views| == |list| && forall i :: 0 <= i < |list| ==> views[i] == list[i].View()
  {
    views := [];
    for i := 0 to |list|
      invariant |views| == i && forall k :: 0 <= k < i ==> views[k] == list[k].View()
    {
      views := views + [Scoped(list[i].scope, Rules(list[i].schemaName, list[i].schemaVersion, list[i].policy.value,
                                                    list[i].events.value, list[i].prefill.value))];
    }
  }

  method ReadParts(p: Parts) returns (c: Content)
    ensures Holds(p, c)
  {
    var policies := ReadPolicies(p.policies);
    var profiles := [];
    for i := 0 to |p.profiles|
      invariant |profiles| == i
      invariant forall k :: 0 <= k < i ==> profiles[k] == Scoped(p.profiles[k].scope, p.profiles[k].profiles.value)
    {
      profiles := profiles + [Scoped(p.profiles[i].scope, p.profiles[i].profiles.value)];
    }
    var cadences := [];
    for i := 0 to |p.cadences|
      invariant |cadences| == i
      invariant forall k :: 0 <= k < i ==> cadences[k] == Scoped(p.cadences[k].scope, p.cadences[k].thresholds.value)
    {
      cadences := cadences + [Scoped(p.cadences[i].scope, p.cadences[i].thresholds.value)];
    }
    var severities := [];
    for i := 0 to |p.severities|
      invariant |severities| == i
      invariant forall k :: 0 <= k < i ==>
          severities[k] == Scoped(p.severities[k].scope, p.severities[k].severities.value)
    {
      severities := severities + [Scoped(p.severities[i].scope, p.severities[i].severities.value)];
    }
    return Content(policies, profiles, cadences, severities);
  }

  method ResolveSchemas(policies: seq<Assignment>, schemas: seq<SchemaRef>, vessel: string, groups: seq<string>)
    returns (configs: seq<Rules>)
    ensures |configs| == |schemas|
    ensures forall i :: 0 <= i < |schemas| ==> IsSchemaConfig(policies, vessel, groups, schemas[i], configs[i])
  {
    configs := [];
    for i := 0 to |schemas|
      invariant |configs| == i
      invariant forall k :: 0 <= k < i ==> IsSchemaConfig(policies, vessel, groups, schemas[k], configs[k])
    {
      var config := EffectiveFieldPolicy(policies, vessel, groups, schemas[i].name, schemas[i].version);
      assert IsSchemaConfig(policies, vessel, groups, schemas[i], config);
      configs := configs + [config];
    }
  }

  method ResolveContent(b: Bundle, c: Content, vessel: string, groups: seq<string>, versionNo: int) returns (w: Wire)
    requires b.signature.Some?
    ensures IsWire(b, c, vessel, groups, versionNo, w)
  {
    var profiles := EffectiveProfiles(c.profiles, vessel, groups);
    var cadence := EffectiveCadence(c.cadences, vessel, groups);
    var severities := EffectiveSeverities(c.severities, vessel, groups);
    var configs := ResolveSchemas(c.policies, b.schemas, vessel, groups);
    return Wire(WIRE_VERSION, b.signature.value.id, versionNo, b.signature.value.at, configs, profiles,
                cadence.maxGapHours, severities, b.defaultRoles);
  }

  /** The document for one vessel, resolved from what the bundle holds now. */
  method ResolveFor(b: Bundle, vessel: string, groups: seq<string>, versionNo: int, ghost held: Content)
    returns (w: Wire)
    requires b.signature.Some? && Holds(b.parts, held)
    ensures IsWire(b, held, vessel, groups, versionNo, w)
  {
    var c := ReadParts(b.parts);
    HoldsOne(b.parts, held, c);
    w := ResolveContent(b, c, vessel, groups, versionNo);
  }

  // ---- The document is determined by what the bundle holds ----

  lemma SamePolicies(rules: seq<Assignment>, vessel: string, groups: seq<string>, a: Rules, b: Rules)
    requires IsEffectivePolicy(rules, vessel, groups, a) && IsEffectivePolicy(rules, vessel, groups, b)
    ensures a.policy == b.policy && a.events == b.events && a.prefill == b.prefill
  {
    forall field ensures RuleOf(field)(a) == RuleOf(field)(b) {
      assert RuleOf(field)(a) == WinningRuleOf(rules, vessel, groups, field);
      assert RuleOf(field)(b) == WinningRuleOf(rules, vessel, groups, field);
    }
    forall field
      ensures field in a.policy <==> field in b.policy
      ensures field in a.policy ==> a.policy[field] == b.policy[field]
      ensures field in a.events <==> field in b.events
      ensures field in a.events ==> a.events[field] == b.events[field]
    {
      assert RuleOf(field)(a) == RuleOf(field)(b);
    }
    SamePrefills(rules, vessel, groups, a.prefill, b.prefill);
  }

  lemma SamePrefills(rules: seq<Assignment>, vessel: string, groups: seq<string>, p: map<string, PrefillClass>,
                     q: map<string, PrefillClass>)
    requires PrefillsResolved(rules, vessel, groups, p) && PrefillsResolved(rules, vessel, groups, q)
    ensures p == q
  {
    forall field ensures (field in p <==> field in q) && (field in p ==> p[field] == q[field]) {
      assert (if field in p then Some(p[field]) else None) == WinningPrefill(rules, vessel, groups, field);
      assert (if field in q then Some(q[field]) else None) == WinningPrefill(rules, vessel, groups, field);
    }
  }

  lemma SameSeverities(all: seq<Scoped<SeverityMap>>, vessel: string, groups: seq<string>, p: SeverityMap,
                       q: SeverityMap)
    requires IsEffective(all, vessel, groups, p) && IsEffective(all, vessel, groups, q)
    ensures p == q
  {
    forall rule ensures (rule in p <==> rule in q) && (rule in p ==> p[rule] == q[rule]) {
      if rule in OVERRIDABLE_RULES {
        assert (if rule in p then Some(p[rule]) else None) == EffectiveSeverity(all, vessel, groups, rule);
        assert (if rule in q then Some(q[rule]) else None) == EffectiveSeverity(all, vessel, groups, rule);
      }
    }
  }

  /** Two documents resolved from the same content for the same vessel are equal. */
  lemma WireIsDetermined(b: Bundle, c: Content, vessel: string, groups: seq<string>, versionNo: int, v: Wire, w: Wire)
    requires b.signature.Some?
    requires IsWire(b, c, vessel, groups, versionNo, v) && IsWire(b, c, vessel, groups, versionNo, w)
    ensures v == w
  {
    forall i | 0 <= i < |b.schemas| ensures v.schemas[i] == w.schemas[i] {
      assert IsSchemaConfig(c.policies, vessel, groups, b.schemas[i], v.schemas[i]);
      assert IsSchemaConfig(c.policies, vessel, groups, b.schemas[i], w.schemas[i]);
      SamePolicies(ForSchema(c.policies, b.schemas[i].name, b.schemas[i].version), vessel, groups, v.schemas[i],
                   w.schemas[i]);
    }
    SameSeverities(c.severities, vessel, groups, v.severities, w.severities);
  }

  // ---- Edits ----

  datatype Edit =
    | EditPolicy(i: nat, field: string, state: State, schemaMandatory: bool)
    | EditPrefill(i: nat, field: string, class_: PrefillClass)
    | EditSeverity(i: nat, rule: RuleId, severity: Option<Severity>)
    | EditProfiles(i: nat, profiles: seq<Profile>)
    | EditCadence(i: nat, thresholds: Thresholds)

  /** Applies one edit to the objects; an edit of an object that is not there does nothing. */
  method ApplyEdit(p: Parts, e: Edit)
    modifies OwnCells(p)
  {
    match e {
      case EditPolicy(i, field, state, schemaMandatory) =>
        if i < |p.policies| {
          assert p.policies[i] in p.policies;
          var _ := p.policies[i].SetPolicy(field, state, schemaMandatory);
        }
      case EditPrefill(i, field, class_) =>
        if i < |p.policies| {
          assert p.policies[i] in p.policies;
          var _ := p.policies[i].SetPrefillClass(field, class_);
        }
      case EditSeverity(i, rule, severity) =>
        if i < |p.severities| {
          assert p.severities[i] in p.severities;
          var _ := p.severities[i].SetSeverity(rule, severity);
        }
      case EditProfiles(i, profiles) =>
        if i < |p.profiles| {
          assert p.profiles[i] in p.profiles;
          p.profiles[i].profiles.value := profiles;
        }
      case EditCadence(i, thresholds) =>
        if i < |p.cadences| {
          assert p.cadences[i] in p.cadences;
          p.cadences[i].thresholds.value := thresholds;
        }
    }
  }

  /** The event-list maps are no other cells of the configuration. */
  ghost predicate EventsApart(p: Parts) {
    OwnCells(p) !! EventCells(p.policies)
  }

  lemma SharedEventCells(a: seq<SchemaFieldPolicy>, b: seq<SchemaFieldPolicy>)
    requires SharesEvents(a, b)
    ensures EventCells(a) == EventCells(b)
  {
    forall i | 0 <= i < |a| ensures a[i].events as object in EventCells(b) && b[i].events as object in EventCells(a) {
      assert a[i] in a && b[i] in b;
    }
  }

  /** Composing and publishing gives two bundles of the same content, and no
      edit of the live objects or of the composed ones can reach a cell of the
      published one. */
  method ComposeAndPublish(schemas: seq<SchemaRef>, defaultRoles: seq<string>, live: Parts, signature: Signature,
                           ghost held: Content)
    returns (composed: Bundle, published: Bundle)
    requires Holds(live, held) && EventsApart(live) && signature.publisher != ""
    ensures Holds(live, held) && Holds(composed.parts, held) && Holds(published.parts, held)
    ensures published == Bundle(Some(signature), schemas, defaultRoles, published.parts)
    ensures SharesEvents(published.parts.policies, live.policies)
    ensures fresh(OwnCells(composed.parts)) && fresh(OwnCells(published.parts))
    ensures OwnCells(live) + OwnCells(composed.parts)
        !! OwnCells(published.parts) + EventCells(published.parts.policies)
    ensures EventsApart(published.parts)
  {
    composed := Compose(schemas, defaultRoles, live, held, EventCells(live.policies));
    SharedEventCells(composed.parts.policies, live.policies);
    var result := Publish(composed, signature, held,
                          OwnCells(live) + OwnCells(composed.parts) + EventCells(live.policies));
    published := result.value;
    SharedEventCells(published.parts.policies, composed.parts.policies);
  }

  /** Composed, published and resolved; then any sequence of edits, each of the
      live objects or of the composed value: the published bundle still
      resolves, for every vessel, to the same document. */
  method PublishedStaysFrozen(schemas: seq<SchemaRef>, defaultRoles: seq<string>, live: Parts, edits: seq<(bool, Edit)>,
                              signature: Signature, vessel: string, groups: seq<string>, versionNo: int,
                              ghost held: Content)
    returns (published: Bundle, before: Wire, after: Wire)
    requires Holds(live, held) && EventsApart(live) && signature.publisher != ""
    modifies OwnCells(live)
    ensures published.signature == Some(signature) && published.schemas == schemas
        && published.defaultRoles == defaultRoles
    ensures before == after && IsWire(published, held, vessel, groups, versionNo, before)
  {
    var composed;
    composed, published := ComposeAndPublish(schemas, defaultRoles, live, signature, held);
    before, after := ResolveAroundEdits(live, composed.parts, edits, published, vessel, groups, versionNo, held);
  }

  method ResolveAroundEdits(one: Parts, two: Parts, edits: seq<(bool, Edit)>, frozen: Bundle, vessel: string,
                            groups: seq<string>, versionNo: int, ghost held: Content)
    returns (before: Wire, after: Wire)
    requires frozen.signature.Some? && Holds(frozen.parts, held)
    requires OwnCells(one) + OwnCells(two) !! OwnCells(frozen.parts) + EventCells(frozen.parts.policies)
    modifies OwnCells(one), OwnCells(two)
    ensures before == after && IsWire(frozen, held, vessel, groups, versionNo, before)
  {
    before := ResolveFor(frozen, vessel, groups, versionNo, held);
    ApplyEdits(one, two, edits, frozen.parts, held);
    after := ResolveFor(frozen, vessel, groups, versionNo, held);
    WireIsDetermined(frozen, held, vessel, groups, versionNo, before, after);
  }

  method ApplyEdits(one: Parts, two: Parts, edits: seq<(bool, Edit)>, ghost frozen: Parts, ghost held: Content)
    requires Holds(frozen, held)
    requires OwnCells(one) + OwnCells(two) !! OwnCells(frozen) + EventCells(frozen.policies)
    modifies OwnCells(one), OwnCells(two)
    ensures Holds(frozen, held)
  {
    for i := 0 to |edits|
      invariant Holds(frozen, held)
    {
      if edits[i].0 {
        ApplyEditApart(one, edits[i].1, frozen, held);
      } else {
        ApplyEditApart(two, edits[i].1, frozen, held);
      }
    }
  }

  /** An edit of cells the frozen objects do not have leaves what they hold. */
  method ApplyEditApart(p: Parts, e: Edit, ghost frozen: Parts, ghost held: Content)
    requires Holds(frozen, held) && OwnCells(p) !! OwnCells(frozen) + EventCells(frozen.policies)
    modifies OwnCells(p)
    ensures Holds(frozen, held)
  {
    ApplyEdit(p, e);
  }

  /** An event list edited in place on the live object is edited in the
      published bundle too: the bundle goes on holding what it held exactly when
      the list is refused or asks for what is there already. */
  method EditEventsAfterPublish(live: Parts, published: Bundle, i: nat, field: string, list: seq<string>,
                                valid: Option<set<string>>, ghost held: Content) returns (ok: bool)
    requires i < |live.policies| && SharesEvents(published.parts.policies, live.policies)
        && Holds(published.parts, held)
    requires EventsApart(published.parts)
    modifies live.policies[i].events
    ensures published.parts.policies[i].View().content.events == live.policies[i].View().content.events
    ensures live.policies[i].events.value == EventsAfter(old(live.policies[i].events.value), field, list, valid)
    ensures Holds(published.parts, held) <==> LeavesEvents(old(live.policies[i].events.value), field, list, valid)
  {
    ghost var p := published.parts;
    assert p.policies[i].events == live.policies[i].events;
    assert p.policies[i] in p.policies;
    assert held.policies[i].content.events == live.policies[i].events.value;
    LeavesEventsIff(live.policies[i].events.value, field, list, valid);
    ok := live.policies[i].SetEvents(field, list, valid);
    assert Holds(p, held) ==> held.policies[i] == p.policies[i].View();
  }
}
