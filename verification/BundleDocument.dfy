// What a vessel gets out of its document: what the office would resolve for it
// from the bundle's own assignments.
module BundleDocument {
  import opened Prelude
  import opened Reports
  import opened Scopes
  import opened Compliance
  import opened FieldPolicy
  import opened FieldRules
  import opened ConfigBundle

  /** The document names its bundle, has one configuration per schema, and turns
      on exactly the profiles some covering assignment lists. */
  lemma DocumentMeaning(b: Bundle, c: Content, vessel: string, groups: seq<string>, versionNo: int, w: Wire)
    requires b.signature.Some? && IsWire(b, c, vessel, groups, versionNo, w)
    ensures w.wireVersion == 1 && w.bundleId == b.signature.value.id && w.publishedAt == b.signature.value.at
    ensures w.versionNo == versionNo && w.defaultRoles == b.defaultRoles
    ensures |w.schemas| == |b.schemas|
    ensures forall i :: 0 <= i < |b.schemas| ==>
              w.schemas[i].schemaName == b.schemas[i].name && w.schemas[i].schemaVersion == b.schemas[i].version
    ensures forall p :: p in w.profiles <==>
              exists a :: a in c.profiles && CoversVessel(a.scope, vessel, groups) && p in a.content
    ensures w.maxGapHours == CadenceOf(c.cadences, vessel, groups).maxGapHours
  {
    forall i | 0 <= i < |b.schemas|
      ensures w.schemas[i].schemaName == b.schemas[i].name && w.schemas[i].schemaVersion == b.schemas[i].version
    {
      assert IsSchemaConfig(c.policies, vessel, groups, b.schemas[i], w.schemas[i]);
    }
    forall p ensures p in w.profiles <==>
                     exists a :: a in c.profiles && CoversVessel(a.scope, vessel, groups) && p in a.content
    {
      EnabledMember(c.profiles, vessel, groups, ALL_PROFILES, p);
      EveryProfileKnown(p);
    }
  }

  /** Continuity rules run aboard under the document's severities find what they
      find ashore under the severities the office resolves from the same content. */
  lemma SameSeveritiesAboard(b: Bundle, c: Content, vessel: string, groups: seq<string>, versionNo: int, w: Wire,
                             base: Config, ashore: SeverityMap)
    requires b.signature.Some? && IsWire(b, c, vessel, groups, versionNo, w)
    requires IsEffective(c.severities, vessel, groups, ashore)
    ensures ConfigForVessel(base, w.severities) == ConfigForVessel(base, ashore)
    ensures forall rule :: rule in w.severities <==>
              rule in OVERRIDABLE_RULES && EffectiveSeverity(c.severities, vessel, groups, rule).Some?
  {
    SameSeverities(c.severities, vessel, groups, w.severities, ashore);
    forall rule ensures rule in w.severities <==>
                        rule in OVERRIDABLE_RULES && EffectiveSeverity(c.severities, vessel, groups, rule).Some?
    {
      if rule in OVERRIDABLE_RULES {
        assert (if rule in w.severities then Some(w.severities[rule]) else None)
            == EffectiveSeverity(c.severities, vessel, groups, rule);
      }
    }
  }

  /** And the field check finds the same under a schema's configuration in the
      document as under the policy the office resolves for that schema. */
  lemma SamePolicyAboard(b: Bundle, c: Content, vessel: string, groups: seq<string>, versionNo: int, w: Wire, i: nat,
                         ashore: Rules, r: Report, fields: seq<Field>, parses: Parses)
    requires b.signature.Some? && IsWire(b, c, vessel, groups, versionNo, w) && i < |b.schemas|
    requires IsEffectivePolicy(ForSchema(c.policies, b.schemas[i].name, b.schemas[i].version), vessel, groups, ashore)
    ensures |w.schemas| == |b.schemas|
    ensures FindingsOver(r, fields, w.schemas[i].policy, w.schemas[i].events, parses)
         == FindingsOver(r, fields, ashore.policy, ashore.events, parses)
    ensures w.schemas[i].prefill == ashore.prefill
  {
    assert IsSchemaConfig(c.policies, vessel, groups, b.schemas[i], w.schemas[i]);
    SamePolicies(ForSchema(c.policies, b.schemas[i].name, b.schemas[i].version), vessel, groups, w.schemas[i], ashore);
  }

  /** Assignments for other schemas or other versions of the schema have no say. */
  lemma {:induction false} OnlyItsSchemaCounts(all: seq<Assignment>, name: string, version: string)
    ensures forall a :: a in ForSchema(all, name, version) <==>
              a in all && a.content.schemaName == name && a.content.schemaVersion == version
  {
    if all != [] {
      OnlyItsSchemaCounts(all[..|all| - 1], name, version);
      assert forall a :: a in all <==> a in all[..|all| - 1] || a == all[|all| - 1];
    }
  }
}
