// Field rules: what a report's fields must carry under a company's field
// policy, and how the errors grow with the policy.
module FieldRules {
  import opened Prelude
  import opened Reports
  import opened FieldPolicy

  datatype FieldType = TextField | EnumField | WholeNumberField | DecimalField | BooleanField
                     | DateField | TimeField | DateTimeField | OtherField

  datatype Field = Field(name: string, kind: FieldType, maxLength: Option<nat>, schemaMandatory: bool,
                         ghgRelevant: bool)

  /** Whether a text parses as the date and time layout of a field type. */
  type Parses = (FieldType, string) -> bool

  // ---- The state of a field on one report ----

  function StateFor(policy: map<string, State>, f: Field): State {
    if f.schemaMandatory then SchemaMandatory
    else if f.name in policy then policy[f.name]
    else if f.ghgRelevant then Recommended
    else Optional
  }

  predicate AppliesTo(events: map<string, seq<string>>, field: string, eventType: string) {
    || eventType == ""
    || field !in events
    || |events[field]| == 0
    || exists i :: 0 <= i < |events[field]| && (events[field][i] == ALL_EVENTS || events[field][i] == eventType)
  }

  function StateForEvent(policy: map<string, State>, f: Field, events: map<string, seq<string>>,
                         eventType: string): State
  {
    if f.schemaMandatory then SchemaMandatory
    else if !AppliesTo(events, f.name, eventType) then Hidden
    else StateFor(policy, f)
  }

  // ---- Checks ----

  function TypeError(f: Field): Finding {
    Finding(FieldType, Error, f.name)
  }

  function IsWhole(n: real): bool {
    n == n.Floor as real
  }

  function FormatFindings(v: Value, f: Field, parses: Parses): seq<Finding> {
    match f.kind
    case TextField | EnumField =>
      if !v.Text? then [TypeError(f)]
      else if f.maxLength.Some? && |v.s| > f.maxLength.value then [Finding(FieldMaxLength, Error, f.name)]
      else []
    case WholeNumberField =>
      if !v.Num? then [TypeError(f)] else if !IsWhole(v.n) then [Finding(FieldFormat, Error, f.name)] else []
    case DecimalField => if v.Num? then [] else [TypeError(f)]
    case BooleanField => if v.Flag? then [] else [TypeError(f)]
    case DateField | TimeField | DateTimeField =>
      if !v.Text? then [TypeError(f)] else if !parses(f.kind, v.s) then [Finding(FieldFormat, Error, f.name)] else []
    case OtherField => []
  }

  function WholeNumber(k: int): Value {
    Num(k as real)
  }

  /** The value is one of the field's type: text no longer than allowed, a whole
      number, a number, a truth value, or a text that parses. */
  ghost predicate Belongs(v: Value, f: Field, parses: Parses) {
    match f.kind
    case TextField | EnumField => exists s :: v == Text(s) && (f.maxLength.None? || |s| <= f.maxLength.value)
    case WholeNumberField => exists k :: v == WholeNumber(k)
    case DecimalField => exists x :: v == Num(x)
    case BooleanField => exists b :: v == Flag(b)
    case DateField | TimeField | DateTimeField => exists s :: v == Text(s) && parses(f.kind, s)
    case OtherField => true
  }

  /** Which rule a value outside the field's type breaks: its type if it is of
      another kind, else its length or its format. */
  function BrokenRule(v: Value, f: Field): RuleId {
    match f.kind
    case TextField | EnumField => if v.Text? then FieldMaxLength else FieldType
    case WholeNumberField => if v.Num? then FieldFormat else FieldType
    case DateField | TimeField | DateTimeField => if v.Text? then FieldFormat else FieldType
    case _ => FieldType
  }

  lemma WholeIff(v: Value)
    requires v.Num?
    ensures IsWhole(v.n) <==> exists k :: v == WholeNumber(k)
  {
    if IsWhole(v.n) { assert v == WholeNumber(v.n.Floor); }
  }

  /** The format check finds nothing for values of the field's type, and exactly
      one error, on the field, for any other. */
  lemma FormatMeaning(v: Value, f: Field, parses: Parses)
    ensures FormatFindings(v, f, parses) ==
            if Belongs(v, f, parses) then [] else [Finding(BrokenRule(v, f), Error, f.name)]
  {
    match f.kind
    case TextField | EnumField => if v.Text? { assert v == Text(v.s); }
    case WholeNumberField =>
      if v.Num? { WholeIff(v); }
    case DecimalField => if v.Num? { assert v == Num(v.n); }
    case BooleanField => if v.Flag? { assert v == Flag(v.b); }
    case DateField | TimeField | DateTimeField => if v.Text? { assert v == Text(v.s); }
    case OtherField =>
  }

  function Required(f: Field, severity: Severity): Finding {
    Finding(FieldRequired, severity, f.name)
  }

  /** What one field of the report is found to break, given the field's state. */
  function FieldFindings(r: Report, f: Field, state: State, parses: Parses): seq<Finding> {
    if state.Hidden? then []
    else if r.IsEmpty(f.name) then
      if state.SchemaMandatory? || state.CompanyMandatory? then [Required(f, Error)]
      else if state.Recommended? then [Required(f, Warning)]
      else []
    else FormatFindings(r.fields[f.name], f, parses)
  }

  function FindingsOver(r: Report, fields: seq<Field>, policy: map<string, State>, events: map<string, seq<string>>,
                        parses: Parses): seq<Finding>
  {
    if fields == [] then []
    else
      var last := fields[|fields| - 1];
      FindingsOver(r, fields[..|fields| - 1], policy, events, parses)
      + FieldFindings(r, last, StateForEvent(policy, last, events, r.eventType), parses)
  }

  method CheckFieldFormat(r: Report, f: Field, parses: Parses) returns (findings: seq<Finding>)
    requires !r.IsEmpty(f.name)
    ensures findings == if Belongs(r.fields[f.name], f, parses) then []
                        else [Finding(BrokenRule(r.fields[f.name], f), Error, f.name)]
  {
    var v := r.fields[f.name];
    FormatMeaning(v, f, parses);
    findings := [];
    match f.kind {
      case TextField | EnumField =>
        if !v.Text? { return [TypeError(f)]; }
        if f.maxLength.Some? && |v.s| > f.maxLength.value {
          findings := findings + [Finding(FieldMaxLength, Error, f.name)];
        }
      case WholeNumberField =>
        if !v.Num? { return [TypeError(f)]; }
        if !IsWhole(v.n) { findings := findings + [Finding(FieldFormat, Error, f.name)]; }
      case DecimalField =>
        if !v.Num? { return [TypeError(f)]; }
      case BooleanField =>
        if !v.Flag? { return [TypeError(f)]; }
      case DateField | TimeField | DateTimeField =>
        if !v.Text? { return [TypeError(f)]; }
        if !parses(f.kind, v.s) { findings := findings + [Finding(FieldFormat, Error, f.name)]; }
      case OtherField =>
    }
  }

  method EvaluateFieldRules(r: Report, fields: seq<Field>, policy: map<string, State>, events: map<string, seq<string>>,
                            parses: Parses) returns (findings: seq<Finding>)
    ensures findings == FindingsOver(r, fields, policy, events, parses)
  {
    findings := [];
    for i := 0 to |fields|
      invariant findings == FindingsOver(r, fields[..i], policy, events, parses)
    {
      var f := fields[i];
      assert fields[..i + 1][..i] == fields[..i];
      var state := StateForEvent(policy, f, events, r.eventType);
      if state.Hidden? { continue; }
      var empty := r.IsEmpty(f.name);
      if state.SchemaMandatory? || state.CompanyMandatory? {
        if empty { findings := findings + [Required(f, Error)]; }
      } else if state.Recommended? {
        if empty { findings := findings + [Required(f, Warning)]; }
      }
      if !empty {
        var more := CheckFieldFormat(r, f, parses);
        FormatMeaning(r.fields[f.name], f, parses);
        findings := findings + more;
      }
    }
    assert fields[..|fields|] == fields;
  }

  // ---- Monotonicity ----

  /** How much a state asks for: hidden, optional, recommended, mandatory. */
  function Demand(s: State): int {
    match s
    case Hidden => 0
    case Recommended => 2
    case CompanyMandatory => 3
    case SchemaMandatory => 3
    case _ => 1
  }

  function ErrorsIn(findings: seq<Finding>): multiset<Finding> {
    if findings == [] then multiset{}
    else
      var last := findings[|findings| - 1];
      ErrorsIn(findings[..|findings| - 1]) + if last.severity == Error then multiset{last} else multiset{}
  }

  lemma {:induction false} ErrorsJoin(a: seq<Finding>, b: seq<Finding>)
    ensures ErrorsIn(a + b) == ErrorsIn(a) + ErrorsIn(b)
  {
    if b == [] {
      assert a + b == a;
    } else {
      assert (a + b)[..|a + b| - 1] == a + b[..|b| - 1];
      ErrorsJoin(a, b[..|b| - 1]);
    }
  }

  lemma OneErrorAtMost(f: Finding)
    ensures ErrorsIn([f]) == if f.severity == Error then multiset{f} else multiset{}
    ensures ErrorsIn([]) == multiset{}
  {
    assert [f][..0] == [];
  }

  lemma StricterStateKeepsErrors(r: Report, f: Field, weak: State, strict: State, parses: Parses)
    requires Demand(weak) <= Demand(strict)
    ensures ErrorsIn(FieldFindings(r, f, weak, parses)) <= ErrorsIn(FieldFindings(r, f, strict, parses))
  {
    OneErrorAtMost(Required(f, Error));
    OneErrorAtMost(Required(f, Warning));
  }

  ghost predicate AsStrict(r: Report, fields: seq<Field>, weak: map<string, State>,
                           weakEvents: map<string, seq<string>>, strict: map<string, State>,
                           strictEvents: map<string, seq<string>>)
  {
    forall f :: f in fields ==>
        Demand(StateForEvent(weak, f, weakEvents, r.eventType))
            <= Demand(StateForEvent(strict, f, strictEvents, r.eventType))
  }

  /** If every field's state on this report, event lists included, asks for at
      least as much under the second policy, then every error under the first is
      an error under the second, as many times. */
  lemma {:induction false} StricterPolicyKeepsErrors(r: Report, fields: seq<Field>, weak: map<string, State>,
                                                     weakEvents: map<string, seq<string>>, strict: map<string, State>,
                                                     strictEvents: map<string, seq<string>>, parses: Parses)
    requires AsStrict(r, fields, weak, weakEvents, strict, strictEvents)
    ensures ErrorsIn(FindingsOver(r, fields, weak, weakEvents, parses))
        <= ErrorsIn(FindingsOver(r, fields, strict, strictEvents, parses))
  {
    if fields != [] {
      var init, f := fields[..|fields| - 1], fields[|fields| - 1];
      StricterPolicyKeepsErrors(r, init, weak, weakEvents, strict, strictEvents, parses);
      var w, s := StateForEvent(weak, f, weakEvents, r.eventType), StateForEvent(strict, f, strictEvents, r.eventType);
      StricterStateKeepsErrors(r, f, w, s, parses);
      ErrorsJoin(FindingsOver(r, init, weak, weakEvents, parses), FieldFindings(r, f, w, parses));
      ErrorsJoin(FindingsOver(r, init, strict, strictEvents, parses), FieldFindings(r, f, s, parses));
    }
  }

  /** The fields the schema makes mandatory, or the others. */
  function Those(fields: seq<Field>, mandatory: bool): seq<Field> {
    if fields == [] then []
    else
      Those(fields[..|fields| - 1], mandatory)
      + if fields[|fields| - 1].schemaMandatory == mandatory then [fields[|fields| - 1]] else []
  }

  lemma {:induction false} ThoseMembers(fields: seq<Field>, mandatory: bool)
    ensures forall f :: f in Those(fields, mandatory) <==> f in fields && f.schemaMandatory == mandatory
  {
    if fields != [] {
      ThoseMembers(fields[..|fields| - 1], mandatory);
      assert forall f :: f in fields <==> f in fields[..|fields| - 1] || f == fields[|fields| - 1];
    }
  }

  /** The findings over all fields are those on the mandatory ones and those on the others. */
  lemma {:induction false} FindingsSplit(r: Report, fields: seq<Field>, policy: map<string, State>,
                                         events: map<string, seq<string>>, parses: Parses)
    ensures multiset(FindingsOver(r, fields, policy, events, parses))
         == multiset(FindingsOver(r, Those(fields, true), policy, events, parses))
            + multiset(FindingsOver(r, Those(fields, false), policy, events, parses))
  {
    if fields != [] {
      var init, f := fields[..|fields| - 1], fields[|fields| - 1];
      FindingsSplit(r, init, policy, events, parses);
      FindingsOneMore(r, Those(init, f.schemaMandatory), f, policy, events, parses);
      assert Those(fields, f.schemaMandatory) == Those(init, f.schemaMandatory) + [f];
      assert Those(fields, !f.schemaMandatory) == Those(init, !f.schemaMandatory);
    }
  }

  lemma {:induction false} MandatoryAlike(r: Report, fields: seq<Field>, a: map<string, State>,
                                          aEvents: map<string, seq<string>>, b: map<string, State>,
                                          bEvents: map<string, seq<string>>, parses: Parses)
    requires forall f :: f in fields ==> f.schemaMandatory
    ensures FindingsOver(r, fields, a, aEvents, parses) == FindingsOver(r, fields, b, bEvents, parses)
  {
    if fields != [] {
      assert fields[|fields| - 1] in fields;
      MandatoryAlike(r, fields[..|fields| - 1], a, aEvents, b, bEvents, parses);
    }
  }

  /** For any fields, the findings under one policy are the findings on the
      schema-mandatory fields under any other policy and event lists, and its own
      on the other fields. */
  lemma SchemaMandatoryUnaffected(r: Report, fields: seq<Field>, a: map<string, State>,
                                  aEvents: map<string, seq<string>>, b: map<string, State>,
                                  bEvents: map<string, seq<string>>, parses: Parses)
    ensures multiset(FindingsOver(r, fields, a, aEvents, parses))
         == multiset(FindingsOver(r, Those(fields, true), b, bEvents, parses))
            + multiset(FindingsOver(r, Those(fields, false), a, aEvents, parses))
  {
    ThoseMembers(fields, true);
    MandatoryAlike(r, Those(fields, true), a, aEvents, b, bEvents, parses);
    FindingsSplit(r, fields, a, aEvents, parses);
  }

  // ---- What the check finds, from the policy and the event lists themselves ----

  /** The field has no event list, or one that is empty, has the wildcard or
      names the event; a report of no event is never narrowed. */
  predicate Admits(events: map<string, seq<string>>, field: string, eventType: string) {
    eventType == "" || field !in events || events[field] == [] || "*" in events[field] || eventType in events[field]
  }

  /** The schema demands a value, or the company does on this event. */
  predicate Demanded(f: Field, policy: map<string, State>, events: map<string, seq<string>>, eventType: string) {
    || f.schemaMandatory
    || (&& Admits(events, f.name, eventType) && f.name in policy
        && (policy[f.name] == CompanyMandatory || policy[f.name] == SchemaMandatory))
  }

  /** The company recommends the field on this event, or says nothing and it matters to a regulation. */
  predicate Advised(f: Field, policy: map<string, State>, events: map<string, seq<string>>, eventType: string) {
    && !f.schemaMandatory && Admits(events, f.name, eventType)
    && if f.name in policy then policy[f.name] == Recommended else f.ghgRelevant
  }

  /** The schema demands the field, or the company does not hide it on this event. */
  predicate Visible(f: Field, policy: map<string, State>, events: map<string, seq<string>>, eventType: string) {
    f.schemaMandatory || (Admits(events, f.name, eventType) && (f.name in policy ==> policy[f.name] != Hidden))
  }

  /** Absent, null or an empty text. */
  predicate Blank(r: Report, field: string) {
    field in r.fields ==> r.fields[field] == Nil || r.fields[field] == Text("")
  }

  /** A field that is not visible yields nothing; a blank one an error if
      demanded and a warning if advised; any other nothing exactly when its value
      is of its type, and one error if not. */
  lemma FieldMeaning(r: Report, f: Field, policy: map<string, State>, events: map<string, seq<string>>, parses: Parses)
    ensures FindingsOver(r, [f], policy, events, parses) ==
            if !Visible(f, policy, events, r.eventType) then []
            else if Blank(r, f.name) then
              if Demanded(f, policy, events, r.eventType) then [Finding(FieldRequired, Error, f.name)]
              else if Advised(f, policy, events, r.eventType) then [Finding(FieldRequired, Warning, f.name)]
              else []
            else if Belongs(r.fields[f.name], f, parses) then []
            else [Finding(BrokenRule(r.fields[f.name], f), Error, f.name)]
  {
    assert [f][..0] == [];
    var state := StateForEvent(policy, f, events, r.eventType);
    assert FindingsOver(r, [f], policy, events, parses) == [] + FieldFindings(r, f, state, parses);
    if !Blank(r, f.name) { FormatMeaning(r.fields[f.name], f, parses); }
  }

  lemma FindingsOneMore(r: Report, fields: seq<Field>, f: Field, policy: map<string, State>,
                        events: map<string, seq<string>>, parses: Parses)
    ensures FindingsOver(r, fields + [f], policy, events, parses)
         == FindingsOver(r, fields, policy, events, parses)
            + FieldFindings(r, f, StateForEvent(policy, f, events, r.eventType), parses)
  {
    assert (fields + [f])[..|fields|] == fields;
  }

  /** The findings come in the order of the fields, each field's on its own. */
  lemma FindingsInOrder(r: Report, fields: seq<Field>, f: Field, policy: map<string, State>,
                        events: map<string, seq<string>>, parses: Parses)
    ensures FindingsOver(r, fields + [f], policy, events, parses)
         == FindingsOver(r, fields, policy, events, parses) + FindingsOver(r, [f], policy, events, parses)
    ensures FindingsOver(r, [], policy, events, parses) == []
  {
    FindingsOneMore(r, fields, f, policy, events, parses);
    FindingsOneMore(r, [], f, policy, events, parses);
    assert [] + [f] == [f];
  }

  /** A demanded field is blank, or a visible one holds a value not of its type. */
  ghost predicate Faulty(r: Report, f: Field, policy: map<string, State>, events: map<string, seq<string>>,
                         parses: Parses)
  {
    if Blank(r, f.name) then Demanded(f, policy, events, r.eventType)
    else Visible(f, policy, events, r.eventType) && !Belongs(r.fields[f.name], f, parses)
  }

  lemma HasOfConcat(a: seq<Finding>, b: seq<Finding>, severity: Severity)
    ensures Has(a + b, severity) <==> Has(a, severity) || Has(b, severity)
  {
    if i :| 0 <= i < |a| && a[i].severity == severity { assert (a + b)[i].severity == severity; }
    if i :| 0 <= i < |b| && b[i].severity == severity { assert (a + b)[|a| + i].severity == severity; }
  }

  /** Some finding is of this severity. */
  ghost predicate Has(findings: seq<Finding>, severity: Severity) {
    exists i :: 0 <= i < |findings| && findings[i].severity == severity
  }

  lemma OneFieldHas(r: Report, f: Field, policy: map<string, State>, events: map<string, seq<string>>, parses: Parses)
    ensures var found := FindingsOver(r, [f], policy, events, parses);
            && (Has(found, Error) <==> Faulty(r, f, policy, events, parses))
            && (Has(found, Warning) <==> Blank(r, f.name) && Advised(f, policy, events, r.eventType))
  {
    FieldMeaning(r, f, policy, events, parses);
    var found := FindingsOver(r, [f], policy, events, parses);
    if found != [] { assert found[0].severity == Error || found[0].severity == Warning; }
    SomeOrNone(found);
  }

  lemma SomeOrNone(found: seq<Finding>)
    requires |found| <= 1
    ensures forall severity :: Has(found, severity) <==> found != [] && found[0].severity == severity
  {
  }

  /** The field check blocks a report exactly when some demanded field is blank
      or some visible one holds a value not of its type; and it warns exactly
      when some advised field is blank. */
  lemma {:induction false} BlockedIff(r: Report, fields: seq<Field>, policy: map<string, State>,
                                      events: map<string, seq<string>>, parses: Parses)
    ensures HasErrors(FindingsOver(r, fields, policy, events, parses)) <==>
            exists f :: f in fields && Faulty(r, f, policy, events, parses)
    ensures Has(FindingsOver(r, fields, policy, events, parses), Warning) <==>
            exists f :: f in fields && Blank(r, f.name) && Advised(f, policy, events, r.eventType)
  {
    if fields != [] {
      var init, f := fields[..|fields| - 1], fields[|fields| - 1];
      BlockedIff(r, init, policy, events, parses);
      assert fields == init + [f];
      FindingsInOrder(r, init, f, policy, events, parses);
      OneFieldHas(r, f, policy, events, parses);
      var a, b := FindingsOver(r, init, policy, events, parses), FindingsOver(r, [f], policy, events, parses);
      HasOfConcat(a, b, Error);
      HasOfConcat(a, b, Warning);
      assert forall g :: g in fields <==> g in init || g == f;
    }
  }
}
