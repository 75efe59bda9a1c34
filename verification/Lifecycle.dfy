// The report aggregate: field edits, the lifecycle state machine, and the
// audit events both leave behind.
module Lifecycle {
  import opened Prelude
  import opened Cells
  import Reports

  type Instant = Reports.Instant
  type Value = Reports.Value
  type Fields = map<string, Value>

  datatype State = Draft | Ready | Submitted | Synced | Pushed | Remarked | Invalidated
  {
    /** Committed: submitted at some time, so part of the report chain. */
    predicate InChain() {
      this != Draft && this != Ready
    }
  }

  datatype FieldChange = FieldChange(field: string, oldValue: Value, newValue: Value)

  datatype Detail =
    | Plain
    | CreatedFor(schemaName: string, eventType: string)
    | Health(errors: nat, warnings: nat, infos: nat)
    | Saved(section: string, changes: seq<FieldChange>)
    | RemarkedFields(fields: seq<string>)
    | Broken(rules: seq<Reports.RuleId>, fromState: Option<State>)
    | NextVersion(versionNo: int)

  datatype EventKind =
    | CreatedEvent
    | HealthCheckResult
    | SubmittedEvent
    | ResubmittedEvent
    | SyncedEvent
    | RemarkedEvent
    | InvalidatedEvent
    | CorrectionStarted
    | SectionSaved

  datatype Event = Event(reportId: string, versionNo: int, kind: EventKind, at: Instant, actor: string, detail: Detail)

  /** One report version as a value. */
  datatype Version = Version(
    reportId: string,
    versionNo: int,
    schemaName: string,
    eventType: string,
    eventTime: Instant,
    fields: Fields,
    state: State,
    invalidatedFrom: Option<State>,
    invalidatedRules: seq<Reports.RuleId>,
    submittedAt: Option<Instant>,
    submittedBy: string,
    createdAt: Instant,
    createdBy: string,
    updatedAt: Instant)
  {
    /** The view the rule engine evaluates. */
    function ToValidation(): Reports.Report {
      Reports.Report(reportId, versionNo, schemaName, eventType, eventTime, fields)
    }
  }

  // ---- Field edits ----

  /** Reading an absent field yields nil. */
  function Lookup(fields: Fields, name: string): Value {
    if name in fields then fields[name] else Reports.Nil
  }

  /** The requested changes that differ from what is there. */
  function RealChanges(fields: Fields, changes: Fields): Fields {
    map name | name in changes && Lookup(fields, name) != changes[name] :: changes[name]
  }

  /** Writes the recorded new values, oldest first. */
  function Replay(fields: Fields, deltas: seq<FieldChange>): Fields {
    if deltas == [] then fields
    else
      var last := deltas[|deltas| - 1];
      Replay(fields, deltas[..|deltas| - 1])[last.field := last.newValue]
  }

  /** The deltas are the real changes, each field once, with the value it had. */
  ghost predicate DeltasOf(deltas: seq<FieldChange>, fields: Fields, changes: Fields) {
    && Replay(map[], deltas) == RealChanges(fields, changes)
    && |deltas| == |RealChanges(fields, changes)|
    && forall i :: 0 <= i < |deltas| ==>
                     deltas[i].oldValue == Lookup(fields, deltas[i].field) != deltas[i].newValue
  }

  /** Writes the recorded old values, newest first. */
  function Undo(fields: Fields, deltas: seq<FieldChange>): Fields
    decreases |deltas|
  {
    if deltas == [] then fields
    else
      var last := deltas[|deltas| - 1];
      Undo(fields[last.field := last.oldValue], deltas[..|deltas| - 1])
  }

  /** Equal when an absent field and a nil field are read alike. */
  ghost predicate SameReadings(a: Fields, b: Fields) {
    forall name :: Lookup(a, name) == Lookup(b, name)
  }

  const DATE_UTC := "Date_UTC"
  const TIME_UTC := "Time_UTC"

  /** Parsing of a date and a time of day; the layout is not modelled. */
  type Clock = (string, string) -> Option<Instant>

  /** The fields hold a date and a time of day as texts that together parse to this instant. */
  predicate Gives(fields: Fields, parse: Clock, x: Instant) {
    && DATE_UTC in fields && fields[DATE_UTC].Text?
    && TIME_UTC in fields && fields[TIME_UTC].Text?
    && parse(fields[DATE_UTC].s, fields[TIME_UTC].s) == Some(x)
  }

  /** The event time the fields give, or the previous one. */
  function EventTimeOf(fields: Fields, previous: Instant, parse: Clock): Instant {
    var date, time := Lookup(fields, DATE_UTC), Lookup(fields, TIME_UTC);
    if date.Text? && time.Text? then
      match parse(date.s, time.s)
      case Some(t) => t
      case None => previous
    else previous
  }

  // ---- Specification of the transitions ----

  function Count(findings: seq<Reports.Finding>, severity: Reports.Severity): nat {
    if findings == [] then 0
    else Count(findings[..|findings| - 1], severity) + if findings[|findings| - 1].severity == severity then 1 else 0
  }

  function AfterCheck(v: Version, findings: seq<Reports.Finding>, now: Instant): Version {
    v.(updatedAt := now, state := if Reports.HasErrors(findings) then Draft else Ready)
  }

  /** The version once these fields are in place. */
  function Edited(v: Version, fields: Fields, now: Instant, parse: Clock): Version {
    v.(fields := fields,
       updatedAt := now,
       state := if v.state == Ready then Draft else v.state,
       eventTime := EventTimeOf(fields, v.eventTime, parse))
  }

  function AfterSave(v: Version, changes: Fields, now: Instant, parse: Clock): Version {
    var edited := RealChanges(v.fields, changes);
    if edited == map[] then v else Edited(v, v.fields + edited, now, parse)
  }

  function AfterSubmit(v: Version, actor: string, now: Instant): Version {
    v.(state := Submitted, submittedAt := Some(now), submittedBy := actor, updatedAt := now)
  }

  function AfterInvalidate(v: Version, rules: seq<Reports.RuleId>, at: Instant): Version {
    v.(state := Invalidated,
       invalidatedFrom := if v.state == Invalidated then v.invalidatedFrom else Some(v.state),
       invalidatedRules := rules,
       updatedAt := at)
  }

  /** The next version: a draft with this one's values and no history of its own. */
  function CorrectionOf(v: Version, actor: string, now: Instant): Version {
    Version(v.reportId, v.versionNo + 1, v.schemaName, v.eventType, v.eventTime, v.fields, Draft, None, [], None, "",
            now, actor, now)
  }

  /** A first version; its event time follows prefilled date and time fields. */
  function FirstVersion(id: string, schema: string, event: string, at: Instant, prefilled: Fields, author: string,
                        now: Instant, parse: Clock): Version {
    Version(id, 1, schema, event, EventTimeOf(prefilled, at, parse), prefilled, Draft, None, [], None, "", now,
            author, now)
  }

  // ---- The aggregate ----

  class ReportAggregate {
    var reportId: string
    var versionNo: int
    var schemaName: string
    var eventType: string
    var eventTime: Instant
    const fields: Cell<Fields>
    var state: State
    var invalidatedFrom: Option<State>
    var invalidatedRules: seq<Reports.RuleId>
    var submittedAt: Option<Instant>
    var submittedBy: string
    var createdAt: Instant
    var createdBy: string
    var updatedAt: Instant

    ghost function View(): Version
      reads this, fields
    {
      Version(reportId, versionNo, schemaName, eventType, eventTime, fields.value, state, invalidatedFrom,
              invalidatedRules, submittedAt, submittedBy, createdAt, createdBy, updatedAt)
    }

    /** A new version over this field map. */
    constructor From(v: Version, fields: Cell<Fields>)
      requires fields.value == v.fields
      ensures View() == v && this.fields == fields
    {
      reportId, versionNo, schemaName, eventType := v.reportId, v.versionNo, v.schemaName, v.eventType;
      eventTime, state := v.eventTime, v.state;
      this.fields := fields;
      invalidatedFrom, invalidatedRules := v.invalidatedFrom, v.invalidatedRules;
      submittedAt, submittedBy := v.submittedAt, v.submittedBy;
      createdAt, createdBy, updatedAt := v.createdAt, v.createdBy, v.updatedAt;
    }

    /** Starts a first version over a copy of the prefilled fields, unless no id can be generated. */
    static method NewReport(id: Option<string>, schema: string, event: string, at: Instant, prefilled: Cell<Fields>,
                            author: string, now: Instant, parse: Clock)
      returns (r: ReportAggregate?, created: Option<Event>)
      ensures id.None? ==> r == null && created == None
      ensures id.Some? ==>
                && r != null && fresh(r) && fresh(r.fields)
                && r.View() == FirstVersion(id.value, schema, event, at, prefilled.value, author, now, parse)
                && created == Some(Event(id.value, 1, CreatedEvent, now, author, CreatedFor(schema, event)))
    {
      if id.None? { return null, None; }
      var copy := new Cell(prefilled.value);
      r := new ReportAggregate.From(
        Version(id.value, 1, schema, event, at, copy.value, Draft, None, [], None, "", now, author, now), copy);
      var _ := r.RecomputeEventTime(parse);
      created := Some(Event(r.reportId, r.versionNo, CreatedEvent, now, author, CreatedFor(schema, event)));
    }

    method RecomputeEventTime(parse: Clock) returns (changed: bool)
      modifies this`eventTime
      ensures eventTime == EventTimeOf(fields.value, old(eventTime), parse)
      ensures forall x :: Gives(fields.value, parse, x) ==> eventTime == x
      ensures (forall x :: !Gives(fields.value, parse, x)) ==> eventTime == old(eventTime)
      ensures changed <==> eventTime != old(eventTime)
    {
      var date, time := Lookup(fields.value, DATE_UTC), Lookup(fields.value, TIME_UTC);
      if !date.Text? || !time.Text? { return false; }
      var t := parse(date.s, time.s);
      assert t.Some? ==> Gives(fields.value, parse, t.value);
      if t.None? || t.value == eventTime { return false; }
      eventTime := t.value;
      return true;
    }

    /** Writes the changes that differ, in any order, and records exactly those. */
    method ApplyChanges(changes: Fields) returns (deltas: seq<FieldChange>)
      modifies fields
      ensures fields.value == old(fields.value) + RealChanges(old(fields.value), changes)
      ensures DeltasOf(deltas, old(fields.value), changes)
    {
      var before := fields.value;
      deltas := [];
      ghost var done: Fields := map[];
      var todo := changes.Keys;
      assert changes - todo == map[];
      while todo != {}
        invariant todo <= changes.Keys
        invariant done == changes - todo
        invariant fields.value == before + RealChanges(before, done)
        invariant DeltasOf(deltas, before, done)
        decreases todo
      {
        var name :| name in todo;  // map iteration: any order
        OneMoreChange(changes, todo, name);
        SavedGrows(before, done, name, changes[name]);
        DeltasGrow(deltas, before, done, name, changes[name]);
        var oldValue, newValue := Lookup(fields.value, name), changes[name];
        todo, done := todo - {name}, done[name := changes[name]];
        if oldValue == newValue { continue; }
        deltas := deltas + [FieldChange(name, oldValue, newValue)];
        fields.value := fields.value[name := newValue];
      }
      assert changes - todo == changes;
    }

    method SaveSection(section: string, changes: Fields, actor: string, now: Instant, parse: Clock)
      returns (event: Event)
      requires !state.InChain()
      modifies this, fields
      ensures View() == AfterSave(old(View()), changes, now, parse)
      ensures event.detail.Saved? && DeltasOf(event.detail.changes, old(fields.value), changes)
      ensures event == Event(reportId, versionNo, SectionSaved, now, actor, Saved(section, event.detail.changes))
    {
      var deltas := ApplyChanges(changes);
      NoDeltasNoChange(deltas, old(fields.value), changes);
      assert View() == old(View()).(fields := fields.value);
      if |deltas| > 0 { Touch(now, parse); }
      assert reportId == View().reportId && versionNo == View().versionNo;
      event := Event(reportId, versionNo, SectionSaved, now, actor, Saved(section, deltas));
    }

    /** An edited version is no longer checked, and its event time follows its fields. */
    method Touch(now: Instant, parse: Clock)
      modifies this
      ensures View() == Edited(old(View()), fields.value, now, parse)
    {
      updatedAt := now;
      if state == Ready { state := Draft; }
      var _ := RecomputeEventTime(parse);
    }

    /** Records a health check; without errors the version becomes ready. */
    method MarkReady(findings: seq<Reports.Finding>, now: Instant) returns (event: Option<Event>, ready: bool)
      modifies this
      ensures old(state).InChain() ==> event == None && !ready && View() == old(View())
      ensures !old(state).InChain() ==>
                && View() == AfterCheck(old(View()), findings, now)
                && ready == !Reports.HasErrors(findings)
                && event == Some(Event(reportId, versionNo, HealthCheckResult, now, "",
                                       Health(Count(findings, Reports.Error), Count(findings, Reports.Warning),
                                              Count(findings, Reports.Info))))
    {
      if state != Draft && state != Ready { return None, false; }
      var errors, warnings, infos := 0, 0, 0;
      for i := 0 to |findings|
        invariant errors == Count(findings[..i], Reports.Error)
        invariant warnings == Count(findings[..i], Reports.Warning)
        invariant infos == Count(findings[..i], Reports.Info)
      {
        assert findings[..i + 1][..i] == findings[..i];
        match findings[i].severity {
          case Error => errors := errors + 1;
          case Warning => warnings := warnings + 1;
          case Info => infos := infos + 1;
        }
      }
      assert findings[..|findings|] == findings;
      ErrorsCounted(findings);
      updatedAt := now;
      event := Some(Event(reportId, versionNo, HealthCheckResult, now, "", Health(errors, warnings, infos)));
      if errors > 0 {
        state := Draft;
        return event, false;
      }
      state := Ready;
      return event, true;
    }

    method Submit(actor: string, now: Instant) returns (event: Option<Event>)
      modifies this
      ensures old(state) != Ready ==> event == None && View() == old(View())
      ensures old(state) == Ready ==>
                && View() == AfterSubmit(old(View()), actor, now)
                && event == Some(Event(reportId, versionNo, if versionNo > 1 then ResubmittedEvent else SubmittedEvent,
                                       now, actor, Plain))
    {
      if state != Ready { return None; }
      var kind := if versionNo > 1 then ResubmittedEvent else SubmittedEvent;
      state := Submitted;
      submittedAt := Some(now);
      submittedBy := actor;
      updatedAt := now;
      return Some(Event(reportId, versionNo, kind, now, actor, Plain));
    }

    method MarkSynced(at: Instant) returns (event: Option<Event>)
      modifies this
      ensures old(state) != Submitted ==> event == None && View() == old(View())
      ensures old(state) == Submitted ==>
                && View() == old(View()).(state := Synced, updatedAt := at)
                && event == Some(Event(reportId, versionNo, SyncedEvent, at, "", Plain))
    {
      if state != Submitted { return None; }
      state := Synced;
      updatedAt := at;
      return Some(Event(reportId, versionNo, SyncedEvent, at, "", Plain));
    }

    method MarkRemarked(remarked: seq<string>, actor: string, at: Instant) returns (event: Option<Event>)
      modifies this
      ensures !old(state).InChain() ==> event == None && View() == old(View())
      ensures old(state).InChain() ==>
                && View() == old(View()).(state := Remarked, updatedAt := at)
                && event == Some(Event(reportId, versionNo, RemarkedEvent, at, actor, RemarkedFields(remarked)))
    {
      if state == Draft || state == Ready { return None; }
      state := Remarked;
      updatedAt := at;
      return Some(Event(reportId, versionNo, RemarkedEvent, at, actor, RemarkedFields(remarked)));
    }

    method Invalidate(rules: seq<Reports.RuleId>, at: Instant) returns (event: Event)
      modifies this
      ensures View() == AfterInvalidate(old(View()), rules, at)
      ensures event == Event(reportId, versionNo, InvalidatedEvent, at, "", Broken(rules, invalidatedFrom))
    {
      if state != Invalidated { invalidatedFrom := Some(state); }
      state := Invalidated;
      invalidatedRules := rules;
      updatedAt := at;
      return Event(reportId, versionNo, InvalidatedEvent, at, "", Broken(rules, invalidatedFrom));
    }

    /** Starts the next version over a copy of this one's fields; this one stays as it is. */
    method NewCorrection(actor: string, now: Instant) returns (next: ReportAggregate?, event: Option<Event>)
      ensures !state.InChain() ==> next == null && event == None
      ensures state.InChain() ==>
                && next != null && fresh(next) && fresh(next.fields)
                && next.View() == CorrectionOf(View(), actor, now)
                && event == Some(Event(reportId, versionNo, CorrectionStarted, now, actor, NextVersion(versionNo + 1)))
    {
      if state == Draft || state == Ready { return null, None; }
      var copy := new Cell(fields.value);
      next := new ReportAggregate.From(
        Version(reportId, versionNo + 1, schemaName, eventType, eventTime, copy.value, Draft, None, [], None, "", now,
                actor, now), copy);
      event := Some(Event(reportId, versionNo, CorrectionStarted, now, actor, NextVersion(versionNo + 1)));
    }
  }

  /** Whatever is saved into a correction, the committed version it corrects reads as before. */
  method CorrectAndSave(committed: ReportAggregate, saves: seq<(string, Fields)>, actor: string, now: Instant,
                        parse: Clock)
    returns (next: ReportAggregate?)
    ensures committed.View() == old(committed.View())
    ensures next != null <==> committed.state.InChain()
    ensures next != null ==>
              next.View() == AfterSaves(CorrectionOf(committed.View(), actor, now), saves, now, parse)
  {
    var started;
    next, started := committed.NewCorrection(actor, now);
    if next == null { return; }
    for i := 0 to |saves|
      invariant fresh(next) && fresh(next.fields)
      invariant next.View() == AfterSaves(CorrectionOf(committed.View(), actor, now), saves[..i], now, parse)
    {
      assert saves[..i + 1][..i] == saves[..i];
      SavesStayDraft(CorrectionOf(committed.View(), actor, now), saves[..i], now, parse);
      var _ := next.SaveSection(saves[i].0, saves[i].1, actor, now, parse);
    }
    assert saves[..|saves|] == saves;
  }

  function AfterSaves(v: Version, saves: seq<(string, Fields)>, now: Instant, parse: Clock): Version {
    if saves == [] then v
    else AfterSave(AfterSaves(v, saves[..|saves| - 1], now, parse), saves[|saves| - 1].1, now, parse)
  }

  lemma {:induction false} SavesStayDraft(v: Version, saves: seq<(string, Fields)>, now: Instant, parse: Clock)
    requires v.state == Draft
    ensures AfterSaves(v, saves, now, parse).state == Draft
  {
    if saves != [] { SavesStayDraft(v, saves[..|saves| - 1], now, parse); }
  }

  lemma {:induction false} ErrorsCounted(findings: seq<Reports.Finding>)
    ensures Reports.HasErrors(findings) <==> Count(findings, Reports.Error) > 0
  {
    if findings != [] {
      var init, last := findings[..|findings| - 1], findings[|findings| - 1];
      ErrorsCounted(init);
      if Reports.HasErrors(init) {
        var i :| 0 <= i < |init| && init[i].severity == Reports.Error;
        assert findings[i].severity == Reports.Error;
      }
      if Reports.HasErrors(findings) {
        var i :| 0 <= i < |findings| && findings[i].severity == Reports.Error;
        if i < |init| { assert init[i].severity == Reports.Error; }
      }
    }
  }

  lemma RealChangesGrow(before: Fields, done: Fields, name: string, value: Value)
    requires name !in done
    ensures RealChanges(before, done[name := value])
         == if Lookup(before, name) != value then RealChanges(before, done)[name := value]
             else RealChanges(before, done)
  {
  }

  lemma DeltasGrow(deltas: seq<FieldChange>, before: Fields, done: Fields, name: string, value: Value)
    requires name !in done && DeltasOf(deltas, before, done)
    ensures Lookup(before, name) == value ==> DeltasOf(deltas, before, done[name := value])
    ensures Lookup(before, name) != value ==>
              DeltasOf(deltas + [FieldChange(name, Lookup(before, name), value)], before, done[name := value])
  {
    RealChangesGrow(before, done, name, value);
    var next := deltas + [FieldChange(name, Lookup(before, name), value)];
    assert next[..|next| - 1] == deltas;
    assert name !in RealChanges(before, done);
  }

  lemma OneMoreChange(changes: Fields, todo: set<string>, name: string)
    requires name in todo && name in changes
    ensures changes - (todo - {name}) == (changes - todo)[name := changes[name]]
    ensures name !in changes - todo
  {
  }

  lemma SavedGrows(before: Fields, done: Fields, name: string, value: Value)
    requires name !in done
    ensures var saved := before + RealChanges(before, done);
            && Lookup(saved, name) == Lookup(before, name)
            && before + RealChanges(before, done[name := value])
               == if Lookup(before, name) != value then saved[name := value] else saved
  {
    RealChangesGrow(before, done, name, value);
  }

  lemma NoDeltasNoChange(deltas: seq<FieldChange>, before: Fields, changes: Fields)
    requires DeltasOf(deltas, before, changes)
    ensures deltas == [] <==> RealChanges(before, changes) == map[]
  {
  }
}
