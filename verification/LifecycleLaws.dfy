// What every run of the lifecycle keeps, and what the audit trail is worth.
module LifecycleLaws {
  import opened Prelude
  import Reports
  import opened Lifecycle

  // ---- Runs ----

  datatype Step =
    | Check(findings: seq<Reports.Finding>, now: Instant)
    | Save(changes: Fields, now: Instant)
    | SubmitBy(actor: string, now: Instant)
    | Sync(at: Instant)
    | Remark(at: Instant)
    | Break(rules: seq<Reports.RuleId>, at: Instant)

  /** The callers' guards: checks and saves only before submit, invalidation only after. */
  predicate Guarded(v: Version, step: Step) {
    match step
    case Check(_, _) => !v.state.InChain()
    case Save(_, _) => !v.state.InChain()
    case Break(_, _) => v.state.InChain()
    case _ => true
  }

  function Next(v: Version, step: Step, parse: Clock): Version {
    match step
    case Check(findings, now) => if v.state.InChain() then v else AfterCheck(v, findings, now)
    case Save(changes, now) => AfterSave(v, changes, now, parse)
    case SubmitBy(actor, now) => if v.state == Ready then AfterSubmit(v, actor, now) else v
    case Sync(at) => if v.state == Submitted then v.(state := Synced, updatedAt := at) else v
    case Remark(at) => if v.state.InChain() then v.(state := Remarked, updatedAt := at) else v
    case Break(rules, at) => AfterInvalidate(v, rules, at)
  }

  /** What a health check looked at. */
  datatype Content = Content(eventType: string, eventTime: Instant, fields: Fields)

  function ContentOf(v: Version): Content {
    Content(v.eventType, v.eventTime, v.fields)
  }

  /** The content of the last error-free check after the step, given the one before it. */
  function LastClean(clean: Option<Content>, v: Version, step: Step): Option<Content> {
    if step.Check? && !v.state.InChain() && !Reports.HasErrors(step.findings) then Some(ContentOf(v)) else clean
  }

  ghost predicate GuardedRun(v: Version, steps: seq<Step>, parse: Clock)
    decreases |steps|
  {
    steps == [] || (Guarded(v, steps[0]) && GuardedRun(Next(v, steps[0], parse), steps[1..], parse))
  }

  function After(v: Version, steps: seq<Step>, parse: Clock): Version
    decreases |steps|
  {
    if steps == [] then v else After(Next(v, steps[0], parse), steps[1..], parse)
  }

  function CleanAfter(clean: Option<Content>, v: Version, steps: seq<Step>, parse: Clock): Option<Content>
    decreases |steps|
  {
    if steps == [] then clean
    else CleanAfter(LastClean(clean, v, steps[0]), Next(v, steps[0], parse), steps[1..], parse)
  }

  /** Anything past draft carries exactly the content of its last error-free check. */
  ghost predicate Checked(v: Version, clean: Option<Content>) {
    v.state != Draft ==> clean == Some(ContentOf(v))
  }

  lemma StepKeepsChecked(v: Version, clean: Option<Content>, step: Step, parse: Clock)
    requires Checked(v, clean) && Guarded(v, step)
    ensures Checked(Next(v, step, parse), LastClean(clean, v, step))
    ensures v.state.InChain() ==> Next(v, step, parse).state.InChain()
    ensures v.state.InChain() ==> ContentOf(Next(v, step, parse)) == ContentOf(v)
  {
  }

  /** Over every guarded run: what is ready or committed was found free of
      errors with exactly this content; and once committed, a version stays
      committed and its content stays as it is. */
  lemma {:induction false} RunsKeepChecked(v: Version, clean: Option<Content>, steps: seq<Step>, parse: Clock)
    requires Checked(v, clean) && GuardedRun(v, steps, parse)
    ensures Checked(After(v, steps, parse), CleanAfter(clean, v, steps, parse))
    ensures v.state.InChain() ==>
              After(v, steps, parse).state.InChain() && ContentOf(After(v, steps, parse)) == ContentOf(v)
    decreases |steps|
  {
    if steps != [] {
      StepKeepsChecked(v, clean, steps[0], parse);
      RunsKeepChecked(Next(v, steps[0], parse), LastClean(clean, v, steps[0]), steps[1..], parse);
    }
  }

  /** A new draft needs no history. */
  lemma DraftRunsAreChecked(v: Version, steps: seq<Step>, parse: Clock)
    requires v.state == Draft && GuardedRun(v, steps, parse)
    ensures After(v, steps, parse).state != Draft ==>
              CleanAfter(None, v, steps, parse) == Some(ContentOf(After(v, steps, parse)))
  {
    RunsKeepChecked(v, None, steps, parse);
  }

  /** Committed versions, and no others, have a submission on record; an
      invalidated one remembers the committed state it was in. */
  ghost predicate SubmissionRecorded(v: Version) {
    && (v.state.InChain() <==> v.submittedAt.Some?)
    && (v.invalidatedFrom.Some? ==> v.invalidatedFrom.value.InChain() && v.invalidatedFrom.value != Invalidated)
    && (v.state == Invalidated ==> v.invalidatedFrom.Some?)
  }

  /** Over every guarded run that record is kept, a submission once recorded is
      never changed, and the version keeps its identity. */
  lemma {:induction false} RunsKeepSubmission(v: Version, steps: seq<Step>, parse: Clock)
    requires SubmissionRecorded(v) && GuardedRun(v, steps, parse)
    ensures var w := After(v, steps, parse);
            && SubmissionRecorded(w)
            && (v.submittedAt.Some? ==> w.submittedAt == v.submittedAt && w.submittedBy == v.submittedBy)
            && w.reportId == v.reportId && w.versionNo == v.versionNo && w.createdAt == v.createdAt
                && w.createdBy == v.createdBy
    decreases |steps|
  {
    if steps != [] { RunsKeepSubmission(Next(v, steps[0], parse), steps[1..], parse); }
  }

  /** The event time is the one the fields give whenever they give one. */
  ghost predicate TimeFollowsFields(v: Version, parse: Clock) {
    forall x :: Gives(v.fields, parse, x) ==> v.eventTime == x
  }

  /** A first version is of the time its fields give, or of the one it is created with. */
  lemma CreatedAtGivenTime(id: string, schema: string, event: string, at: Instant, prefilled: Fields, author: string,
                           now: Instant, parse: Clock)
    ensures var v := FirstVersion(id, schema, event, at, prefilled, author, now, parse);
            && TimeFollowsFields(v, parse)
            && ((forall x :: !Gives(prefilled, parse, x)) ==> v.eventTime == at)
  {
    if DATE_UTC in prefilled && TIME_UTC in prefilled && prefilled[DATE_UTC].Text? && prefilled[TIME_UTC].Text? {
      var t := parse(prefilled[DATE_UTC].s, prefilled[TIME_UTC].s);
      if t.Some? { assert Gives(prefilled, parse, t.value); }
    }
  }

  /** A step moves the event time only to the one its fields then give. */
  lemma StepTime(v: Version, step: Step, parse: Clock)
    ensures var w := Next(v, step, parse);
            && (w.eventTime != v.eventTime ==> Gives(w.fields, parse, w.eventTime))
            && (TimeFollowsFields(v, parse) ==> TimeFollowsFields(w, parse))
  {
  }

  /** Over every run the event time is the one the fields give; it was moved, if at all, to one the fields gave. */
  lemma {:induction false} RunsKeepTime(v: Version, steps: seq<Step>, parse: Clock)
    requires TimeFollowsFields(v, parse)
    ensures TimeFollowsFields(After(v, steps, parse), parse)
    ensures After(v, steps, parse).eventTime != v.eventTime ==>
              exists k :: 0 < k <= |steps|
                          && Gives(After(v, steps[..k], parse).fields, parse, After(v, steps, parse).eventTime)
    decreases |steps|
  {
    if steps != [] {
      var w := Next(v, steps[0], parse);
      StepTime(v, steps[0], parse);
      RunsKeepTime(w, steps[1..], parse);
      var t := After(v, steps, parse).eventTime;
      if t != w.eventTime {
        var k :| 0 < k <= |steps[1..]| && Gives(After(w, steps[1..][..k], parse).fields, parse, t);
        assert steps[..k + 1][1..] == steps[1..][..k];
        assert After(v, steps[..k + 1], parse) == After(w, steps[1..][..k], parse);
      } else if t != v.eventTime {
        assert steps[..1][1..] == [];
        assert After(v, steps[..1], parse) == w;
      }
    }
  }

  // ---- Audit replay ----

  /** One recorded save: what was asked, what was logged, and the fields after. */
  datatype SaveRecord = SaveRecord(changes: Fields, deltas: seq<FieldChange>)

  /** The log records a run of saves from `before` to `after`. */
  ghost predicate SaveLog(before: Fields, log: seq<SaveRecord>, after: Fields)
    decreases |log|
  {
    if log == [] then after == before
    else
      var init, last := log[..|log| - 1], log[|log| - 1];
      exists mid ::
        && SaveLog(before, init, mid)
        && DeltasOf(last.deltas, mid, last.changes)
        && after == mid + RealChanges(mid, last.changes)
  }

  function AllDeltas(log: seq<SaveRecord>): seq<FieldChange> {
    if log == [] then [] else AllDeltas(log[..|log| - 1]) + log[|log| - 1].deltas
  }

  lemma {:induction false} ReplayOver(fields: Fields, deltas: seq<FieldChange>)
    ensures Replay(fields, deltas) == fields + Replay(map[], deltas)
  {
    if deltas != [] { ReplayOver(fields, deltas[..|deltas| - 1]); }
  }

  lemma {:induction false} ReplayConcat(fields: Fields, a: seq<FieldChange>, b: seq<FieldChange>)
    ensures Replay(fields, a + b) == Replay(Replay(fields, a), b)
    decreases |b|
  {
    if b == [] {
      assert a + b == a;
    } else {
      assert (a + b)[..|a + b| - 1] == a + b[..|b| - 1];
      ReplayConcat(fields, a, b[..|b| - 1]);
    }
  }

  lemma {:induction false} UndoConcat(fields: Fields, a: seq<FieldChange>, b: seq<FieldChange>)
    ensures Undo(fields, a + b) == Undo(Undo(fields, b), a)
    decreases |b|
  {
    if b == [] {
      assert a + b == a;
    } else {
      var last := b[|b| - 1];
      assert (a + b)[..|a + b| - 1] == a + b[..|b| - 1];
      UndoConcat(fields[last.field := last.oldValue], a, b[..|b| - 1]);
    }
  }

  lemma {:induction false} UndoSameReadings(a: Fields, b: Fields, deltas: seq<FieldChange>)
    requires SameReadings(a, b)
    ensures SameReadings(Undo(a, deltas), Undo(b, deltas))
    decreases |deltas|
  {
    if deltas != [] {
      var last := deltas[|deltas| - 1];
      var a', b' := a[last.field := last.oldValue], b[last.field := last.oldValue];
      forall name ensures Lookup(a', name) == Lookup(b', name) {
        assert Lookup(a, name) == Lookup(b, name);
      }
      UndoSameReadings(a', b', deltas[..|deltas| - 1]);
    }
  }

  lemma {:induction false} KeysWithin(deltas: seq<FieldChange>)
    ensures |Replay(map[], deltas)| <= |deltas|
    ensures |deltas| > 0 && |Replay(map[], deltas)| == |deltas| ==>
              deltas[|deltas| - 1].field !in Replay(map[], deltas[..|deltas| - 1])
              && |Replay(map[], deltas[..|deltas| - 1])| == |deltas| - 1
  {
    if deltas != [] {
      var init, last := deltas[..|deltas| - 1], deltas[|deltas| - 1];
      KeysWithin(init);
      var m := Replay(map[], init);
      if last.field in m {
        assert m[last.field := last.newValue].Keys == m.Keys;
        assert |m[last.field := last.newValue]| == |m|;
      } else {
        assert m[last.field := last.newValue].Keys == m.Keys + {last.field};
        assert |m[last.field := last.newValue]| == |m| + 1;
      }
    }
  }

  lemma RestoreOne(mid: Fields, delta: FieldChange)
    requires delta.oldValue == Lookup(mid, delta.field)
    ensures SameReadings(mid[delta.field := delta.newValue][delta.field := delta.oldValue], mid)
  {
  }

  /** Undoing deltas that each name a different field restores what those fields read. */
  lemma {:induction false} UndoRestores(fields: Fields, deltas: seq<FieldChange>)
    requires |Replay(map[], deltas)| == |deltas|
    requires forall i :: 0 <= i < |deltas| ==> deltas[i].oldValue == Lookup(fields, deltas[i].field)
    ensures SameReadings(Undo(Replay(fields, deltas), deltas), fields)
    decreases |deltas|
  {
    if deltas != [] {
      var init, last := deltas[..|deltas| - 1], deltas[|deltas| - 1];
      KeysWithin(deltas);
      UndoRestores(fields, init);
      var mid := Replay(fields, init);
      var restored := mid[last.field := last.newValue][last.field := last.oldValue];
      assert Replay(fields, deltas) == mid[last.field := last.newValue];
      ReplayOver(fields, init);
      assert Lookup(mid, last.field) == Lookup(fields, last.field);
      RestoreOne(mid, last);
      UndoSameReadings(restored, mid, init);
    }
  }

  /** One save's deltas lead from the fields before to the fields after, and back. */
  lemma OneSave(mid: Fields, changes: Fields, deltas: seq<FieldChange>, after: Fields)
    requires DeltasOf(deltas, mid, changes) && after == mid + RealChanges(mid, changes)
    ensures Replay(mid, deltas) == after
    ensures SameReadings(Undo(after, deltas), mid)
  {
    ReplayOver(mid, deltas);
    UndoRestores(mid, deltas);
  }

  /** For any sequence of saves the log explains the fields both ways: new
      values replayed over the start give the fields exactly, old values undone
      from the end give what the start read, and every entry is a real change. */
  lemma {:induction false} AuditReplay(before: Fields, log: seq<SaveRecord>, after: Fields)
    requires SaveLog(before, log, after)
    ensures Replay(before, AllDeltas(log)) == after
    ensures SameReadings(Undo(after, AllDeltas(log)), before)
    ensures forall i :: 0 <= i < |AllDeltas(log)| ==> AllDeltas(log)[i].oldValue != AllDeltas(log)[i].newValue
    decreases |log|
  {
    if log != [] {
      var init, last := log[..|log| - 1], log[|log| - 1];
      var mid :| SaveLog(before, init, mid) && DeltasOf(last.deltas, mid, last.changes)
                 && after == mid + RealChanges(mid, last.changes);
      AuditReplay(before, init, mid);
      OneSave(mid, last.changes, last.deltas, after);
      ReplayConcat(before, AllDeltas(init), last.deltas);
      UndoConcat(after, AllDeltas(init), last.deltas);
      UndoSameReadings(Undo(after, last.deltas), mid, AllDeltas(init));
      assert AllDeltas(log) == AllDeltas(init) + last.deltas;
    }
  }
}
