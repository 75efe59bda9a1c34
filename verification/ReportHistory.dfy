// What a report's history says about it: what a save leaves in the fields and
// in the log, when a version is ready, when and by whom it was submitted, what
// an invalidation remembers and what a correction starts from.
module ReportHistory {
  import opened Prelude
  import Reports
  import opened Lifecycle
  import opened LifecycleLaws

  // ---- Saving ----

  /** Some field would read differently after these changes. */
  predicate Differs(fields: Fields, changes: Fields) {
    exists name :: name in changes && (if name in fields then fields[name] else Reports.Nil) != changes[name]
  }

  /** After a save every field asked for reads as asked and every other as
      before; if that changes any reading, a ready version is a draft again and
      its event time is the one the fields now give. Otherwise nothing changes at all. */
  lemma SaveMeaning(v: Version, changes: Fields, now: Instant, parse: Clock)
    ensures var w := AfterSave(v, changes, now, parse);
            && (forall name :: Lookup(w.fields, name) == if name in changes then changes[name]
                else Lookup(v.fields, name))
            && (!Differs(v.fields, changes) ==> w == v)
            && (Differs(v.fields, changes) ==>
                  && w.state == (if v.state == Ready then Draft else v.state)
                  && w.updatedAt == now
                  && (forall x :: Gives(w.fields, parse, x) ==> w.eventTime == x)
                  && ((forall x :: !Gives(w.fields, parse, x)) ==> w.eventTime == v.eventTime))
            && w == v.(fields := w.fields, state := w.state, updatedAt := w.updatedAt, eventTime := w.eventTime)
  {
    var edited := RealChanges(v.fields, changes);
    assert Differs(v.fields, changes) <==> edited != map[] by {
      if name :| name in changes && (if name in v.fields then v.fields[name] else Reports.Nil) != changes[name] {
        assert name in edited;
      }
      if edited != map[] {
        var name :| name in edited;
        assert name in changes && (if name in v.fields then v.fields[name] else Reports.Nil) != changes[name];
      }
    }
    TimeOf(v.fields + edited, v.eventTime, parse);
  }

  lemma TimeOf(fields: Fields, previous: Instant, parse: Clock)
    ensures forall x :: Gives(fields, parse, x) ==> EventTimeOf(fields, previous, parse) == x
    ensures (forall x :: !Gives(fields, parse, x)) ==> EventTimeOf(fields, previous, parse) == previous
  {
    if DATE_UTC in fields && TIME_UTC in fields && fields[DATE_UTC].Text? && fields[TIME_UTC].Text? {
      var t := parse(fields[DATE_UTC].s, fields[TIME_UTC].s);
      if t.Some? { assert Gives(fields, parse, t.value); }
    }
  }

  predicate LoggedField(deltas: seq<FieldChange>, name: string) {
    exists i :: 0 <= i < |deltas| && deltas[i].field == name
  }

  lemma {:induction false} ReplayedNames(deltas: seq<FieldChange>, name: string)
    ensures name in Replay(map[], deltas) <==> LoggedField(deltas, name)
  {
    if deltas != [] {
      var init := deltas[..|deltas| - 1];
      ReplayedNames(init, name);
      assert forall i :: 0 <= i < |init| ==> deltas[i] == init[i];
      if LoggedField(init, name) {
        var i :| 0 <= i < |init| && init[i].field == name;
        assert deltas[i].field == name;
      }
    }
  }

  lemma {:induction false} ReplayedValue(deltas: seq<FieldChange>, k: nat)
    requires k < |deltas| && |Replay(map[], deltas)| == |deltas|
    ensures deltas[k].field in Replay(map[], deltas) && Replay(map[], deltas)[deltas[k].field] == deltas[k].newValue
    ensures forall i :: 0 <= i < k ==> deltas[i].field != deltas[k].field
    decreases |deltas|
  {
    var init, last := deltas[..|deltas| - 1], deltas[|deltas| - 1];
    KeysWithin(deltas);
    if k < |init| {
      ReplayedValue(init, k);
    } else {
      forall i | 0 <= i < k ensures deltas[i].field != last.field {
        ReplayedNames(init, last.field);
        assert init[i] == deltas[i];
      }
    }
  }

  /** The log of a save names exactly the fields whose reading it changed, each
      once, with the value it had and the value asked for. */
  lemma LogMeaning(deltas: seq<FieldChange>, before: Fields, changes: Fields)
    requires DeltasOf(deltas, before, changes)
    ensures forall name :: LoggedField(deltas, name) <==> name in changes && Lookup(before, name) != changes[name]
    ensures forall i, j :: 0 <= i < j < |deltas| ==> deltas[i].field != deltas[j].field
    ensures forall i :: 0 <= i < |deltas| ==>
              deltas[i].field in changes && deltas[i].newValue == changes[deltas[i].field]
              && deltas[i].oldValue == Lookup(before, deltas[i].field)
  {
    forall name ensures LoggedField(deltas, name) <==> name in changes && Lookup(before, name) != changes[name] {
      ReplayedNames(deltas, name);
    }
    forall k | 0 <= k < |deltas|
      ensures deltas[k].field in changes && deltas[k].newValue == changes[deltas[k].field]
      ensures forall i :: 0 <= i < k ==> deltas[i].field != deltas[k].field
    {
      ReplayedValue(deltas, k);
    }
  }

  function Positions(findings: seq<Reports.Finding>, severity: Reports.Severity): set<int> {
    set i | 0 <= i < |findings| && findings[i].severity == severity
  }

  /** The counts of a health check are how many findings have each severity. */
  lemma {:induction false} CountMeaning(findings: seq<Reports.Finding>, severity: Reports.Severity)
    ensures Count(findings, severity) == |Positions(findings, severity)|
  {
    if findings == [] {
      assert Positions(findings, severity) == {};
    } else {
      var n := |findings| - 1;
      CountMeaning(findings[..n], severity);
      var before := Positions(findings[..n], severity);
      assert Positions(findings, severity) == before + if findings[n].severity == severity then {n} else {};
      assert n !in before;
    }
  }

  // ---- Readiness and submission ----

  /** The check found no error. */
  predicate Cleans(step: Step) {
    step.Check? && forall i :: 0 <= i < |step.findings| ==> step.findings[i].severity != Reports.Error
  }

  /** Neither a check with errors nor a save that changes a reading. */
  predicate Harmless(v: Version, step: Step) {
    match step
    case Check(_, _) => Cleans(step)
    case Save(changes, _) => !Differs(v.fields, changes)
    case _ => true
  }

  lemma {:induction false} AfterOneMore(v: Version, steps: seq<Step>, n: nat, parse: Clock)
    requires n < |steps|
    ensures After(v, steps[..n + 1], parse) == Next(After(v, steps[..n], parse), steps[n], parse)
    decreases |steps|
  {
    if n == 0 {
      assert steps[..1] == [steps[0]] && [steps[0]][1..] == [];
    } else {
      AfterOneMore(Next(v, steps[0], parse), steps[1..], n - 1, parse);
      assert steps[..n + 1][1..] == steps[1..][..n] && steps[..n][1..] == steps[1..][..n - 1];
      assert steps[1..][n - 1] == steps[n];
    }
  }

  lemma {:induction false} GuardedAt(v: Version, steps: seq<Step>, n: nat, parse: Clock)
    requires GuardedRun(v, steps, parse) && n < |steps|
    ensures Guarded(After(v, steps[..n], parse), steps[n])
    decreases |steps|
  {
    if n > 0 {
      GuardedAt(Next(v, steps[0], parse), steps[1..], n - 1, parse);
      assert steps[..n][1..] == steps[1..][..n - 1];
    }
  }

  /** Check `k` found no error, and nothing harmful happened from there to step `n`. */
  ghost predicate ClearedBy(v: Version, steps: seq<Step>, k: int, n: int, parse: Clock)
    requires 0 <= n <= |steps|
  {
    0 <= k < n && Cleans(steps[k]) && forall m :: k < m < n ==> Harmless(After(v, steps[..m], parse), steps[m])
  }

  ghost predicate Cleared(v: Version, steps: seq<Step>, n: int, parse: Clock)
    requires 0 <= n <= |steps|
  {
    exists k :: ClearedBy(v, steps, k, n, parse)
  }

  lemma ClearedOneMore(v: Version, steps: seq<Step>, n: nat, parse: Clock)
    requires n < |steps|
    ensures Cleared(v, steps, n + 1, parse) <==>
            Cleans(steps[n]) || (Cleared(v, steps, n, parse) && Harmless(After(v, steps[..n], parse), steps[n]))
  {
    if Cleans(steps[n]) { assert ClearedBy(v, steps, n, n + 1, parse); }
    if k :| ClearedBy(v, steps, k, n, parse) && Harmless(After(v, steps[..n], parse), steps[n]) {
      assert ClearedBy(v, steps, k, n + 1, parse);
    }
    var next := n + 1;
    if k :| ClearedBy(v, steps, k, next, parse) && k != n { assert ClearedBy(v, steps, k, n, parse); }
  }

  /** Step `j` submits a version that is cleared. */
  ghost predicate Submits(v: Version, steps: seq<Step>, j: int, parse: Clock) {
    0 <= j < |steps| && steps[j].SubmitBy? && Cleared(v, steps, j, parse)
  }

  /** The first such step among the first `n` is `j`. */
  ghost predicate FirstSubmit(v: Version, steps: seq<Step>, j: int, n: int, parse: Clock) {
    0 <= j < n && Submits(v, steps, j, parse) && forall i :: 0 <= i < j ==> !Submits(v, steps, i, parse)
  }

  /** The submission on record is that of step `j`. */
  predicate RecordOf(w: Version, step: Step) {
    step.SubmitBy? && w.submittedAt == Some(step.now) && w.submittedBy == step.actor
  }

  /** What the first `n` steps say about the version they leave. */
  ghost predicate Tells(v: Version, steps: seq<Step>, n: nat, parse: Clock, w: Version)
    requires n <= |steps|
  {
    if w.state.InChain() then exists j :: FirstSubmit(v, steps, j, n, parse) && RecordOf(w, steps[j])
    else
      && (forall i :: 0 <= i < n ==> !Submits(v, steps, i, parse))
      && (w.state == Ready <==> Cleared(v, steps, n, parse))
      && w.submittedAt == v.submittedAt && w.submittedBy == v.submittedBy
  }

  lemma OpenStep(v: Version, step: Step, parse: Clock)
    requires !v.state.InChain() && Guarded(v, step)
    ensures var w := Next(v, step, parse);
            if step.SubmitBy? && v.state == Ready then w.state.InChain() && RecordOf(w, step)
            else
              && !w.state.InChain() && w.submittedAt == v.submittedAt && w.submittedBy == v.submittedBy
              && (w.state == Ready <==> Cleans(step) || (v.state == Ready && Harmless(v, step)))
  {
    match step
    case Check(findings, now) => assert Cleans(step) <==> !Reports.HasErrors(findings);
    case Save(changes, now) => SaveMeaning(v, changes, now, parse);
    case _ =>
  }

  lemma ClosedStep(v: Version, step: Step, parse: Clock)
    requires v.state.InChain() && Guarded(v, step)
    ensures var w := Next(v, step, parse);
            w.state.InChain() && w.submittedAt == v.submittedAt && w.submittedBy == v.submittedBy
  {
  }

  lemma TellsOneMore(v: Version, steps: seq<Step>, n: nat, parse: Clock, w: Version)
    requires n < |steps| && w == After(v, steps[..n], parse) && Tells(v, steps, n, parse, w) && Guarded(w, steps[n])
    ensures Tells(v, steps, n + 1, parse, Next(w, steps[n], parse))
  {
    ClearedOneMore(v, steps, n, parse);
    if w.state.InChain() {
      ClosedStep(w, steps[n], parse);
      var j :| FirstSubmit(v, steps, j, n, parse) && RecordOf(w, steps[j]);
      assert FirstSubmit(v, steps, j, n + 1, parse);
    } else {
      OpenStep(w, steps[n], parse);
      if Submits(v, steps, n, parse) { assert FirstSubmit(v, steps, n, n + 1, parse); }
    }
  }

  /** For every guarded run from a draft: the version is committed exactly when
      at some step it was submitted while cleared, that is, after an error-free
      check with no failing check and no save changing a reading since; the
      record is then that of the first such step. Until then it is ready exactly
      when it is cleared. */
  lemma {:induction false} HistoryMeaning(v: Version, steps: seq<Step>, n: nat, parse: Clock)
    requires v.state == Draft && GuardedRun(v, steps, parse) && n <= |steps|
    ensures Tells(v, steps, n, parse, After(v, steps[..n], parse))
  {
    if n > 0 {
      HistoryMeaning(v, steps, n - 1, parse);
      GuardedAt(v, steps, n - 1, parse);
      AfterOneMore(v, steps, n - 1, parse);
      TellsOneMore(v, steps, n - 1, parse, After(v, steps[..n - 1], parse));
    }
  }

  // ---- Invalidation and correction ----

  /** However often it is invalidated, a version remembers the state it was in
      before the first time, and the rules of the last. */
  lemma {:induction false} InvalidationRemembers(v: Version, breaks: seq<Step>, parse: Clock)
    requires v.state != Invalidated && breaks != [] && forall k :: 0 <= k < |breaks| ==> breaks[k].Break?
    ensures var w := After(v, breaks, parse);
            && w.state == Invalidated && w.invalidatedFrom == Some(v.state)
            && w.invalidatedRules == breaks[|breaks| - 1].rules
            && ContentOf(w) == ContentOf(v) && w.submittedAt == v.submittedAt
    decreases |breaks|
  {
    var n := |breaks| - 1;
    AfterOneMore(v, breaks, n, parse);
    assert breaks[..n + 1] == breaks;
    if n > 0 {
      InvalidationRemembers(v, breaks[..n], parse);
    } else {
      assert breaks[..0] == [];
    }
  }

  /** A correction found free of errors and submitted as it is: the next version
      of the same report, committed, with the content of the one corrected. */
  lemma CorrectionRoundTrip(v: Version, findings: seq<Reports.Finding>, checkedAt: Instant, actor: string,
                            at: Instant, now: Instant, parse: Clock)
    requires forall i :: 0 <= i < |findings| ==> findings[i].severity != Reports.Error
    ensures var steps := [Check(findings, checkedAt), SubmitBy(actor, at)];
            var w := After(CorrectionOf(v, actor, now), steps, parse);
            && w.reportId == v.reportId && w.versionNo == v.versionNo + 1 && w.schemaName == v.schemaName
            && ContentOf(w) == ContentOf(v) && w.state == Submitted && w.submittedAt == Some(at)
            && w.submittedBy == actor && w.createdBy == actor && w.createdAt == now
            && w.invalidatedFrom == None && w.invalidatedRules == []
  {
    var c := CorrectionOf(v, actor, now);
    var steps := [Check(findings, checkedAt), SubmitBy(actor, at)];
    var ready := Next(c, steps[0], parse);
    assert ready.state == Ready;
    assert steps[1..] == [steps[1]] && [steps[1]][1..] == [];
    assert After(ready, [steps[1]], parse) == Next(ready, steps[1], parse);
  }
}
