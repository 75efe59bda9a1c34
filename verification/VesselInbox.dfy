// The vessel's side of an invalidation notice: the office names a version, the
// vessel applies the notice to the latest version it holds.
module VesselInbox {
  import opened Prelude
  import opened Cells
  import Reports
  import opened Lifecycle

  datatype Notice = Notice(reportId: string, versionNo: int, brokenRules: seq<Reports.RuleId>, computedAt: Instant)

  /** Versions of one report, numbered upwards, each later than the one before. */
  ghost predicate Ascending(versions: seq<Version>) {
    forall i, j :: 0 <= i < j < |versions| ==> versions[i].versionNo < versions[j].versionNo
  }

  class VesselStore {
    var reports: map<string, seq<Version>>
    var events: seq<Event>

    ghost predicate Valid()
      reads this
    {
      forall id :: id in reports ==> reports[id] != [] && Ascending(reports[id])
    }

    /** Drives the report's latest version through Invalidate; nothing to do for an
        unknown report or one already invalidated with the same rules. */
    method ApplyInvalidationNotice(n: Notice)
      requires Valid()
      modifies this
      ensures Valid()
      ensures reports == NoticeApplied(old(reports), n)
      ensures events == old(events) <==> !Applies(old(reports), n)
      ensures Applies(old(reports), n) ==>
                events == old(events) + [Event(Latest(reports, n.reportId).reportId,
                                               Latest(reports, n.reportId).versionNo, InvalidatedEvent, n.computedAt,
                                               "", Broken(n.brokenRules, Latest(reports, n.reportId).invalidatedFrom))]
    {
      if n.reportId !in reports { return; }
      var versions := reports[n.reportId];
      var latest := versions[|versions| - 1];
      if latest.state == Invalidated && latest.invalidatedRules == n.brokenRules { return; }
      var fields := new Cell(latest.fields);
      var r := new ReportAggregate.From(latest, fields);
      var event := r.Invalidate(n.brokenRules, n.computedAt);
      var saved := Version(r.reportId, r.versionNo, r.schemaName, r.eventType, r.eventTime, r.fields.value, r.state,
                           r.invalidatedFrom, r.invalidatedRules, r.submittedAt, r.submittedBy, r.createdAt,
                           r.createdBy, r.updatedAt);
      assert saved == AfterInvalidate(latest, n.brokenRules, n.computedAt);
      reports := reports[n.reportId := versions[|versions| - 1 := saved]];
      events := events + [event];
    }
  }

  function Latest(reports: map<string, seq<Version>>, id: string): Version
    requires id in reports && reports[id] != []
  {
    reports[id][|reports[id]| - 1]
  }

  predicate Applies(reports: map<string, seq<Version>>, n: Notice)
    requires n.reportId in reports ==> reports[n.reportId] != []
  {
    n.reportId in reports
    && !(Latest(reports, n.reportId).state == Invalidated
         && Latest(reports, n.reportId).invalidatedRules == n.brokenRules)
  }

  function NoticeApplied(reports: map<string, seq<Version>>, n: Notice): map<string, seq<Version>>
    requires n.reportId in reports ==> reports[n.reportId] != []
  {
    if !Applies(reports, n) then reports
    else
      var versions := reports[n.reportId];
      reports[n.reportId := versions[|versions| - 1 :=
                              AfterInvalidate(Latest(reports, n.reportId), n.brokenRules, n.computedAt)]]
  }

  /** No version was invalidated straight out of draft or ready. */
  ghost predicate NoDraftInvalidated(versions: seq<Version>) {
    forall i :: 0 <= i < |versions| && versions[i].state == Invalidated ==>
                  versions[i].invalidatedFrom.Some? && versions[i].invalidatedFrom.value.InChain()
  }

  /** "A report still being drafted is never invalidated" survives a notice
      exactly when the latest version is a committed one: a correction in
      progress is hit in place of the version the notice names. */
  lemma NoticeSparesDraftsIff(reports: map<string, seq<Version>>, n: Notice)
    requires n.reportId in reports && reports[n.reportId] != []
    requires NoDraftInvalidated(reports[n.reportId])
    ensures NoDraftInvalidated(NoticeApplied(reports, n)[n.reportId]) <==> Latest(reports, n.reportId).state.InChain()
  {
    var before, after := reports[n.reportId], NoticeApplied(reports, n)[n.reportId];
    var last := |before| - 1;
    assert forall i :: 0 <= i < last ==> after[i] == before[i];
    if !Latest(reports, n.reportId).state.InChain() {
      assert after[last].state == Invalidated && after[last].invalidatedFrom == Some(before[last].state);
    }
  }

  /** The named version ends up invalidated with the notice's rules exactly when
      it is the latest one, or was so already. */
  lemma NoticeReachesNamedVersionIff(reports: map<string, seq<Version>>, n: Notice, i: nat)
    requires n.reportId in reports && Ascending(reports[n.reportId])
    requires i < |reports[n.reportId]| && reports[n.reportId][i].versionNo == n.versionNo
    ensures var after := NoticeApplied(reports, n)[n.reportId][i];
            (after.state == Invalidated && after.invalidatedRules == n.brokenRules) <==>
            (n.versionNo == Latest(reports, n.reportId).versionNo
             || (reports[n.reportId][i].state == Invalidated
                 && reports[n.reportId][i].invalidatedRules == n.brokenRules))
  {
    var versions := reports[n.reportId];
    if i < |versions| - 1 { assert versions[i].versionNo < versions[|versions| - 1].versionNo; }
  }

  /** The same notice delivered again finds nothing to do. */
  lemma RepeatedNoticeIsIgnored(reports: map<string, seq<Version>>, n: Notice)
    requires n.reportId in reports ==> reports[n.reportId] != []
    ensures var after := NoticeApplied(reports, n);
            && (n.reportId in after ==> after[n.reportId] != [])
            && !Applies(after, n) && NoticeApplied(after, n) == after
  {
  }

  /** A committed version under correction: its notice locks the draft and leaves the version alone. */
  lemma NoticeHitsTheCorrection(v: Version, draft: Version, n: Notice)
    requires v.state.InChain() && v.state != Invalidated && draft.state == Draft
    requires draft.versionNo == v.versionNo + 1 && n.versionNo == v.versionNo && n.reportId == v.reportId
    ensures NoticeApplied(map[v.reportId := [v, draft]], n)
         == map[v.reportId := [v, AfterInvalidate(draft, n.brokenRules, n.computedAt)]]
  {
    var reports := map[v.reportId := [v, draft]];
    assert reports[v.reportId][1 := AfterInvalidate(draft, n.brokenRules, n.computedAt)]
        == [v, AfterInvalidate(draft, n.brokenRules, n.computedAt)];
    assert NoticeApplied(reports, n) == reports[v.reportId := [v, AfterInvalidate(draft, n.brokenRules, n.computedAt)]];
  }
}
