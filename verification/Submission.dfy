// From the check before submitting to the office's tables: a report the vessel
// found clean is not invalidated when it lands.
module Submission {
  import opened Prelude
  import Reports
  import Chains
  import Cascade
  import CascadeLaws
  import Precheck
  import opened Lifecycle
  import opened OfficeStore
  import opened OfficeCascade
  import opened OfficeCascadeLaws
  import opened PushOutbox

  function ViewOf(key: RowKey, row: Row): Reports.Report {
    Listed(key, row).ToValidation()
  }

  /** The row a version is pushed as. */
  function RowOf(v: Version): Row {
    Row(v.schemaName, v.eventType, v.state, v.eventTime, v.fields, v.submittedAt)
  }

  /** The office evaluates a pushed version exactly as the vessel did: the same
      report, version, schema, event, time and readings. */
  lemma SameReportAshore(v: Version, vesselId: string)
    ensures ViewOf(RowKey(vesselId, v.reportId, v.versionNo), RowOf(v)) == v.ToValidation()
    ensures var r := v.ToValidation();
            && r.reportId == v.reportId && r.versionNo == v.versionNo && r.schemaName == v.schemaName
            && r.eventType == v.eventType && r.eventTime == v.eventTime && r.fields == v.fields
  {
  }

  /** The report is the view of a committed latest row of the vessel and schema. */
  ghost predicate IsCommittedView(rows: map<RowKey, Row>, vesselId: string, schemaName: string, x: Reports.Report) {
    exists k :: IsLatest(rows, vesselId, schemaName, k) && rows[k].state.InChain() && x == ViewOf(k, rows[k])
  }

  /** The list holds each committed report of the vessel and schema once. */
  ghost predicate ListsCommitted(rows: map<RowKey, Row>, vesselId: string, schemaName: string,
                                 chain: seq<Reports.Report>)
  {
    Reports.DistinctIds(chain) && forall x :: x in chain <==> IsCommittedView(rows, vesselId, schemaName, x)
  }

  /** No version of the report under the schema is newer than the one landing. */
  ghost predicate LandsOnTop(rows: map<RowKey, Row>, key: RowKey, row: Row) {
    && row.state.InChain()
    && forall k ::
         (&& k in rows && k.vesselId == key.vesselId && k.reportId == key.reportId
          && rows[k].schemaName == row.schemaName)
         ==> k.versionNo <= key.versionNo
  }

  lemma ChainListsCommitted(rows: map<RowKey, Row>, vesselId: string, schemaName: string, chain: seq<Listed>)
    requires IsChain(rows, vesselId, schemaName, chain)
    ensures ListsCommitted(rows, vesselId, schemaName, Views(Committed(chain)))
  {
    CommittedDistinct(rows, vesselId, schemaName, chain);
    var c := Committed(chain);
    forall x ensures x in Views(c) <==> IsCommittedView(rows, vesselId, schemaName, x) {
      if x in Views(c) {
        var i :| 0 <= i < |Views(c)| && Views(c)[i] == x;
        CommittedElements(chain, c[i]);
        var j :| 0 <= j < |chain| && chain[j] == c[i];
        assert IsLatest(rows, vesselId, schemaName, chain[j].key);
      }
      if IsCommittedView(rows, vesselId, schemaName, x) {
        var k :| IsLatest(rows, vesselId, schemaName, k) && rows[k].state.InChain() && x == ViewOf(k, rows[k]);
        var j :| 0 <= j < |chain| && chain[j].key == k;
        CommittedElements(chain, chain[j]);
        var i :| 0 <= i < |c| && c[i] == chain[j];
        assert Views(c)[i] == x;
      }
    }
  }

  lemma OtherLatestStays(rows: map<RowKey, Row>, key: RowKey, row: Row, schemaName: string, k: RowKey)
    requires k.reportId != key.reportId
    ensures IsLatest(rows[key := row], key.vesselId, schemaName, k) <==> IsLatest(rows, key.vesselId, schemaName, k)
  {
  }

  /** After landing, the committed reports are the new one and the others. */
  lemma LandedViews(rows: map<RowKey, Row>, key: RowKey, row: Row, x: Reports.Report)
    requires LandsOnTop(rows, key, row)
    ensures IsCommittedView(rows[key := row], key.vesselId, row.schemaName, x) <==>
            x == ViewOf(key, row)
            || (x.reportId != key.reportId && IsCommittedView(rows, key.vesselId, row.schemaName, x))
  {
    var landed := rows[key := row];
    assert IsLatest(landed, key.vesselId, row.schemaName, key);
    if IsCommittedView(landed, key.vesselId, row.schemaName, x) {
      var k :| IsLatest(landed, key.vesselId, row.schemaName, k) && landed[k].state.InChain()
          && x == ViewOf(k, landed[k]);
      if k.reportId == key.reportId {
        OneLatest(landed, key.vesselId, row.schemaName, k, key);
      } else {
        OtherLatestStays(rows, key, row, row.schemaName, k);
      }
    }
    if x.reportId != key.reportId && IsCommittedView(rows, key.vesselId, row.schemaName, x) {
      var k :| IsLatest(rows, key.vesselId, row.schemaName, k) && rows[k].state.InChain() && x == ViewOf(k, rows[k]);
      OtherLatestStays(rows, key, row, row.schemaName, k);
      assert landed[k] == rows[k];
    }
  }

  lemma LandedElements(chain: seq<Reports.Report>, r: Reports.Report)
    requires Reports.DistinctIds(chain)
    ensures Reports.DistinctIds(Precheck.Landed(chain, r))
    ensures forall x :: x in Precheck.Landed(chain, r) <==> x == r || (x in chain && x.reportId != r.reportId)
  {
    Precheck.LandedIsMerged(chain, r);
    Precheck.OthersElements(chain, r.reportId);
    Precheck.MergedDistinct(r, chain);
    Chains.DistinctIdsPermute(Precheck.Merged(r, chain), Precheck.Landed(chain, r));
    SameElements(Precheck.Landed(chain, r), Precheck.Merged(r, chain));
  }

  lemma DistinctIdsOnce(s: seq<Reports.Report>)
    requires Reports.DistinctIds(s)
    ensures NoDuplicates(s)
  {
  }

  /** The office's committed chain after landing is the vessel's with the report put in. */
  lemma LandedChain(rows: map<RowKey, Row>, key: RowKey, row: Row, chain: seq<Reports.Report>, after: seq<Listed>)
    requires LandsOnTop(rows, key, row) && ListsCommitted(rows, key.vesselId, row.schemaName, chain)
    requires IsChain(rows[key := row], key.vesselId, row.schemaName, after)
    ensures multiset(Views(Committed(after))) == multiset(Precheck.Landed(chain, ViewOf(key, row)))
  {
    var r, views := ViewOf(key, row), Views(Committed(after));
    ChainListsCommitted(rows[key := row], key.vesselId, row.schemaName, after);
    LandedElements(chain, r);
    DistinctIdsOnce(views);
    DistinctIdsOnce(Precheck.Landed(chain, r));
    forall x ensures x in views <==> x in Precheck.Landed(chain, r) {
      LandedViews(rows, key, row, x);
    }
    SameMembersOnce(views, Precheck.Landed(chain, r));
  }

  /** The verdicts the landing's own pass acts on hold the report exactly when
      the pre-check, under the same configuration, finds an error. */
  lemma LandingVerdict(db: Db, key: RowKey, row: Row, chain: seq<Reports.Report>, cfg: Reports.Config,
                       verdicts: Verdicts)
    requires LandsOnTop(db.rows, key, row) && ListsCommitted(db.rows, key.vesselId, row.schemaName, chain)
    requires Chains.DistinctTimesUpTo(Precheck.Merged(ViewOf(key, row), chain), row.eventTime)
    requires VerdictsOf(Upserted(db, key, row).rows, key.vesselId, row.schemaName, cfg, verdicts)
    ensures key.reportId in verdicts <==> Reports.HasErrors(Precheck.PrecheckFindings(ViewOf(key, row), chain, cfg))
  {
    var listed, order :| IsChain(Upserted(db, key, row).rows, key.vesselId, row.schemaName, listed)
                         && Chains.SortOf(order, Views(Committed(listed)))
                         && verdicts == Cascade.Verdicts(order, cfg);
    LandedChain(db.rows, key, row, chain, listed);
    Precheck.CleanIffUnmarked(ViewOf(key, row), chain, cfg, order);
  }

  /** With both sides under one configuration, the landed report is left as it
      was pushed exactly when its check before submitting found no error. */
  lemma SurvivesLandingIff(db: Db, key: RowKey, row: Row, chain: seq<Reports.Report>, cfg: Reports.Config, now: Instant,
                           after: Db)
    requires LandsOnTop(db.rows, key, row) && ListsCommitted(db.rows, key.vesselId, row.schemaName, chain)
    requires Chains.DistinctTimesUpTo(Precheck.Merged(ViewOf(key, row), chain), row.eventTime)
    requires row.state != Invalidated
    requires CompletePass(Upserted(db, key, row), key.vesselId, row.schemaName, cfg, now, after)
    ensures key in after.rows
    ensures after.rows[key] == row <==> !Reports.HasErrors(Precheck.PrecheckFindings(ViewOf(key, row), chain, cfg))
  {
    var verdicts := PassSettles(Upserted(db, key, row), key.vesselId, row.schemaName, cfg, now, after);
    LandingVerdict(db, key, row, chain, cfg, verdicts);
    TopIsLatest(db, key, row);
    SettledRow(Upserted(db, key, row), after, key.vesselId, row.schemaName, verdicts, key);
  }

  lemma TopIsLatest(db: Db, key: RowKey, row: Row)
    requires LandsOnTop(db.rows, key, row)
    ensures IsLatest(Upserted(db, key, row).rows, key.vesselId, row.schemaName, key)
  {
  }

  lemma SettledRow(before: Db, after: Db, vesselId: string, schemaName: string, verdicts: Verdicts, key: RowKey)
    requires Settled(before, after, vesselId, schemaName, verdicts)
    requires IsLatest(before.rows, vesselId, schemaName, key) && before.rows[key].state.InChain()
    ensures key in after.rows
    ensures after.rows[key] == before.rows[key] <==> key.reportId !in verdicts || before.rows[key].state == Invalidated
    ensures key.reportId !in verdicts ==> LatestNotice(after.notices, key) == LatestNotice(before.notices, key)
  {
  }

  lemma StricterVerdicts(rows: map<RowKey, Row>, vesselId: string, schemaName: string, loose: Reports.Config,
                         strict: Reports.Config, verdicts: Verdicts) returns (stricter: Verdicts)
    requires CascadeLaws.AtLeastAsStrict(strict, loose) && VerdictsOf(rows, vesselId, schemaName, loose, verdicts)
    ensures VerdictsOf(rows, vesselId, schemaName, strict, stricter) && verdicts.Keys <= stricter.Keys
  {
    var chain, order :| IsChain(rows, vesselId, schemaName, chain)
                        && Chains.SortOf(order, Views(Committed(chain)))
                        && verdicts == Cascade.Verdicts(order, loose);
    stricter := Cascade.Verdicts(order, strict);
    CascadeLaws.StricterOnlyAdds(order, loose, strict, "");
  }

  /** A report found clean under the vessel's configuration lands and stays as it
      was pushed, with no new notice, under any office configuration that is no
      stricter: the one the vessel applied may be older than the office's. */
  lemma CleanDraftSurvivesLanding(db: Db, key: RowKey, row: Row, chain: seq<Reports.Report>, vesselCfg: Reports.Config,
                                  officeCfg: Reports.Config, now: Instant, after: Db)
    requires LandsOnTop(db.rows, key, row) && ListsCommitted(db.rows, key.vesselId, row.schemaName, chain)
    requires Chains.DistinctTimesUpTo(Precheck.Merged(ViewOf(key, row), chain), row.eventTime)
    requires CascadeLaws.AtLeastAsStrict(vesselCfg, officeCfg)
    requires !Reports.HasErrors(Precheck.PrecheckFindings(ViewOf(key, row), chain, vesselCfg))
    requires CompletePass(Upserted(db, key, row), key.vesselId, row.schemaName, officeCfg, now, after)
    ensures key in after.rows && after.rows[key] == row
    ensures LatestNotice(after.notices, key) == LatestNotice(db.notices, key)
  {
    var landed := Upserted(db, key, row);
    var verdicts := PassSettles(landed, key.vesselId, row.schemaName, officeCfg, now, after);
    var stricter := StricterVerdicts(landed.rows, key.vesselId, row.schemaName, officeCfg, vesselCfg, verdicts);
    LandingVerdict(db, key, row, chain, vesselCfg, stricter);
    TopIsLatest(db, key, row);
    SettledRow(landed, after, key.vesselId, row.schemaName, verdicts, key);
  }
}
