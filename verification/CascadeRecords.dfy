// What a complete cascade pass writes beside the rows: one notice and one audit
// row for each report it newly or differently finds broken, and no others.
module CascadeRecords {
  import opened Prelude
  import Reports
  import Chains
  import Cascade
  import opened Lifecycle
  import opened OfficeStore
  import opened OfficeCascade
  import opened OfficeCascadeLaws

  /** The report is broken, and not already invalidated with these rules in its newest notice. */
  predicate Renews(db: Db, l: Listed, verdicts: Verdicts) {
    && l.key.reportId in verdicts
    && !(&& l.row.state == Invalidated && LatestNotice(db.notices, l.key).Some?
         && LatestNotice(db.notices, l.key).value.brokenRules == verdicts[l.key.reportId])
  }

  /** The committed reports that are broken and not yet on record with these rules. */
  function Renewed(db: Db, committed: seq<Listed>, verdicts: Verdicts): (list: seq<Listed>)
    ensures forall i :: 0 <= i < |list| ==> list[i].key.reportId in verdicts
  {
    if committed == [] then []
    else
      var last := committed[|committed| - 1];
      Renewed(db, committed[..|committed| - 1], verdicts)
      + if Renews(db, last, verdicts) then [last] else []
  }

  function NoticeFor(l: Listed, rules: seq<Reports.RuleId>, now: Instant): Notice {
    Notice(l.key, rules, now)
  }

  /** The event names the version, the broken rules and, unless it was
      invalidated already, the state it was in. */
  function AuditFor(l: Listed, rules: seq<Reports.RuleId>, now: Instant): AuditRow {
    AuditRow(l.key.vesselId,
             Event(l.key.reportId, l.key.versionNo, InvalidatedEvent, now, "",
                   Broken(rules, if l.row.state == Invalidated then None else Some(l.row.state))),
             FromOffice)
  }

  function NoticesFor(list: seq<Listed>, verdicts: Verdicts, now: Instant): seq<Notice>
    requires forall i :: 0 <= i < |list| ==> list[i].key.reportId in verdicts
  {
    seq(|list|, i requires 0 <= i < |list| => NoticeFor(list[i], verdicts[list[i].key.reportId], now))
  }

  function AuditsFor(list: seq<Listed>, verdicts: Verdicts, now: Instant): seq<AuditRow>
    requires forall i :: 0 <= i < |list| ==> list[i].key.reportId in verdicts
  {
    seq(|list|, i requires 0 <= i < |list| => AuditFor(list[i], verdicts[list[i].key.reportId], now))
  }

  lemma ApplyThree(db: Db, a: Write, b: Write, c: Write)
    ensures ApplyWrites(db, [a, b, c]) == ApplyWrite(ApplyWrite(ApplyWrite(db, a), b), c)
  {
    assert [a, b, c][..2] == [a, b] && [a, b][..1] == [a] && [a][..0] == [];
    assert ApplyWrites(db, [a]) == ApplyWrite(db, a);
    assert ApplyWrites(db, [a, b]) == ApplyWrite(ApplyWrites(db, [a]), b);
  }

  lemma OwnRecords(db: Db, mid: Db, l: Listed, verdicts: Verdicts, now: Instant)
    ensures var t := ApplyWrites(mid, WritesFor(db, l, verdicts, now));
            if !Renews(db, l, verdicts) then t == mid
            else
              && l.key.reportId in verdicts
              && t.notices == mid.notices + [NoticeFor(l, verdicts[l.key.reportId], now)]
              && t.audit == mid.audit + [AuditFor(l, verdicts[l.key.reportId], now)]
  {
    if Renews(db, l, verdicts) {
      var rules := verdicts[l.key.reportId];
      var notice, audit := NoticeFor(l, rules, now), AuditFor(l, rules, now);
      assert WritesFor(db, l, verdicts, now)
          == [SetState(l.key, Invalidated), AppendAudit(audit), InsertNotice(notice)];
      ApplyThree(mid, SetState(l.key, Invalidated), AppendAudit(audit), InsertNotice(notice));
    }
  }

  lemma {:induction false} PassAppends(db: Db, committed: seq<Listed>, verdicts: Verdicts, now: Instant)
    ensures var t, list := ApplyWrites(db, PassWrites(db, committed, verdicts, now)), Renewed(db, committed, verdicts);
            && t.notices == db.notices + NoticesFor(list, verdicts, now)
            && t.audit == db.audit + AuditsFor(list, verdicts, now)
  {
    if committed != [] {
      var init, last := committed[..|committed| - 1], committed[|committed| - 1];
      PassAppends(db, init, verdicts, now);
      var before := PassWrites(db, init, verdicts, now);
      ApplyConcat(db, before, WritesFor(db, last, verdicts, now));
      OwnRecords(db, ApplyWrites(db, before), last, verdicts, now);
      AppendOne(db, Renewed(db, init, verdicts), last, verdicts, now);
    }
  }

  lemma AppendOne(db: Db, list: seq<Listed>, l: Listed, verdicts: Verdicts, now: Instant)
    requires forall i :: 0 <= i < |list| ==> list[i].key.reportId in verdicts
    ensures list + [] == list
    ensures l.key.reportId in verdicts ==>
              && NoticesFor(list + [l], verdicts, now)
                 == NoticesFor(list, verdicts, now) + [NoticeFor(l, verdicts[l.key.reportId], now)]
              && AuditsFor(list + [l], verdicts, now)
                 == AuditsFor(list, verdicts, now) + [AuditFor(l, verdicts[l.key.reportId], now)]
  {
  }

  lemma {:induction false} RenewedMembers(db: Db, committed: seq<Listed>, verdicts: Verdicts)
    requires Ordered(committed)
    ensures var list := Renewed(db, committed, verdicts);
            && (forall l :: l in list <==> l in committed && Renews(db, l, verdicts))
            && forall i, j :: 0 <= i < j < |list| ==> list[i].key != list[j].key
  {
    if committed != [] {
      var init, last := committed[..|committed| - 1], committed[|committed| - 1];
      RenewedMembers(db, init, verdicts);
      assert forall l :: l in committed <==> l in init || l == last;
      var before := Renewed(db, init, verdicts);
      forall i | 0 <= i < |before| ensures before[i].key != last.key {
        assert before[i] in init;
        var k :| 0 <= k < |init| && init[k] == before[i];
        assert committed[k].key != committed[|committed| - 1].key;
      }
    }
  }

  /** A committed latest version that revalidation marks and that is not yet on record with its rules. */
  ghost predicate NewlyBroken(db: Db, vesselId: string, schemaName: string, verdicts: Verdicts, k: RowKey) {
    && IsLatest(db.rows, vesselId, schemaName, k) && db.rows[k].state.InChain() && k.reportId in verdicts
    && !OnRecord(db, k, verdicts[k.reportId])
  }

  /** These notices and audit rows, pair by pair, record one newly broken
      version each: its rules, the time, and the state it was taken out of. */
  ghost predicate RecordsEach(db: Db, vesselId: string, schemaName: string, verdicts: Verdicts, now: Instant,
                              notices: seq<Notice>, audit: seq<AuditRow>)
  {
    && |audit| == |notices|
    && (forall i :: 0 <= i < |notices| ==>
          && NewlyBroken(db, vesselId, schemaName, verdicts, notices[i].key)
          && notices[i] == Notice(notices[i].key, verdicts[notices[i].key.reportId], now)
          && audit[i] == AuditFor(Listed(notices[i].key, db.rows[notices[i].key]),
                                  verdicts[notices[i].key.reportId], now))
    && (forall i, j :: 0 <= i < j < |notices| ==> notices[i].key != notices[j].key)
    && forall k :: NewlyBroken(db, vesselId, schemaName, verdicts, k) ==>
                     exists i :: 0 <= i < |notices| && notices[i].key == k
  }

  /** The list has each newly broken version once, with its row. */
  ghost predicate ListsNewlyBroken(db: Db, vesselId: string, schemaName: string, verdicts: Verdicts, list: seq<Listed>)
  {
    && (forall i :: 0 <= i < |list| ==>
          && list[i].key.reportId in verdicts
          && NewlyBroken(db, vesselId, schemaName, verdicts, list[i].key) && list[i].row == db.rows[list[i].key])
    && (forall i, j :: 0 <= i < j < |list| ==> list[i].key != list[j].key)
    && forall k :: NewlyBroken(db, vesselId, schemaName, verdicts, k) ==>
                     exists i :: 0 <= i < |list| && list[i].key == k
  }

  /** The reports that need writing are the newly broken ones. */
  lemma RenewedIsNewlyBroken(db: Db, vesselId: string, schemaName: string, chain: seq<Listed>, verdicts: Verdicts)
    requires IsChain(db.rows, vesselId, schemaName, chain)
    ensures ListsNewlyBroken(db, vesselId, schemaName, verdicts, Renewed(db, Committed(chain), verdicts))
  {
    var list := Renewed(db, Committed(chain), verdicts);
    CommittedDistinct(db.rows, vesselId, schemaName, chain);
    RenewedMembers(db, Committed(chain), verdicts);
    forall i | 0 <= i < |list|
      ensures NewlyBroken(db, vesselId, schemaName, verdicts, list[i].key) && list[i].row == db.rows[list[i].key]
    {
      assert list[i] in list;
    }
    forall k | NewlyBroken(db, vesselId, schemaName, verdicts, k)
        ensures exists i :: 0 <= i < |list| && list[i].key == k {
      var n :| 0 <= n < |chain| && chain[n].key == k;
      CommittedElements(chain, chain[n]);
      assert chain[n] in list;
    }
  }

  lemma RecordsOfRenewed(db: Db, vesselId: string, schemaName: string, verdicts: Verdicts, now: Instant,
                         list: seq<Listed>)
    requires ListsNewlyBroken(db, vesselId, schemaName, verdicts, list)
    ensures RecordsEach(db, vesselId, schemaName, verdicts, now, NoticesFor(list, verdicts, now),
                        AuditsFor(list, verdicts, now))
  {
    var notices := NoticesFor(list, verdicts, now);
    forall k | NewlyBroken(db, vesselId, schemaName, verdicts, k)
      ensures exists i :: 0 <= i < |notices| && notices[i].key == k
    {
      var i :| 0 <= i < |list| && list[i].key == k;
      assert notices[i].key == k;
    }
  }

  /** A complete pass appends exactly one notice and one audit row for each
      newly broken version, and no other notice or audit row. */
  lemma PassRecordsEach(db: Db, vesselId: string, schemaName: string, cfg: Reports.Config, now: Instant, after: Db)
    returns (verdicts: Verdicts, notices: seq<Notice>, audit: seq<AuditRow>)
    requires CompletePass(db, vesselId, schemaName, cfg, now, after)
    ensures VerdictsOf(db.rows, vesselId, schemaName, cfg, verdicts)
    ensures after.notices == db.notices + notices && after.audit == db.audit + audit
    ensures RecordsEach(db, vesselId, schemaName, verdicts, now, notices, audit)
  {
    var chain, order :| IsChain(db.rows, vesselId, schemaName, chain)
                        && Chains.SortOf(order, Views(Committed(chain)))
                        && after == ApplyWrites(db, PassWrites(db, Committed(chain), Cascade.Verdicts(order, cfg),
                                                               now));
    verdicts := Cascade.Verdicts(order, cfg);
    notices, audit := ChainRecordsEach(db, vesselId, schemaName, chain, verdicts, now);
  }

  lemma ChainRecordsEach(db: Db, vesselId: string, schemaName: string, chain: seq<Listed>, verdicts: Verdicts,
                         now: Instant)
    returns (notices: seq<Notice>, audit: seq<AuditRow>)
    requires IsChain(db.rows, vesselId, schemaName, chain)
    ensures var after := ApplyWrites(db, PassWrites(db, Committed(chain), verdicts, now));
            after.notices == db.notices + notices && after.audit == db.audit + audit
    ensures RecordsEach(db, vesselId, schemaName, verdicts, now, notices, audit)
  {
    var list := Renewed(db, Committed(chain), verdicts);
    notices, audit := NoticesFor(list, verdicts, now), AuditsFor(list, verdicts, now);
    PassAppends(db, Committed(chain), verdicts, now);
    RenewedIsNewlyBroken(db, vesselId, schemaName, chain, verdicts);
    RecordsOfRenewed(db, vesselId, schemaName, verdicts, now, list);
  }
}
