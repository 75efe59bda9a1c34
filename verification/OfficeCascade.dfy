// The office's cascade pass: revalidate a vessel's committed chain and record
// every newly or differently broken report.
module OfficeCascade {
  import opened Prelude
  import opened Cells
  import Reports
  import Chains
  import Cascade
  import opened Lifecycle
  import opened OfficeStore

  type Verdicts = Cascade.CascadeResult

  function Committed(chain: seq<Listed>): seq<Listed> {
    if chain == [] then []
    else Committed(chain[..|chain| - 1]) + if chain[|chain| - 1].row.state.InChain() then [chain[|chain| - 1]] else []
  }

  function Views(chain: seq<Listed>): (views: seq<Reports.Report>)
    ensures |views| == |chain|
    ensures forall i :: 0 <= i < |chain| ==> views[i] == chain[i].ToValidation()
  {
    seq(|chain|, i requires 0 <= i < |chain| => chain[i].ToValidation())
  }

  /** A listed row as the aggregate the office loads: what the table does not hold is empty. */
  function VersionOf(l: Listed): Version {
    Version(l.key.reportId, l.key.versionNo, l.row.schemaName, l.row.eventType, l.row.eventTime, l.row.fields,
            l.row.state, None, [], l.row.submittedAt, "", 0, "", 0)
  }

  function InvalidationEvent(l: Listed, rules: seq<Reports.RuleId>, now: Instant): Event {
    Event(l.key.reportId, l.key.versionNo, InvalidatedEvent, now, "",
          Broken(rules, if l.row.state == Invalidated then None else Some(l.row.state)))
  }

  /** The statements one report needs: none if it is not broken, or if it is
      invalidated already and its latest notice lists the same rules. */
  function WritesFor(db: Db, l: Listed, verdicts: Verdicts, now: Instant): seq<Write> {
    if l.key.reportId !in verdicts then []
    else
      var rules := verdicts[l.key.reportId];
      var latest := LatestNotice(db.notices, l.key);
      if l.row.state == Invalidated && latest.Some? && latest.value.brokenRules == rules then []
      else
        [SetState(l.key, Invalidated),
         AppendAudit(AuditRow(l.key.vesselId, InvalidationEvent(l, rules, now), FromOffice)),
         InsertNotice(Notice(l.key, rules, now))]
  }

  function PassWrites(db: Db, committed: seq<Listed>, verdicts: Verdicts, now: Instant): seq<Write> {
    if committed == [] then []
    else
      PassWrites(db, committed[..|committed| - 1], verdicts, now)
      + WritesFor(db, committed[|committed| - 1], verdicts, now)
  }

  /** The first `n` statements of a pass over this chain, revalidated in this order. */
  ghost function AfterWrites(db: Db, chain: seq<Listed>, order: seq<Reports.Report>, cfg: Reports.Config, now: Instant,
                             n: nat): Db
  {
    var writes := PassWrites(db, Committed(chain), Cascade.Verdicts(order, cfg), now);
    ApplyWrites(db, if n <= |writes| then writes[..n] else writes)
  }

  /** `after` is what a pass leaves behind if the store gives up after `budget` statements. */
  ghost predicate BoundedPass(db: Db, vesselId: string, schemaName: string, cfg: Reports.Config, now: Instant,
                              budget: nat, after: Db)
  {
    exists chain, order ::
      && IsChain(db.rows, vesselId, schemaName, chain)
      && Chains.SortOf(order, Views(Committed(chain)))
      && after == AfterWrites(db, chain, order, cfg, now, budget)
  }

  /** `after` is what a complete pass leaves behind. */
  ghost predicate CompletePass(db: Db, vesselId: string, schemaName: string, cfg: Reports.Config, now: Instant,
                               after: Db)
  {
    exists chain, order ::
      && IsChain(db.rows, vesselId, schemaName, chain)
      && Chains.SortOf(order, Views(Committed(chain)))
      && after == ApplyWrites(db, PassWrites(db, Committed(chain), Cascade.Verdicts(order, cfg), now))
  }

  // ---- Facts about the chain ----

  lemma {:induction false} CommittedElements(chain: seq<Listed>, l: Listed)
    ensures l in Committed(chain) <==> l in chain && l.row.state.InChain()
  {
    if chain != [] {
      CommittedElements(chain[..|chain| - 1], l);
      assert chain == chain[..|chain| - 1] + [chain[|chain| - 1]];
    }
  }

  /** Pairwise different keys and non-decreasing event times. */
  ghost predicate Ordered(chain: seq<Listed>) {
    forall i, j :: 0 <= i < j < |chain| ==>
                     chain[i].key != chain[j].key && chain[i].row.eventTime <= chain[j].row.eventTime
  }

  lemma {:induction false} CommittedOrdered(chain: seq<Listed>)
    requires Ordered(chain)
    ensures Ordered(Committed(chain))
  {
    if chain != [] {
      var init, last := chain[..|chain| - 1], chain[|chain| - 1];
      CommittedOrdered(init);
      var c := Committed(init);
      forall i | 0 <= i < |c| ensures c[i].key != last.key && c[i].row.eventTime <= last.row.eventTime {
        CommittedElements(init, c[i]);
        var k :| 0 <= k < |init| && init[k] == c[i];
        assert chain[k] == c[i];
      }
    }
  }

  /** In the committed chain of a vessel and schema every report id occurs once. */
  lemma CommittedDistinct(rows: map<RowKey, Row>, vesselId: string, schemaName: string, chain: seq<Listed>)
    requires IsChain(rows, vesselId, schemaName, chain)
    ensures Ordered(Committed(chain))
    ensures forall l :: l in Committed(chain) ==>
                          IsLatest(rows, vesselId, schemaName, l.key) && l.row == rows[l.key] && l.row.state.InChain()
    ensures Reports.DistinctIds(Views(Committed(chain)))
    ensures Chains.Sorted(Views(Committed(chain)))
  {
    CommittedOrdered(chain);
    forall l | l in Committed(chain)
      ensures IsLatest(rows, vesselId, schemaName, l.key) && l.row == rows[l.key] && l.row.state.InChain()
    {
      CommittedElements(chain, l);
    }
    var c := Committed(chain);
    forall i, j | 0 <= i < j < |c| ensures c[i].key.reportId != c[j].key.reportId {
      assert c[i] in c && c[j] in c;
      OneLatest(rows, vesselId, schemaName, c[i].key, c[j].key);
    }
  }

  /** A report has one latest version. */
  lemma OneLatest(rows: map<RowKey, Row>, vesselId: string, schemaName: string, a: RowKey, b: RowKey)
    requires IsLatest(rows, vesselId, schemaName, a) && IsLatest(rows, vesselId, schemaName, b)
    ensures a.reportId == b.reportId ==> a == b
  {
  }

  // ---- The pass ----

  /** Whether two rule lists are the same, in the same order. */
  method StringsEqual(a: seq<Reports.RuleId>, b: seq<Reports.RuleId>) returns (equal: bool)
    ensures equal <==> a == b
  {
    if |a| != |b| { return false; }
    for i := 0 to |a|
      invariant a[..i] == b[..i]
    {
      if a[i] != b[i] { return false; }
    }
    return true;
  }

  lemma {:induction false} PassPrefix(db: Db, committed: seq<Listed>, verdicts: Verdicts, now: Instant, i: nat)
    requires i <= |committed|
    ensures PassWrites(db, committed[..i], verdicts, now) <= PassWrites(db, committed, verdicts, now)
    decreases |committed|
  {
    if i == |committed| {
      assert committed[..i] == committed;
    } else {
      var init := committed[..|committed| - 1];
      assert init[..i] == committed[..i];
      PassPrefix(db, init, verdicts, now, i);
    }
  }

  lemma {:induction false} OtherNotices(db: Db, committed: seq<Listed>, verdicts: Verdicts, now: Instant, key: RowKey)
    requires forall i :: 0 <= i < |committed| ==> committed[i].key != key
    ensures LatestNotice(ApplyWrites(db, PassWrites(db, committed, verdicts, now)).notices, key)
         == LatestNotice(db.notices, key)
  {
    if committed != [] {
      var init, last := committed[..|committed| - 1], committed[|committed| - 1];
      OtherNotices(db, init, verdicts, now, key);
      var before := PassWrites(db, init, verdicts, now);
      ApplyConcat(db, before, WritesFor(db, last, verdicts, now));
      OtherNotice(ApplyWrites(db, before), WritesFor(db, last, verdicts, now), key);
    }
  }

  lemma {:induction false} OtherNotice(db: Db, writes: seq<Write>, key: RowKey)
    requires forall w :: w in writes && w.InsertNotice? ==> w.notice.key != key
    ensures LatestNotice(ApplyWrites(db, writes).notices, key) == LatestNotice(db.notices, key)
  {
    if writes != [] {
      var init, last := writes[..|writes| - 1], writes[|writes| - 1];
      OtherNotice(db, init, key);
      assert last in writes;
      var mid := ApplyWrites(db, init);
      if last.InsertNotice? { assert (mid.notices + [last.notice])[..|mid.notices|] == mid.notices; }
    }
  }

  /** Runs the statements in order until one fails. */
  method PerformAll(st: Store, writes: seq<Write>, budget: nat) returns (ok: bool)
    modifies st
    ensures ok <==> |writes| <= budget
    ensures st.View() == ApplyWrites(old(st.View()), if ok then writes else writes[..budget])
  {
    for i := 0 to |writes|
      invariant i <= budget
      invariant st.View() == ApplyWrites(old(st.View()), writes[..i])
    {
      assert writes[..i + 1][..i] == writes[..i];
      if i == budget { return false; }
      st.Perform(writes[i]);
    }
    assert writes[..|writes|] == writes;
    return true;
  }

  method RecordVerdict(st: Store, l: Listed, verdicts: Verdicts, now: Instant, budget: nat)
    returns (ok: bool, spent: nat)
    modifies st
    ensures var writes := WritesFor(old(st.View()), l, verdicts, now);
            && (ok <==> |writes| <= budget)
            && spent == (if ok then |writes| else budget)
            && st.View() == ApplyWrites(old(st.View()), writes[..spent])
  {
    if l.key.reportId !in verdicts { return true, 0; }
    var rules := verdicts[l.key.reportId];
    if l.row.state == Invalidated {
      var prev := st.GetLatestInvalidationNotice(l.key);
      if prev.Some? {
        var same := StringsEqual(prev.value.brokenRules, rules);
        if same { return true, 0; }
      }
    }
    var fields := new Cell(l.row.fields);
    var report := new ReportAggregate.From(VersionOf(l), fields);
    var event := report.Invalidate(rules, now);
    assert event == InvalidationEvent(l, rules, now);
    var writes := [SetState(l.key, report.state), AppendAudit(AuditRow(l.key.vesselId, event, FromOffice)),
                   InsertNotice(Notice(l.key, rules, now))];
    ok := PerformAll(st, writes, budget);
    spent := if ok then |writes| else budget;
    assert writes[..|writes|] == writes;
  }

  method RunCascade(st: Store, vesselId: string, schemaName: string, cfg: Reports.Config, now: Instant, budget: nat)
    returns (ok: bool)
    modifies st
    ensures BoundedPass(old(st.View()), vesselId, schemaName, cfg, now, budget, st.View())
    ensures ok ==> CompletePass(old(st.View()), vesselId, schemaName, cfg, now, st.View())
  {
    ghost var db := st.View();
    var all := st.ListChain(vesselId, schemaName);
    var chain := [];
    for i := 0 to |all|
      invariant chain == Committed(all[..i])
    {
      assert all[..i + 1][..i] == all[..i];
      if all[i].row.state.InChain() { chain := chain + [all[i]]; }
    }
    assert all[..|all|] == all;
    CommittedDistinct(st.rows, vesselId, schemaName, all);
    var verdicts := Cascade.Revalidate(Views(chain), Some(cfg));
    ghost var order :| Chains.SortOf(order, Views(chain)) && Cascade.IsVerdictOf(verdicts, order, cfg);
    Chains.DistinctIdsPermute(Views(chain), order);
    ok := WritePass(st, chain, verdicts, now, budget);
    PassWitness(db, vesselId, schemaName, cfg, now, budget, all, order, st.View(), ok);
  }

  lemma PassWitness(db: Db, vesselId: string, schemaName: string, cfg: Reports.Config, now: Instant, budget: nat,
                    chain: seq<Listed>, order: seq<Reports.Report>, after: Db, ok: bool)
    requires IsChain(db.rows, vesselId, schemaName, chain)
    requires Chains.SortOf(order, Views(Committed(chain)))
    requires PassDone(db, Committed(chain), Cascade.Verdicts(order, cfg), now, budget, after, ok)
    ensures BoundedPass(db, vesselId, schemaName, cfg, now, budget, after)
    ensures ok ==> CompletePass(db, vesselId, schemaName, cfg, now, after)
  {
    var writes := PassWrites(db, Committed(chain), Cascade.Verdicts(order, cfg), now);
    if |writes| == budget { assert writes[..budget] == writes; }
    assert after == AfterWrites(db, chain, order, cfg, now, budget);
  }

  /** The pass over this chain is complete, or cut off after as many statements as the store takes. */
  ghost predicate PassDone(db: Db, chain: seq<Listed>, verdicts: Verdicts, now: Instant, budget: nat, after: Db,
                           ok: bool)
  {
    var writes := PassWrites(db, chain, verdicts, now);
    && (ok <==> |writes| <= budget)
    && after == ApplyWrites(db, if ok then writes else writes[..budget])
  }

  method WritePass(st: Store, chain: seq<Listed>, verdicts: Verdicts, now: Instant, budget: nat) returns (ok: bool)
    requires Ordered(chain)
    modifies st
    ensures PassDone(old(st.View()), chain, verdicts, now, budget, st.View(), ok)
  {
    ghost var db := st.View();
    var left: nat := budget;
    for i := 0 to |chain|
      invariant left <= budget && Did(db, chain, verdicts, now, i, budget - left, st.View())
    {
      ghost var before := st.View();
      var spent;
      ok, spent := RecordVerdict(st, chain[i], verdicts, now, left);
      DidNext(db, chain, verdicts, now, i, budget - left, before, budget, spent, st.View(), ok);
      if !ok { return; }
      left := left - spent;
    }
    DidAll(db, chain, verdicts, now, budget - left, budget, st.View());
    ok := true;
  }

  /** The first `i` reports are written, by `n` statements. */
  ghost predicate Did(db: Db, chain: seq<Listed>, verdicts: Verdicts, now: Instant, i: nat, n: nat, after: Db) {
    && i <= |chain|
    && n == |PassWrites(db, chain[..i], verdicts, now)|
    && after == ApplyWrites(db, PassWrites(db, chain[..i], verdicts, now))
  }

  lemma DidAll(db: Db, chain: seq<Listed>, verdicts: Verdicts, now: Instant, n: nat, budget: nat, after: Db)
    requires Did(db, chain, verdicts, now, |chain|, n, after) && n <= budget
    ensures PassDone(db, chain, verdicts, now, budget, after, true)
  {
    assert chain[..|chain|] == chain;
  }

  lemma DidNext(db: Db, chain: seq<Listed>, verdicts: Verdicts, now: Instant, i: nat, n: nat, view: Db, budget: nat,
                spent: nat, after: Db, ok: bool)
    requires Ordered(chain) && i < |chain| && Did(db, chain, verdicts, now, i, n, view) && n <= budget
    requires var own := WritesFor(view, chain[i], verdicts, now);
             && (ok <==> |own| <= budget - n)
             && spent == (if ok then |own| else budget - n)
             && after == ApplyWrites(view, own[..spent])
    ensures ok ==> n + spent <= budget && Did(db, chain, verdicts, now, i + 1, n + spent, after)
    ensures !ok ==> PassDone(db, chain, verdicts, now, budget, after, false)
  {
    var own := WritesFor(view, chain[i], verdicts, now);
    if ok {
      assert own[..spent] == own;
      DidMore(db, chain, verdicts, now, i, n, view);
    } else {
      DidSome(db, chain, verdicts, now, i, n, view, spent);
    }
  }

  lemma DidMore(db: Db, chain: seq<Listed>, verdicts: Verdicts, now: Instant, i: nat, n: nat, view: Db)
    requires Ordered(chain) && i < |chain| && Did(db, chain, verdicts, now, i, n, view)
    ensures var own := WritesFor(view, chain[i], verdicts, now);
            Did(db, chain, verdicts, now, i + 1, n + |own|, ApplyWrites(view, own))
  {
    PassStep(db, chain, verdicts, now, i);
    ApplyConcat(db, PassWrites(db, chain[..i], verdicts, now), WritesFor(view, chain[i], verdicts, now));
  }

  lemma DidSome(db: Db, chain: seq<Listed>, verdicts: Verdicts, now: Instant, i: nat, n: nat, view: Db, spent: nat)
    requires Ordered(chain) && i < |chain| && Did(db, chain, verdicts, now, i, n, view)
    requires spent < |WritesFor(view, chain[i], verdicts, now)|
    ensures PassDone(db, chain, verdicts, now, n + spent,
                     ApplyWrites(view, WritesFor(view, chain[i], verdicts, now)[..spent]), false)
  {
    var before, own := PassWrites(db, chain[..i], verdicts, now), WritesFor(view, chain[i], verdicts, now);
    PassStep(db, chain, verdicts, now, i);
    ApplyConcat(db, before, own[..spent]);
    CutWrites(before, own, PassWrites(db, chain, verdicts, now), spent, n + spent);
  }

  lemma PassStep(db: Db, chain: seq<Listed>, verdicts: Verdicts, now: Instant, i: nat)
    requires i < |chain| && Ordered(chain)
    ensures var before, own := PassWrites(db, chain[..i], verdicts, now), WritesFor(db, chain[i], verdicts, now);
            && PassWrites(db, chain[..i + 1], verdicts, now) == before + own
            && before + own <= PassWrites(db, chain, verdicts, now)
            && WritesFor(ApplyWrites(db, before), chain[i], verdicts, now) == own
  {
    assert chain[..i + 1][..i] == chain[..i];
    PassPrefix(db, chain, verdicts, now, i + 1);
    OtherNotices(db, chain[..i], verdicts, now, chain[i].key);
  }

  lemma CutWrites(before: seq<Write>, own: seq<Write>, writes: seq<Write>, spent: nat, all: nat)
    requires before + own <= writes && spent < |own| && all == |before| + spent
    ensures all < |writes| && before + own[..spent] == writes[..all]
  {
  }
}
