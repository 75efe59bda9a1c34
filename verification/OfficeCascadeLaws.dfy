// What a cascade pass establishes and keeps: every broken report ends up
// invalidated with its exact rules on record, nothing else changes, a second
// pass is silent, and a pass that was cut short is made good by the next.
module OfficeCascadeLaws {
  import opened Prelude
  import Reports
  import Chains
  import Cascade
  import CascadeLaws
  import opened Lifecycle
  import opened OfficeStore
  import opened OfficeCascade

  // ---- What confined statements can change ----

  /** Keys of the reports the verdicts mark. */
  ghost function MarkedKeys(committed: seq<Listed>, verdicts: Verdicts): set<RowKey> {
    set i | 0 <= i < |committed| && committed[i].key.reportId in verdicts :: committed[i].key
  }

  ghost predicate Within(w: Write, keys: set<RowKey>) {
    match w
    case SetState(key, state) => key in keys && state == Invalidated
    case AppendAudit(_) => true
    case InsertNotice(notice) => notice.key in keys
  }

  /** From `a` to `b` rows of these keys may have become invalidated; nothing
      else about rows changed, and notices and audit rows were only appended. */
  ghost predicate OnlyInvalidates(a: Db, b: Db, keys: set<RowKey>) {
    && a.rows.Keys == b.rows.Keys
    && (forall k :: k in a.rows ==>
          b.rows[k] == a.rows[k] || (k in keys && b.rows[k] == a.rows[k].(state := Invalidated)))
    && a.notices <= b.notices && a.audit <= b.audit
    && a.chat == b.chat && a.receipts == b.receipts
    && forall k :: k !in keys ==> LatestNotice(b.notices, k) == LatestNotice(a.notices, k)
  }

  lemma OneConfinedWrite(a: Db, b: Db, w: Write, keys: set<RowKey>)
    requires OnlyInvalidates(a, b, keys) && Within(w, keys)
    ensures OnlyInvalidates(a, ApplyWrite(b, w), keys)
  {
    if w.InsertNotice? { assert (b.notices + [w.notice])[..|b.notices|] == b.notices; }
  }

  lemma {:induction false} ConfinedWrites(db: Db, writes: seq<Write>, keys: set<RowKey>)
    requires forall w :: w in writes ==> Within(w, keys)
    ensures OnlyInvalidates(db, ApplyWrites(db, writes), keys)
  {
    if writes != [] {
      var init, last := writes[..|writes| - 1], writes[|writes| - 1];
      assert last in writes && forall w :: w in init ==> w in writes;
      ConfinedWrites(db, init, keys);
      OneConfinedWrite(db, ApplyWrites(db, init), last, keys);
    }
  }

  lemma {:induction false} PassIsConfined(db: Db, committed: seq<Listed>, verdicts: Verdicts, now: Instant,
                                          keys: set<RowKey>)
    requires MarkedKeys(committed, verdicts) <= keys
    ensures forall w :: w in PassWrites(db, committed, verdicts, now) ==> Within(w, keys)
  {
    if committed != [] {
      var init, last := committed[..|committed| - 1], committed[|committed| - 1];
      forall k | k in MarkedKeys(init, verdicts) ensures k in keys {
        var i :| 0 <= i < |init| && init[i].key.reportId in verdicts && init[i].key == k;
        assert committed[i] == init[i] && k in MarkedKeys(committed, verdicts);
      }
      PassIsConfined(db, init, verdicts, now, keys);
      if last.key.reportId in verdicts { assert committed[|committed| - 1].key in MarkedKeys(committed, verdicts); }
    }
  }

  // ---- What a complete pass records ----

  /** The row is invalidated and its newest notice lists exactly these rules. */
  ghost predicate OnRecord(db: Db, key: RowKey, rules: seq<Reports.RuleId>) {
    && key in db.rows && db.rows[key].state == Invalidated
    && LatestNotice(db.notices, key).Some? && LatestNotice(db.notices, key).value.brokenRules == rules
  }

  ghost predicate Snapshot(db: Db, committed: seq<Listed>) {
    forall i :: 0 <= i < |committed| ==> committed[i].key in db.rows && committed[i].row == db.rows[committed[i].key]
  }

  /** After its own statements a marked report is on record. */
  lemma WritesForRecord(db: Db, mid: Db, l: Listed, verdicts: Verdicts, now: Instant)
    requires l.key in mid.rows && l.key.reportId in verdicts
    requires l.row.state == Invalidated ==> mid.rows[l.key].state == Invalidated
    requires LatestNotice(mid.notices, l.key) == LatestNotice(db.notices, l.key)
    ensures OnRecord(ApplyWrites(mid, WritesFor(db, l, verdicts, now)), l.key, verdicts[l.key.reportId])
  {
    var writes := WritesFor(db, l, verdicts, now);
    if writes != [] {
      var one, two := writes[..1], writes[..2];
      assert writes[..2][..1] == one && one[..0] == [];
      assert ApplyWrites(mid, one) == ApplyWrite(mid, writes[0]);
      assert ApplyWrites(mid, two) == ApplyWrite(ApplyWrites(mid, one), writes[1]);
      assert ApplyWrites(mid, writes) == ApplyWrite(ApplyWrites(mid, two), writes[2]);
    }
  }

  /** Statements for other keys leave a record alone. */
  lemma RecordSurvives(db: Db, writes: seq<Write>, key: RowKey, rules: seq<Reports.RuleId>, keys: set<RowKey>)
    requires OnRecord(db, key, rules) && key !in keys
    requires forall w :: w in writes ==> Within(w, keys)
    ensures OnRecord(ApplyWrites(db, writes), key, rules)
  {
    ConfinedWrites(db, writes, keys);
  }

  lemma OwnWritesConfined(db: Db, l: Listed, verdicts: Verdicts, now: Instant)
    ensures forall w :: w in WritesFor(db, l, verdicts, now) ==> Within(w, {l.key})
  {
  }

  lemma {:induction false} PassRecords(db: Db, committed: seq<Listed>, verdicts: Verdicts, now: Instant, i: nat)
    requires Snapshot(db, committed) && Ordered(committed)
    requires i < |committed| && committed[i].key.reportId in verdicts
    ensures OnRecord(ApplyWrites(db, PassWrites(db, committed, verdicts, now)), committed[i].key,
                     verdicts[committed[i].key.reportId])
    decreases |committed|
  {
    var init, last := committed[..|committed| - 1], committed[|committed| - 1];
    var before := PassWrites(db, init, verdicts, now);
    var mid := ApplyWrites(db, before);
    ApplyConcat(db, before, WritesFor(db, last, verdicts, now));
    PassIsConfined(db, init, verdicts, now, MarkedKeys(init, verdicts));
    ConfinedWrites(db, before, MarkedKeys(init, verdicts));
    if i < |init| {
      PassRecords(db, init, verdicts, now, i);
      OwnWritesConfined(db, last, verdicts, now);
      RecordSurvives(mid, WritesFor(db, last, verdicts, now), committed[i].key, verdicts[committed[i].key.reportId],
                     {last.key});
    } else {
      assert last.key !in MarkedKeys(init, verdicts) by {
        assert forall k :: 0 <= k < |init| ==> committed[k].key != last.key;
      }
      WritesForRecord(db, mid, last, verdicts, now);
    }
  }

  lemma {:induction false} RecordedPassIsSilent(db: Db, committed: seq<Listed>, verdicts: Verdicts, now: Instant)
    requires Snapshot(db, committed)
    requires forall i :: 0 <= i < |committed| && committed[i].key.reportId in verdicts ==>
                           OnRecord(db, committed[i].key, verdicts[committed[i].key.reportId])
    ensures PassWrites(db, committed, verdicts, now) == []
  {
    if committed != [] {
      var init := committed[..|committed| - 1];
      assert forall i :: 0 <= i < |init| ==> init[i] == committed[i];
      RecordedPassIsSilent(db, init, verdicts, now);
      assert committed[|committed| - 1].key in db.rows;
    }
  }

  // ---- What a pass keeps: the chain and its verdicts ----

  /** Two committed latest rows of the vessel and schema never have the same event time. */
  ghost predicate DistinctCommittedTimes(rows: map<RowKey, Row>, vesselId: string, schemaName: string) {
    forall a, b :: IsLatest(rows, vesselId, schemaName, a) && IsLatest(rows, vesselId, schemaName, b)
                   && rows[a].state.InChain() && rows[b].state.InChain() && a != b
                   ==> rows[a].eventTime != rows[b].eventTime
  }

  /** The same rows up to committed rows changing their state within the committed ones. */
  ghost predicate SameChainData(a: map<RowKey, Row>, b: map<RowKey, Row>) {
    && a.Keys == b.Keys
    && forall k :: k in a ==> b[k] == a[k].(state := b[k].state) && (a[k].state.InChain() <==> b[k].state.InChain())
  }

  lemma SameLatest(a: map<RowKey, Row>, b: map<RowKey, Row>, vesselId: string, schemaName: string, key: RowKey)
    requires SameChainData(a, b)
    ensures IsLatest(a, vesselId, schemaName, key) <==> IsLatest(b, vesselId, schemaName, key)
  {
  }

  lemma SameDistinctTimes(a: map<RowKey, Row>, b: map<RowKey, Row>, vesselId: string, schemaName: string)
    requires SameChainData(a, b) && DistinctCommittedTimes(a, vesselId, schemaName)
    ensures DistinctCommittedTimes(b, vesselId, schemaName)
  {
    forall x, y | IsLatest(b, vesselId, schemaName, x) && IsLatest(b, vesselId, schemaName, y)
                  && b[x].state.InChain() && b[y].state.InChain() && x != y
      ensures b[x].eventTime != b[y].eventTime
    {
      SameLatest(a, b, vesselId, schemaName, x);
      SameLatest(a, b, vesselId, schemaName, y);
    }
  }

  /** Any committed latest row of one store has its report in a chain listed from the other. */
  lemma ViewCarriesOver(a: map<RowKey, Row>, b: map<RowKey, Row>, vesselId: string, schemaName: string,
                        ca: seq<Listed>, cb: seq<Listed>, x: Reports.Report)
    requires SameChainData(a, b)
    requires IsChain(a, vesselId, schemaName, ca) && IsChain(b, vesselId, schemaName, cb)
    requires x in Views(Committed(ca))
    ensures x in Views(Committed(cb))
  {
    CommittedDistinct(a, vesselId, schemaName, ca);
    var i :| 0 <= i < |Committed(ca)| && Views(Committed(ca))[i] == x;
    var l := Committed(ca)[i];
    assert l in Committed(ca);
    SameLatest(a, b, vesselId, schemaName, l.key);
    var j :| 0 <= j < |cb| && cb[j].key == l.key;
    CommittedElements(cb, cb[j]);
    assert cb[j] in Committed(cb);
    var k :| 0 <= k < |Committed(cb)| && Committed(cb)[k] == cb[j];
    assert Views(Committed(cb))[k] == x;
  }

  lemma SameViews(a: map<RowKey, Row>, b: map<RowKey, Row>, vesselId: string, schemaName: string,
                  ca: seq<Listed>, cb: seq<Listed>)
    requires SameChainData(a, b)
    requires IsChain(a, vesselId, schemaName, ca) && IsChain(b, vesselId, schemaName, cb)
    ensures multiset(Views(Committed(ca))) == multiset(Views(Committed(cb)))
  {
    CommittedDistinct(a, vesselId, schemaName, ca);
    CommittedDistinct(b, vesselId, schemaName, cb);
    var va, vb := Views(Committed(ca)), Views(Committed(cb));
    forall x ensures x in va <==> x in vb {
      if x in va { ViewCarriesOver(a, b, vesselId, schemaName, ca, cb, x); }
      if x in vb { ViewCarriesOver(b, a, vesselId, schemaName, cb, ca, x); }
    }
    assert forall i, j :: 0 <= i < j < |va| ==> va[i].reportId != va[j].reportId;
    assert forall i, j :: 0 <= i < j < |vb| ==> vb[i].reportId != vb[j].reportId;
    SameMembersOnce(va, vb);
  }

  lemma ViewsDistinctTimes(rows: map<RowKey, Row>, vesselId: string, schemaName: string, chain: seq<Listed>)
    requires IsChain(rows, vesselId, schemaName, chain)
    requires DistinctCommittedTimes(rows, vesselId, schemaName)
    ensures Chains.DistinctTimes(Views(Committed(chain)))
  {
    CommittedDistinct(rows, vesselId, schemaName, chain);
    var c := Committed(chain);
    forall i, j | 0 <= i < j < |c| ensures c[i].row.eventTime != c[j].row.eventTime {
      assert c[i] in c && c[j] in c;
    }
  }

  /** All passes over stores with the same chain data revalidate the same order. */
  lemma SameOrder(a: map<RowKey, Row>, b: map<RowKey, Row>, vesselId: string, schemaName: string,
                  ca: seq<Listed>, cb: seq<Listed>, oa: seq<Reports.Report>, ob: seq<Reports.Report>)
    requires SameChainData(a, b) && DistinctCommittedTimes(a, vesselId, schemaName)
    requires IsChain(a, vesselId, schemaName, ca) && IsChain(b, vesselId, schemaName, cb)
    requires Chains.SortOf(oa, Views(Committed(ca))) && Chains.SortOf(ob, Views(Committed(cb)))
    ensures oa == ob
  {
    SameViews(a, b, vesselId, schemaName, ca, cb);
    ViewsDistinctTimes(a, vesselId, schemaName, ca);
    CascadeLaws.AllTimesDistinct(Views(Committed(ca)), oa);
    Chains.SortUnique(oa, ob);
  }

  // ---- The pass as a whole ----

  /** The marked keys of a pass are committed latest rows. */
  lemma MarkedAreCommitted(db: Db, vesselId: string, schemaName: string, chain: seq<Listed>, verdicts: Verdicts)
    requires IsChain(db.rows, vesselId, schemaName, chain)
    ensures Snapshot(db, Committed(chain)) && Ordered(Committed(chain))
    ensures forall k :: k in MarkedKeys(Committed(chain), verdicts) <==>
                        IsLatest(db.rows, vesselId, schemaName, k) && db.rows[k].state.InChain()
                            && k.reportId in verdicts
  {
    CommittedDistinct(db.rows, vesselId, schemaName, chain);
    var c := Committed(chain);
    forall i | 0 <= i < |c| ensures IsLatest(db.rows, vesselId, schemaName, c[i].key) && c[i].row == db.rows[c[i].key] {
      assert c[i] in c;
    }
    forall k | IsLatest(db.rows, vesselId, schemaName, k) && db.rows[k].state.InChain() && k.reportId in verdicts
      ensures k in MarkedKeys(c, verdicts)
    {
      var j :| 0 <= j < |chain| && chain[j].key == k;
      CommittedElements(chain, chain[j]);
      var i :| 0 <= i < |c| && c[i] == chain[j];
      assert c[i].key == k;
    }
    forall k | k in MarkedKeys(c, verdicts)
      ensures IsLatest(db.rows, vesselId, schemaName, k) && db.rows[k].state.InChain() && k.reportId in verdicts
    {
      var i :| 0 <= i < |c| && c[i].key.reportId in verdicts && c[i].key == k;
      assert c[i] in c;
    }
  }

  ghost function CommittedKeys(rows: map<RowKey, Row>, vesselId: string, schemaName: string): set<RowKey> {
    set k | k in rows && IsLatest(rows, vesselId, schemaName, k) && rows[k].state.InChain()
  }

  lemma OnlyInvalidatesMore(a: Db, b: Db, keys: set<RowKey>, more: set<RowKey>)
    requires OnlyInvalidates(a, b, keys) && keys <= more
    ensures OnlyInvalidates(a, b, more)
  {
  }

  /** However far it gets, a pass only invalidates committed latest rows of its
      own vessel and schema, never moves a row out of invalidated, appends
      notices and audit rows, and touches no chat row and no receipt. */
  lemma PassOnlyInvalidates(db: Db, vesselId: string, schemaName: string, cfg: Reports.Config, now: Instant,
                            budget: nat, after: Db)
    requires BoundedPass(db, vesselId, schemaName, cfg, now, budget, after)
    ensures OnlyInvalidates(db, after, CommittedKeys(db.rows, vesselId, schemaName))
    ensures forall k :: k in db.rows && db.rows[k].state == Invalidated ==> after.rows[k].state == Invalidated
    ensures SameChainData(db.rows, after.rows)
  {
    var chain, order :| IsChain(db.rows, vesselId, schemaName, chain)
                        && Chains.SortOf(order, Views(Committed(chain)))
                        && after == AfterWrites(db, chain, order, cfg, now, budget);
    PartOfPassOnlyInvalidates(db, vesselId, schemaName, cfg, now, budget, chain, order);
    OnlyInvalidatesMore(db, after, MarkedKeys(Committed(chain), Cascade.Verdicts(order, cfg)),
                        CommittedKeys(db.rows, vesselId, schemaName));
  }

  lemma PartOfPassOnlyInvalidates(db: Db, vesselId: string, schemaName: string, cfg: Reports.Config, now: Instant,
                                  budget: nat, chain: seq<Listed>, order: seq<Reports.Report>)
    requires IsChain(db.rows, vesselId, schemaName, chain)
    ensures var after := AfterWrites(db, chain, order, cfg, now, budget);
            var keys := MarkedKeys(Committed(chain), Cascade.Verdicts(order, cfg));
            && OnlyInvalidates(db, after, keys)
            && (forall k :: k in keys ==> IsLatest(db.rows, vesselId, schemaName, k) && db.rows[k].state.InChain())
            && SameChainData(db.rows, after.rows)
  {
    var verdicts := Cascade.Verdicts(order, cfg);
    var keys := MarkedKeys(Committed(chain), verdicts);
    MarkedAreCommitted(db, vesselId, schemaName, chain, verdicts);
    PrefixIsConfined(db, Committed(chain), verdicts, now, budget);
    ConfinedSameData(db, AfterWrites(db, chain, order, cfg, now, budget), keys);
  }

  lemma PrefixIsConfined(db: Db, committed: seq<Listed>, verdicts: Verdicts, now: Instant, budget: nat)
    ensures var writes := PassWrites(db, committed, verdicts, now);
            OnlyInvalidates(db, ApplyWrites(db, if budget <= |writes| then writes[..budget] else writes),
                            MarkedKeys(committed, verdicts))
  {
    var keys := MarkedKeys(committed, verdicts);
    var writes := PassWrites(db, committed, verdicts, now);
    PassIsConfined(db, committed, verdicts, now, keys);
    var done := if budget <= |writes| then writes[..budget] else writes;
    assert forall w :: w in done ==> w in writes;
    ConfinedWrites(db, done, keys);
  }

  lemma ConfinedSameData(a: Db, b: Db, keys: set<RowKey>)
    requires OnlyInvalidates(a, b, keys) && forall k :: k in keys ==> k in a.rows && a.rows[k].state.InChain()
    ensures SameChainData(a.rows, b.rows)
  {
  }

  lemma CompleteIsBounded(db: Db, vesselId: string, schemaName: string, cfg: Reports.Config, now: Instant,
                          chain: seq<Listed>, order: seq<Reports.Report>)
    ensures var writes := PassWrites(db, Committed(chain), Cascade.Verdicts(order, cfg), now);
            ApplyWrites(db, writes) == AfterWrites(db, chain, order, cfg, now, |writes|)
  {
    var writes := PassWrites(db, Committed(chain), Cascade.Verdicts(order, cfg), now);
    assert writes[..|writes|] == writes;
  }

  /** The verdicts of the committed chain: with distinct event times, one map. */
  ghost predicate VerdictsOf(rows: map<RowKey, Row>, vesselId: string, schemaName: string, cfg: Reports.Config,
                             verdicts: Verdicts)
  {
    exists chain, order ::
      && IsChain(rows, vesselId, schemaName, chain)
      && Chains.SortOf(order, Views(Committed(chain)))
      && verdicts == Cascade.Verdicts(order, cfg)
  }

  lemma VerdictsUnique(a: map<RowKey, Row>, b: map<RowKey, Row>, vesselId: string, schemaName: string,
                       cfg: Reports.Config, va: Verdicts, vb: Verdicts)
    requires SameChainData(a, b) && DistinctCommittedTimes(a, vesselId, schemaName)
    requires VerdictsOf(a, vesselId, schemaName, cfg, va) && VerdictsOf(b, vesselId, schemaName, cfg, vb)
    ensures va == vb
  {
    var ca, oa :| IsChain(a, vesselId, schemaName, ca) && Chains.SortOf(oa, Views(Committed(ca)))
                  && va == Cascade.Verdicts(oa, cfg);
    var cb, ob :| IsChain(b, vesselId, schemaName, cb) && Chains.SortOf(ob, Views(Committed(cb)))
                  && vb == Cascade.Verdicts(ob, cfg);
    SameOrder(a, b, vesselId, schemaName, ca, cb, oa, ob);
  }

  /** After a complete pass every committed latest version that revalidation
      marks is stored as invalidated, its newest notice listing exactly its
      broken rules; all other rows and their newest notices are as they were. */
  ghost predicate Settled(before: Db, after: Db, vesselId: string, schemaName: string, verdicts: Verdicts) {
    forall k :: k in before.rows ==>
                  if IsLatest(before.rows, vesselId, schemaName, k) && before.rows[k].state.InChain()
                      && k.reportId in verdicts
                  then OnRecord(after, k, verdicts[k.reportId])
                      && after.rows[k] == before.rows[k].(state := Invalidated)
                  else k in after.rows && after.rows[k] == before.rows[k]
                       && LatestNotice(after.notices, k) == LatestNotice(before.notices, k)
  }

  lemma PassSettles(db: Db, vesselId: string, schemaName: string, cfg: Reports.Config, now: Instant, after: Db)
    returns (verdicts: Verdicts)
    requires CompletePass(db, vesselId, schemaName, cfg, now, after)
    ensures VerdictsOf(db.rows, vesselId, schemaName, cfg, verdicts)
    ensures Settled(db, after, vesselId, schemaName, verdicts)
    ensures SameChainData(db.rows, after.rows)
  {
    var chain, order :| IsChain(db.rows, vesselId, schemaName, chain)
                        && Chains.SortOf(order, Views(Committed(chain)))
                        && after == ApplyWrites(db, PassWrites(db, Committed(chain), Cascade.Verdicts(order, cfg),
                                                               now));
    verdicts := Cascade.Verdicts(order, cfg);
    var c := Committed(chain);
    MarkedAreCommitted(db, vesselId, schemaName, chain, verdicts);
    CompleteIsBounded(db, vesselId, schemaName, cfg, now, chain, order);
    PartOfPassOnlyInvalidates(db, vesselId, schemaName, cfg, now, |PassWrites(db, c, verdicts, now)|, chain, order);
    forall k | k in MarkedKeys(c, verdicts) ensures OnRecord(after, k, verdicts[k.reportId]) {
      var i :| 0 <= i < |c| && c[i].key.reportId in verdicts && c[i].key == k;
      PassRecords(db, c, verdicts, now, i);
    }
  }

  /** The pass changes nothing that revalidation reads, so with distinct event
      times a second pass writes nothing at all. */
  lemma SecondPassIsSilent(db: Db, vesselId: string, schemaName: string, cfg: Reports.Config, now: Instant,
                           later: Instant, after: Db, again: Db)
    requires DistinctCommittedTimes(db.rows, vesselId, schemaName)
    requires CompletePass(db, vesselId, schemaName, cfg, now, after)
    requires CompletePass(after, vesselId, schemaName, cfg, later, again)
    ensures again == after
  {
    var verdicts := PassSettles(db, vesselId, schemaName, cfg, now, after);
    var chain, order :| IsChain(after.rows, vesselId, schemaName, chain)
                        && Chains.SortOf(order, Views(Committed(chain)))
                        && again == ApplyWrites(after,
                                                PassWrites(after, Committed(chain), Cascade.Verdicts(order, cfg),
                                                           later));
    var verdicts' := Cascade.Verdicts(order, cfg);
    assert VerdictsOf(after.rows, vesselId, schemaName, cfg, verdicts');
    VerdictsUnique(db.rows, after.rows, vesselId, schemaName, cfg, verdicts, verdicts');
    var c := Committed(chain);
    MarkedAreCommitted(after, vesselId, schemaName, chain, verdicts');
    forall i | 0 <= i < |c| && c[i].key.reportId in verdicts'
      ensures OnRecord(after, c[i].key, verdicts'[c[i].key.reportId])
    {
      assert c[i].key in MarkedKeys(c, verdicts');
      SameLatest(db.rows, after.rows, vesselId, schemaName, c[i].key);
    }
    RecordedPassIsSilent(after, c, verdicts', later);
  }

  ghost predicate ChangedOnlyMarked(db: Db, cut: Db, vesselId: string, schemaName: string, verdicts: Verdicts) {
    && cut.rows.Keys == db.rows.Keys
    && forall k :: k in db.rows
                   && (cut.rows[k] != db.rows[k] || LatestNotice(cut.notices, k) != LatestNotice(db.notices, k)) ==>
                     && IsLatest(db.rows, vesselId, schemaName, k) && db.rows[k].state.InChain()
                     && k.reportId in verdicts && cut.rows[k].(state := Invalidated)
                         == db.rows[k].(state := Invalidated)
  }

  lemma HealedRow(db: Db, cut: Db, healed: Db, straight: Db, vesselId: string, schemaName: string, verdicts: Verdicts,
                  k: RowKey)
    requires Settled(db, straight, vesselId, schemaName, verdicts)
    requires Settled(cut, healed, vesselId, schemaName, verdicts)
    requires SameChainData(db.rows, cut.rows)
    requires ChangedOnlyMarked(db, cut, vesselId, schemaName, verdicts)
    requires k in db.rows
    ensures k in healed.rows && k in straight.rows && healed.rows[k] == straight.rows[k]
    ensures forall n :: OnRecord(straight, k, n) ==> OnRecord(healed, k, n)
  {
    SameLatest(db.rows, cut.rows, vesselId, schemaName, k);
    assert k in cut.rows;
  }

  lemma HealedRows(db: Db, cut: Db, healed: Db, straight: Db, vesselId: string, schemaName: string, verdicts: Verdicts)
    requires Settled(db, straight, vesselId, schemaName, verdicts)
    requires Settled(cut, healed, vesselId, schemaName, verdicts)
    requires SameChainData(db.rows, cut.rows) && SameChainData(db.rows, straight.rows)
    requires SameChainData(cut.rows, healed.rows)
    requires ChangedOnlyMarked(db, cut, vesselId, schemaName, verdicts)
    ensures healed.rows == straight.rows
    ensures forall k, n :: k in db.rows && OnRecord(straight, k, n) ==> OnRecord(healed, k, n)
  {
    forall k | k in db.rows
      ensures healed.rows[k] == straight.rows[k]
      ensures forall n :: OnRecord(straight, k, n) ==> OnRecord(healed, k, n)
    {
      HealedRow(db, cut, healed, straight, vesselId, schemaName, verdicts, k);
    }
  }

  /** A pass that the store cut short, at any statement, is made good by the
      next complete one: rows end up as if the first had completed, and every
      marked report is on record with its rules. */
  lemma CutShortPassHeals(db: Db, vesselId: string, schemaName: string, cfg: Reports.Config, now: Instant,
                          later: Instant, budget: nat, cut: Db, healed: Db, straight: Db)
    requires DistinctCommittedTimes(db.rows, vesselId, schemaName)
    requires BoundedPass(db, vesselId, schemaName, cfg, now, budget, cut)
    requires CompletePass(cut, vesselId, schemaName, cfg, later, healed)
    requires CompletePass(db, vesselId, schemaName, cfg, now, straight)
    ensures healed.rows == straight.rows
    ensures forall k, n :: k in db.rows && OnRecord(straight, k, n) ==> OnRecord(healed, k, n)
  {
    PassOnlyInvalidates(db, vesselId, schemaName, cfg, now, budget, cut);
    var verdicts := PassSettles(db, vesselId, schemaName, cfg, now, straight);
    var verdicts' := PassSettles(cut, vesselId, schemaName, cfg, later, healed);
    VerdictsUnique(db.rows, cut.rows, vesselId, schemaName, cfg, verdicts, verdicts');
    CutRows(db, vesselId, schemaName, cfg, now, budget, cut, verdicts);
    HealedRows(db, cut, healed, straight, vesselId, schemaName, verdicts);
  }

  /** Rows a cut-short pass changed are marked ones. */
  lemma CutRows(db: Db, vesselId: string, schemaName: string, cfg: Reports.Config, now: Instant, budget: nat, cut: Db,
                verdicts: Verdicts)
    requires DistinctCommittedTimes(db.rows, vesselId, schemaName)
    requires BoundedPass(db, vesselId, schemaName, cfg, now, budget, cut)
    requires VerdictsOf(db.rows, vesselId, schemaName, cfg, verdicts)
    ensures ChangedOnlyMarked(db, cut, vesselId, schemaName, verdicts)
  {
    var chain, order :| IsChain(db.rows, vesselId, schemaName, chain)
                        && Chains.SortOf(order, Views(Committed(chain)))
                        && cut == AfterWrites(db, chain, order, cfg, now, budget);
    var verdicts' := Cascade.Verdicts(order, cfg);
    assert VerdictsOf(db.rows, vesselId, schemaName, cfg, verdicts');
    VerdictsUnique(db.rows, db.rows, vesselId, schemaName, cfg, verdicts, verdicts');
    PartOfPassOnlyInvalidates(db, vesselId, schemaName, cfg, now, budget, chain, order);
    MarkedAreCommitted(db, vesselId, schemaName, chain, verdicts');
  }
}
