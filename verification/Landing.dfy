// What the office has done once it accepts a pushed item: the version is in its
// place and its chain revalidated, the event or message stored; for one item
// and for whole batches.
module Landing {
  import opened Prelude
  import Reports
  import Chains
  import Cascade
  import Precheck
  import opened Lifecycle
  import opened OfficeStore
  import opened OfficeCascade
  import opened OfficeCascadeLaws
  import opened PushOutbox
  import opened PushOutboxLaws
  import opened Submission

  // ---- A budget that is always enough ----

  lemma {:induction false} DistinctKeysFit(chain: seq<Listed>, keys: set<RowKey>)
    requires forall i :: 0 <= i < |chain| ==> chain[i].key in keys
    requires forall i, j :: 0 <= i < j < |chain| ==> chain[i].key != chain[j].key
    ensures |chain| <= |keys|
    decreases |chain|
  {
    if chain != [] {
      var n := |chain| - 1;
      DistinctKeysFit(chain[..n], keys - {chain[n].key});
    }
  }

  lemma {:induction false} ThreeWritesEach(db: Db, committed: seq<Listed>, verdicts: Verdicts, now: Instant)
    ensures |PassWrites(db, committed, verdicts, now)| <= 3 * |committed|
  {
    if committed != [] { ThreeWritesEach(db, committed[..|committed| - 1], verdicts, now); }
  }

  lemma {:induction false} CommittedFit(chain: seq<Listed>)
    ensures |Committed(chain)| <= |chain|
  {
    if chain != [] { CommittedFit(chain[..|chain| - 1]); }
  }

  /** Three statements for each row are enough for any pass. */
  lemma EnoughIsComplete(db: Db, vesselId: string, schemaName: string, cfg: Reports.Config, now: Instant, budget: nat,
                         after: Db)
    requires BoundedPass(db, vesselId, schemaName, cfg, now, budget, after) && budget >= 3 * |db.rows|
    ensures CompletePass(db, vesselId, schemaName, cfg, now, after)
  {
    var chain, order :| IsChain(db.rows, vesselId, schemaName, chain)
                        && Chains.SortOf(order, Views(Committed(chain)))
                        && after == AfterWrites(db, chain, order, cfg, now, budget);
    DistinctKeysFit(chain, db.rows.Keys);
    CommittedFit(chain);
    ThreeWritesEach(db, Committed(chain), Cascade.Verdicts(order, cfg), now);
    var writes := PassWrites(db, Committed(chain), Cascade.Verdicts(order, cfg), now);
    assert |writes| == budget ==> writes[..budget] == writes;
    assert after == ApplyWrites(db, writes);
  }

  // ---- One item ----

  predicate Faultless(faults: Faults, rows: nat) {
    !faults.lookup && !faults.land && !faults.receipt && faults.cascadeBudget >= 3 * rows
  }

  /** The effects of the landing itself, receipt aside. */
  lemma Unfold(db: Db, vesselId: string, item: OutboxItem, cfg: Reports.Config, now: Instant, faults: Faults,
               after: Db, ack: ItemAck) returns (landed: Db, ok: bool)
    requires ItemStep(db, vesselId, item, cfg, now, faults, after, ack)
    requires !faults.lookup && (vesselId, item.itemId) !in db.receipts
    ensures Lands(db, vesselId, item.payload, cfg, now, faults, landed, ok)
    ensures ack.accepted == (ok && !faults.receipt)
    ensures after.rows == landed.rows && after.notices == landed.notices && after.audit == landed.audit
            && after.chat == landed.chat
  {
    landed, ok :| Lands(db, vesselId, item.payload, cfg, now, faults, landed, ok)
                  && ack.accepted == (ok && !faults.receipt)
                  && after == if ack.accepted then landed.(receipts := landed.receipts + {(vesselId, item.itemId)})
                              else landed;
  }

  /** A version, an event, or a message whose id is new. */
  predicate Storable(db: Db, payload: Payload) {
    match payload
    case ReportVersion(landing) => landing.Some?
    case AuditEvent(event) => event.Some?
    case Chat(m) => m.id !in db.chat
    case Unrecognized => false
  }

  /** An item is accepted exactly when it was before, or when nothing fails and
      it carries a version, an event, or a message whose id is new. */
  lemma AcceptedIff(db: Db, vesselId: string, item: OutboxItem, cfg: Reports.Config, now: Instant, faults: Faults,
                    after: Db, ack: ItemAck)
    requires ItemStep(db, vesselId, item, cfg, now, faults, after, ack)
    ensures ack.accepted <==>
              && !faults.lookup
              && ((vesselId, item.itemId) in db.receipts
                  || (!faults.land && !faults.receipt && Storable(db, item.payload)))
  {
    if !faults.lookup && (vesselId, item.itemId) !in db.receipts {
      var landed, ok := Unfold(db, vesselId, item, cfg, now, faults, after, ack);
    }
  }

  /** An accepted event or message is stored, once, and nothing else changes. */
  lemma AcceptedIsStored(db: Db, vesselId: string, item: OutboxItem, cfg: Reports.Config, now: Instant, faults: Faults,
                         after: Db, ack: ItemAck)
    requires ItemStep(db, vesselId, item, cfg, now, faults, after, ack)
    requires ack.accepted && (vesselId, item.itemId) !in db.receipts && !item.payload.ReportVersion?
    ensures after.receipts == db.receipts + {(vesselId, item.itemId)}
    ensures after.rows == db.rows && after.notices == db.notices
    ensures match item.payload
            case AuditEvent(event) =>
              event.Some? && after.audit == db.audit + [AuditRow(vesselId, event.value, FromVessel)]
              && after.chat == db.chat
            case Chat(m) =>
              m.id !in db.chat && after.chat == db.chat[m.id := (vesselId, m)] && after.audit == db.audit
            case _ => false
  {
    var landed, ok := Unfold(db, vesselId, item, cfg, now, faults, after, ack);
  }

  /** Every committed latest version of the schema that revalidation marks is
      invalidated, its newest notice listing its rules. */
  ghost predicate AllOnRecord(db: Db, vesselId: string, schemaName: string, verdicts: Verdicts) {
    forall k :: IsLatest(db.rows, vesselId, schemaName, k) && db.rows[k].state.InChain() && k.reportId in verdicts ==>
                  OnRecord(db, k, verdicts[k.reportId])
  }

  lemma SettledIsOnRecord(before: Db, after: Db, vesselId: string, schemaName: string, verdicts: Verdicts)
    requires Settled(before, after, vesselId, schemaName, verdicts) && SameChainData(before.rows, after.rows)
    ensures AllOnRecord(after, vesselId, schemaName, verdicts)
  {
    forall k | IsLatest(after.rows, vesselId, schemaName, k) && after.rows[k].state.InChain() && k.reportId in verdicts
      ensures OnRecord(after, k, verdicts[k.reportId])
    {
      SameLatest(before.rows, after.rows, vesselId, schemaName, k);
    }
  }

  /** The same chain read from the other table. */
  function Relisted(chain: seq<Listed>, rows: map<RowKey, Row>): seq<Listed>
    requires forall i :: 0 <= i < |chain| ==> chain[i].key in rows
  {
    seq(|chain|, i requires 0 <= i < |chain| => Listed(chain[i].key, rows[chain[i].key]))
  }

  lemma RelistedIsChain(a: map<RowKey, Row>, b: map<RowKey, Row>, vesselId: string, schemaName: string,
                        chain: seq<Listed>)
    requires SameChainData(a, b) && IsChain(a, vesselId, schemaName, chain)
    ensures IsChain(b, vesselId, schemaName, Relisted(chain, b))
  {
    var other := Relisted(chain, b);
    forall k ensures IsLatest(a, vesselId, schemaName, k) <==> IsLatest(b, vesselId, schemaName, k) {
      SameLatest(a, b, vesselId, schemaName, k);
    }
    forall k | IsLatest(b, vesselId, schemaName, k) ensures exists i :: 0 <= i < |other| && other[i].key == k {
      var i :| 0 <= i < |chain| && chain[i].key == k;
      assert other[i].key == k;
    }
  }

  /** Tables that differ in committed states alone have the same verdicts. */
  lemma VerdictsCarryOver(a: map<RowKey, Row>, b: map<RowKey, Row>, vesselId: string, schemaName: string,
                          cfg: Reports.Config, verdicts: Verdicts)
    requires SameChainData(a, b) && VerdictsOf(a, vesselId, schemaName, cfg, verdicts)
    ensures VerdictsOf(b, vesselId, schemaName, cfg, verdicts)
  {
    var chain, order :| IsChain(a, vesselId, schemaName, chain)
                        && Chains.SortOf(order, Views(Committed(chain)))
                        && verdicts == Cascade.Verdicts(order, cfg);
    RelistedIsChain(a, b, vesselId, schemaName, chain);
    SameViews(a, b, vesselId, schemaName, chain, Relisted(chain, b));
    assert Chains.SortOf(order, Views(Committed(Relisted(chain, b))));
  }

  /** A pushed version that meets no failure is accepted; it is in its place,
      its whole chain is revalidated with it, and every version that breaks a rule
      is invalidated and noticed, no other changed. */
  lemma PushedVersionSettles(db: Db, vesselId: string, item: OutboxItem, l: Landing, cfg: Reports.Config, now: Instant,
                             faults: Faults, after: Db, ack: ItemAck) returns (verdicts: Verdicts)
    requires ItemStep(db, vesselId, item, cfg, now, faults, after, ack)
    requires item.payload == ReportVersion(Some(l)) && (vesselId, item.itemId) !in db.receipts
    requires Faultless(faults, |db.rows| + 1)
    ensures ack.accepted
    ensures VerdictsOf(after.rows, vesselId, l.row.schemaName, cfg, verdicts)
    ensures AllOnRecord(after, vesselId, l.row.schemaName, verdicts)
    ensures Settled(Upserted(db, KeyOf(vesselId, l), l.row), after, vesselId, l.row.schemaName, verdicts)
  {
    var landed, ok := Unfold(db, vesselId, item, cfg, now, faults, after, ack);
    var put := Upserted(db, KeyOf(vesselId, l), l.row);
    OneMoreRow(db, KeyOf(vesselId, l), l.row);
    EnoughIsComplete(put, vesselId, l.row.schemaName, cfg, now, faults.cascadeBudget, landed);
    verdicts := PassSettles(put, vesselId, l.row.schemaName, cfg, now, landed);
    VerdictsCarryOver(put.rows, landed.rows, vesselId, l.row.schemaName, cfg, verdicts);
    SettledAlike(put, landed, after, vesselId, l.row.schemaName, verdicts);
    SettledIsOnRecord(put, after, vesselId, l.row.schemaName, verdicts);
  }

  lemma OneMoreRow(db: Db, key: RowKey, row: Row)
    ensures |Upserted(db, key, row).rows| <= |db.rows| + 1
  {
    var rows := db.rows[key := row];
    assert rows.Keys == db.rows.Keys + {key};
    assert |rows| == |rows.Keys| && |db.rows| == |db.rows.Keys|;
  }

  lemma SettledAlike(before: Db, a: Db, b: Db, vesselId: string, schemaName: string, verdicts: Verdicts)
    requires Settled(before, a, vesselId, schemaName, verdicts) && a.rows == b.rows && a.notices == b.notices
    ensures Settled(before, b, vesselId, schemaName, verdicts)
  {
  }

  /** Pushed without failures, the version stays as pushed exactly when the check
      before submitting, against the chain the office holds, finds no error. */
  lemma PushedVersionSurvivesIff(db: Db, vesselId: string, item: OutboxItem, l: Landing, chain: seq<Reports.Report>,
                                 cfg: Reports.Config, now: Instant, faults: Faults, after: Db, ack: ItemAck)
    requires ItemStep(db, vesselId, item, cfg, now, faults, after, ack)
    requires item.payload == ReportVersion(Some(l)) && (vesselId, item.itemId) !in db.receipts
    requires Faultless(faults, |db.rows| + 1) && l.row.state != Invalidated
    requires var key := KeyOf(vesselId, l);
             && LandsOnTop(db.rows, key, l.row) && ListsCommitted(db.rows, vesselId, l.row.schemaName, chain)
             && Chains.DistinctTimesUpTo(Precheck.Merged(ViewOf(key, l.row), chain), l.row.eventTime)
    ensures ack.accepted && KeyOf(vesselId, l) in after.rows
    ensures after.rows[KeyOf(vesselId, l)] == l.row <==>
            !Reports.HasErrors(Precheck.PrecheckFindings(ViewOf(KeyOf(vesselId, l), l.row), chain, cfg))
  {
    var key := KeyOf(vesselId, l);
    var landed, ok := Unfold(db, vesselId, item, cfg, now, faults, after, ack);
    OneMoreRow(db, key, l.row);
    EnoughIsComplete(Upserted(db, key, l.row), vesselId, l.row.schemaName, cfg, now, faults.cascadeBudget, landed);
    SurvivesLandingIff(db, key, l.row, chain, cfg, now, landed);
  }

  // ---- Batches ----

  /** Item `n` of a batch is handled in some state the items before it left. */
  lemma {:induction false} BatchItem(db: Db, vesselId: string, items: seq<OutboxItem>, cfg: Reports.Config,
                                     now: Instant, faults: seq<Faults>, after: Db, acks: seq<ItemAck>, n: nat)
    returns (mid: Db, next: Db)
    requires |faults| == |items| && BatchStep(db, vesselId, items, cfg, now, faults, after, acks) && n < |items|
    ensures BatchStep(db, vesselId, items[..n], cfg, now, faults[..n], mid, acks[..n])
    ensures ItemStep(mid, vesselId, items[n], cfg, now, faults[n], next, acks[n])
    ensures n == |items| - 1 ==> next == after
    ensures (forall m :: n < m < |items| ==> !items[m].payload.ReportVersion?) ==>
              after.rows == next.rows && after.notices == next.notices
    decreases |items|
  {
    var k := |items| - 1;
    var last :| BatchStep(db, vesselId, items[..k], cfg, now, faults[..k], last, acks[..k])
                && ItemStep(last, vesselId, items[k], cfg, now, faults[k], after, acks[k]);
    if n == k {
      mid, next := last, after;
    } else {
      mid, next := BatchItem(db, vesselId, items[..k], cfg, now, faults[..k], last, acks[..k], n);
      assert items[..k][..n] == items[..n] && faults[..k][..n] == faults[..n] && acks[..k][..n] == acks[..n];
      if !items[k].payload.ReportVersion? {
        OtherItemKeepsRows(last, vesselId, items[k], cfg, now, faults[k], after, acks[k]);
      }
    }
  }

  lemma OtherItemKeepsRows(db: Db, vesselId: string, item: OutboxItem, cfg: Reports.Config, now: Instant,
                           faults: Faults, after: Db, ack: ItemAck)
    requires ItemStep(db, vesselId, item, cfg, now, faults, after, ack) && !item.payload.ReportVersion?
    ensures after.rows == db.rows && after.notices == db.notices
  {
    if !faults.lookup && (vesselId, item.itemId) !in db.receipts {
      var landed, ok := Unfold(db, vesselId, item, cfg, now, faults, after, ack);
    }
  }

  /** One item's failure or refusal is its own: any other item of the batch that
      carries a version or an event and meets no failure is accepted. */
  lemma GoodItemsAreAccepted(db: Db, vesselId: string, items: seq<OutboxItem>, cfg: Reports.Config, now: Instant,
                             faults: seq<Faults>, after: Db, acks: seq<ItemAck>, n: nat)
    requires |faults| == |items| && BatchStep(db, vesselId, items, cfg, now, faults, after, acks) && n < |items|
    requires !faults[n].lookup && !faults[n].land && !faults[n].receipt
    requires match items[n].payload
             case ReportVersion(landing) => landing.Some?
             case AuditEvent(event) => event.Some?
             case _ => false
    ensures acks[n] == ItemAck(items[n].itemId, true)
  {
    var mid, next := BatchItem(db, vesselId, items, cfg, now, faults, after, acks, n);
    AcceptedIff(mid, vesselId, items[n], cfg, now, faults[n], next, acks[n]);
  }

  lemma ItemAddsOneRow(db: Db, vesselId: string, item: OutboxItem, cfg: Reports.Config, now: Instant, faults: Faults,
                       after: Db, ack: ItemAck)
    requires ItemStep(db, vesselId, item, cfg, now, faults, after, ack)
    ensures |after.rows| <= |db.rows| + 1
  {
    if !item.payload.ReportVersion? {
      OtherItemKeepsRows(db, vesselId, item, cfg, now, faults, after, ack);
    } else if !faults.lookup && (vesselId, item.itemId) !in db.receipts {
      var landed, ok := Unfold(db, vesselId, item, cfg, now, faults, after, ack);
      if item.payload.landing.Some? && !faults.land {
        var l := item.payload.landing.value;
        OneMoreRow(db, KeyOf(vesselId, l), l.row);
        PassOnlyInvalidates(Upserted(db, KeyOf(vesselId, l), l.row), vesselId, l.row.schemaName, cfg, now,
                            faults.cascadeBudget, landed);
        assert landed.rows.Keys == Upserted(db, KeyOf(vesselId, l), l.row).rows.Keys;
        assert |landed.rows| == |landed.rows.Keys|;
        assert |Upserted(db, KeyOf(vesselId, l), l.row).rows| == |Upserted(db, KeyOf(vesselId, l), l.row).rows.Keys|;
      }
    }
  }

  lemma {:induction false} BatchBounds(db: Db, vesselId: string, items: seq<OutboxItem>, cfg: Reports.Config,
                                       now: Instant, faults: seq<Faults>, after: Db, acks: seq<ItemAck>)
    requires |faults| == |items| && BatchStep(db, vesselId, items, cfg, now, faults, after, acks)
    ensures |after.rows| <= |db.rows| + |items|
    ensures forall id :: (vesselId, id) in after.receipts ==>
              (vesselId, id) in db.receipts || exists i :: 0 <= i < |items| && items[i].itemId == id
    decreases |items|
  {
    if items != [] {
      var n := |items| - 1;
      var mid :| BatchStep(db, vesselId, items[..n], cfg, now, faults[..n], mid, acks[..n])
                 && ItemStep(mid, vesselId, items[n], cfg, now, faults[n], after, acks[n]);
      BatchBounds(db, vesselId, items[..n], cfg, now, faults[..n], mid, acks[..n]);
      ItemAddsOneRow(mid, vesselId, items[n], cfg, now, faults[n], after, acks[n]);
      ItemReceipts(mid, vesselId, items[n], cfg, now, faults[n], after, acks[n]);
      forall id | (vesselId, id) in after.receipts && (vesselId, id) !in db.receipts
        ensures exists i :: 0 <= i < |items| && items[i].itemId == id
      {
        if (vesselId, id) in mid.receipts {
          var i :| 0 <= i < n && items[..n][i].itemId == id;
          assert items[i].itemId == id;
        }
      }
    }
  }

  /** After a whole batch, whatever else it carries and whatever fails for its
      other items: the chain of the last version in it, if that met no failure
      itself, is revalidated as the table then stands, and every version that
      breaks a rule is invalidated and noticed. */
  lemma BatchSettles(db: Db, vesselId: string, items: seq<OutboxItem>, cfg: Reports.Config, now: Instant,
                     faults: seq<Faults>, after: Db, acks: seq<ItemAck>, n: nat, l: Landing)
    returns (verdicts: Verdicts)
    requires |faults| == |items| && BatchStep(db, vesselId, items, cfg, now, faults, after, acks) && n < |items|
    requires items[n].payload == ReportVersion(Some(l))
    requires forall m :: n < m < |items| ==> !items[m].payload.ReportVersion?
    requires (vesselId, items[n].itemId) !in db.receipts
    requires forall m :: 0 <= m < n ==> items[m].itemId != items[n].itemId
    requires Faultless(faults[n], |db.rows| + n + 1)
    ensures acks[n].accepted
    ensures VerdictsOf(after.rows, vesselId, l.row.schemaName, cfg, verdicts)
    ensures AllOnRecord(after, vesselId, l.row.schemaName, verdicts)
  {
    var mid, next := BatchItem(db, vesselId, items, cfg, now, faults, after, acks, n);
    BatchBounds(db, vesselId, items[..n], cfg, now, faults[..n], mid, acks[..n]);
    verdicts := PushedVersionSettles(mid, vesselId, items[n], l, cfg, now, faults[n], next, acks[n]);
  }
}
