// Landing pushed outbox items: each item is applied at most once per receipt,
// and every item gets its own acknowledgement.
module PushOutbox {
  import opened Prelude
  import Reports
  import opened Lifecycle
  import opened OfficeStore
  import opened OfficeCascade

  /** A decoded report version, as pushed. */
  datatype Landing = Landing(reportId: string, versionNo: int, row: Row)

  /** What an item carries; `None` stands for a message that does not decode. */
  datatype Payload =
    | ReportVersion(landing: Option<Landing>)
    | AuditEvent(event: Option<Event>)
    | Chat(message: ChatMessage)
    | Unrecognized

  datatype OutboxItem = OutboxItem(itemId: string, payload: Payload)

  datatype ItemAck = ItemAck(itemId: string, accepted: bool)

  /** Which store operations fail while an item is handled, and after how many
      statements the cascade is cut short. */
  datatype Faults = Faults(lookup: bool, land: bool, cascadeBudget: nat, receipt: bool)

  function KeyOf(vesselId: string, l: Landing): RowKey {
    RowKey(vesselId, l.reportId, l.versionNo)
  }

  function Upserted(db: Db, key: RowKey, row: Row): Db {
    db.(rows := db.rows[key := row])
  }

  /** Landing the payload takes `db` to `landed`, or is refused and changes nothing. */
  ghost predicate Lands(db: Db, vesselId: string, payload: Payload, cfg: Reports.Config, now: Instant, faults: Faults,
                        landed: Db, ok: bool)
  {
    match payload
    case ReportVersion(Some(l)) =>
      if faults.land then !ok && landed == db
      else
        && ok
        && BoundedPass(Upserted(db, KeyOf(vesselId, l), l.row), vesselId, l.row.schemaName, cfg, now,
                       faults.cascadeBudget, landed)
    case AuditEvent(Some(e)) =>
      if faults.land then !ok && landed == db
      else ok && landed == db.(audit := db.audit + [AuditRow(vesselId, e, FromVessel)])
    case Chat(m) =>
      if faults.land || m.id in db.chat then !ok && landed == db
      else ok && landed == db.(chat := db.chat[m.id := (vesselId, m)])
    case _ => !ok && landed == db
  }

  /** Handling one item takes `db` to `after` with this acknowledgement. */
  ghost predicate ItemStep(db: Db, vesselId: string, item: OutboxItem, cfg: Reports.Config, now: Instant,
                           faults: Faults, after: Db, ack: ItemAck)
  {
    && ack.itemId == item.itemId
    && if faults.lookup then after == db && !ack.accepted
       else if (vesselId, item.itemId) in db.receipts then after == db && ack.accepted
       else
         exists landed, ok ::
           && Lands(db, vesselId, item.payload, cfg, now, faults, landed, ok)
           && ack.accepted == (ok && !faults.receipt)
           && after == if ack.accepted then landed.(receipts := landed.receipts + {(vesselId, item.itemId)}) else landed
  }

  ghost predicate BatchStep(db: Db, vesselId: string, items: seq<OutboxItem>, cfg: Reports.Config, now: Instant,
                            faults: seq<Faults>, after: Db, acks: seq<ItemAck>)
    requires |faults| == |items|
    decreases |items|
  {
    && |acks| == |items|
    && if items == [] then after == db
       else
         var n := |items| - 1;
         exists mid ::
           && BatchStep(db, vesselId, items[..n], cfg, now, faults[..n], mid, acks[..n])
           && ItemStep(mid, vesselId, items[n], cfg, now, faults[n], after, acks[n])
  }

  method ApplyOutboxItem(st: Store, vesselId: string, item: OutboxItem, cfg: Reports.Config, now: Instant,
                         faults: Faults)
    returns (ack: ItemAck)
    modifies st
    ensures ItemStep(old(st.View()), vesselId, item, cfg, now, faults, st.View(), ack)
  {
    if faults.lookup { return ItemAck(item.itemId, false); }
    if (vesselId, item.itemId) in st.receipts { return ItemAck(item.itemId, true); }
    var ok := LandPayload(st, vesselId, item.payload, cfg, now, faults);
    if !ok || faults.receipt { return ItemAck(item.itemId, false); }
    st.RecordOutboxReceipt(vesselId, item.itemId);
    return ItemAck(item.itemId, true);
  }

  method LandPayload(st: Store, vesselId: string, payload: Payload, cfg: Reports.Config, now: Instant, faults: Faults)
    returns (ok: bool)
    modifies st
    ensures Lands(old(st.View()), vesselId, payload, cfg, now, faults, st.View(), ok)
  {
    match payload {
      case ReportVersion(Some(l)) =>
        if faults.land { return false; }
        st.UpsertReportVersion(KeyOf(vesselId, l), l.row);
        // A cascade failure does not reject an item that already landed.
        var _ := RunCascade(st, vesselId, l.row.schemaName, cfg, now, faults.cascadeBudget);
        return true;
      case AuditEvent(Some(e)) =>
        if faults.land { return false; }
        st.AppendReportAuditEvent(AuditRow(vesselId, e, FromVessel));
        return true;
      case Chat(m) =>
        if faults.land { return false; }
        ok := st.InsertChatMessage(vesselId, m);
      case _ => return false;
    }
  }

  method PushOutboxBatch(st: Store, vesselId: string, items: seq<OutboxItem>, cfg: Reports.Config, now: Instant,
                         faults: seq<Faults>)
    returns (acks: seq<ItemAck>)
    requires |faults| == |items|
    modifies st
    ensures BatchStep(old(st.View()), vesselId, items, cfg, now, faults, st.View(), acks)
  {
    acks := [];
    for i := 0 to |items|
      invariant |acks| == i
      invariant BatchStep(old(st.View()), vesselId, items[..i], cfg, now, faults[..i], st.View(), acks)
    {
      ghost var mid := st.View();
      var ack := ApplyOutboxItem(st, vesselId, items[i], cfg, now, faults[i]);
      BatchGrows(old(st.View()), vesselId, items, cfg, now, faults, i, mid, acks, st.View(), ack);
      acks := acks + [ack];
    }
    assert items[..|items|] == items && faults[..|items|] == faults;
  }

  lemma BatchGrows(db: Db, vesselId: string, items: seq<OutboxItem>, cfg: Reports.Config, now: Instant,
                   faults: seq<Faults>, i: nat, mid: Db, acks: seq<ItemAck>, after: Db, ack: ItemAck)
    requires |faults| == |items| && i < |items|
    requires BatchStep(db, vesselId, items[..i], cfg, now, faults[..i], mid, acks)
    requires ItemStep(mid, vesselId, items[i], cfg, now, faults[i], after, ack)
    ensures BatchStep(db, vesselId, items[..i + 1], cfg, now, faults[..i + 1], after, acks + [ack])
  {
    assert items[..i + 1][..i] == items[..i] && faults[..i + 1][..i] == faults[..i] && (acks + [ack])[..i] == acks;
  }
}
