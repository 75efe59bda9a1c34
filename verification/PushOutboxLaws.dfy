// Retransmission: what a receipt protects, what happens without one, and what
// each kind of item does when only its receipt failed to be written.
module PushOutboxLaws {
  import opened Prelude
  import Reports
  import Chains
  import Cascade
  import opened Lifecycle
  import opened OfficeStore
  import opened OfficeCascade
  import opened OfficeCascadeLaws
  import opened PushOutbox

  // ---- Receipts ----

  lemma LandingKeepsReceipts(db: Db, vesselId: string, payload: Payload, cfg: Reports.Config, now: Instant,
                             faults: Faults, landed: Db, ok: bool)
    requires Lands(db, vesselId, payload, cfg, now, faults, landed, ok)
    ensures landed.receipts == db.receipts
    ensures db.chat.Keys <= landed.chat.Keys
  {
    if payload.ReportVersion? && payload.landing.Some? && !faults.land {
      var l := payload.landing.value;
      PassOnlyInvalidates(Upserted(db, KeyOf(vesselId, l), l.row), vesselId, l.row.schemaName, cfg, now,
                          faults.cascadeBudget, landed);
    }
  }

  /** An accepted item has its receipt on record; receipts are never lost; and
      an item whose receipt is on record changes nothing when sent again. */
  lemma ItemReceipts(db: Db, vesselId: string, item: OutboxItem, cfg: Reports.Config, now: Instant, faults: Faults,
                     after: Db, ack: ItemAck)
    requires ItemStep(db, vesselId, item, cfg, now, faults, after, ack)
    ensures ack.accepted ==> (vesselId, item.itemId) in after.receipts
    ensures db.receipts <= after.receipts <= db.receipts + {(vesselId, item.itemId)}
    ensures (vesselId, item.itemId) in db.receipts ==> after == db && (ack.accepted <==> !faults.lookup)
  {
    if !faults.lookup && (vesselId, item.itemId) !in db.receipts {
      var landed, ok :| Lands(db, vesselId, item.payload, cfg, now, faults, landed, ok)
                        && ack.accepted == (ok && !faults.receipt)
                        && after == if ack.accepted
                                    then landed.(receipts := landed.receipts + {(vesselId, item.itemId)})
                                    else landed;
      LandingKeepsReceipts(db, vesselId, item.payload, cfg, now, faults, landed, ok);
    }
  }

  /** Steps of the office between pushes and within them. */
  datatype Step =
    | Push(vesselId: string, items: seq<OutboxItem>, cfg: Reports.Config, now: Instant, faults: seq<Faults>)
    | RemarkVersion(key: RowKey, event: Event)

  ghost predicate StepTo(db: Db, step: Step, after: Db, acks: seq<ItemAck>) {
    match step
    case Push(vesselId, items, cfg, now, faults) =>
      |faults| == |items| && BatchStep(db, vesselId, items, cfg, now, faults, after, acks)
    case RemarkVersion(key, event) =>
      && acks == []
      && key in db.rows && db.rows[key].state.InChain()
      && after == db.(rows := db.rows[key := db.rows[key].(state := Remarked)],
                      audit := db.audit + [AuditRow(key.vesselId, event, FromOffice)])
  }

  lemma {:induction false} BatchReceipts(db: Db, vesselId: string, items: seq<OutboxItem>, cfg: Reports.Config,
                                         now: Instant, faults: seq<Faults>, after: Db, acks: seq<ItemAck>)
    requires |faults| == |items| && BatchStep(db, vesselId, items, cfg, now, faults, after, acks)
    ensures db.receipts <= after.receipts
    ensures forall i :: 0 <= i < |items| ==>
                          acks[i].itemId == items[i].itemId
                          && (acks[i].accepted ==> (vesselId, items[i].itemId) in after.receipts)
    decreases |items|
  {
    if items != [] {
      var n := |items| - 1;
      var mid :| BatchStep(db, vesselId, items[..n], cfg, now, faults[..n], mid, acks[..n])
                 && ItemStep(mid, vesselId, items[n], cfg, now, faults[n], after, acks[n]);
      BatchReceipts(db, vesselId, items[..n], cfg, now, faults[..n], mid, acks[..n]);
      ItemReceipts(mid, vesselId, items[n], cfg, now, faults[n], after, acks[n]);
      forall i | 0 <= i < n
        ensures acks[i].itemId == items[i].itemId
        ensures acks[i].accepted ==> (vesselId, items[i].itemId) in after.receipts
      {
        assert items[..n][i] == items[i] && acks[..n][i] == acks[i];
      }
    }
  }

  /** How many of the items have none of these ids. */
  function Others(items: seq<OutboxItem>, ids: set<string>): nat {
    if items == [] then 0
    else Others(items[..|items| - 1], ids) + if items[|items| - 1].itemId in ids then 0 else 1
  }

  /** The entries of `xs` that belong to items with none of these ids. */
  function Without<T>(items: seq<OutboxItem>, xs: seq<T>, ids: set<string>): (kept: seq<T>)
    requires |xs| == |items|
    ensures |kept| == Others(items, ids)
    decreases |items|
  {
    if items == [] then []
    else
      var n := |items| - 1;
      Without(items[..n], xs[..n], ids) + if items[n].itemId in ids then [] else [xs[n]]
  }

  lemma {:induction false} WithoutMembers(items: seq<OutboxItem>, ids: set<string>)
    ensures forall item :: item in Without(items, items, ids) <==> item in items && item.itemId !in ids
    decreases |items|
  {
    if items != [] {
      WithoutMembers(items[..|items| - 1], ids);
      assert forall item :: item in items <==> item in items[..|items| - 1] || item == items[|items| - 1];
    }
  }

  /** A batch has the effect of the batch without the items received before,
      and its other items get the same answers. */
  lemma {:induction false} ReceivedItemsDropOut(db: Db, vesselId: string, items: seq<OutboxItem>, cfg: Reports.Config,
                                                now: Instant, faults: seq<Faults>, after: Db, acks: seq<ItemAck>,
                                                ids: set<string>)
    requires |faults| == |items| && BatchStep(db, vesselId, items, cfg, now, faults, after, acks)
    requires forall id :: id in ids ==> (vesselId, id) in db.receipts
    ensures BatchStep(db, vesselId, Without(items, items, ids), cfg, now, Without(items, faults, ids), after,
                      Without(items, acks, ids))
    decreases |items|
  {
    if items != [] {
      var n := |items| - 1;
      var mid :| BatchStep(db, vesselId, items[..n], cfg, now, faults[..n], mid, acks[..n])
                 && ItemStep(mid, vesselId, items[n], cfg, now, faults[n], after, acks[n]);
      ReceivedItemsDropOut(db, vesselId, items[..n], cfg, now, faults[..n], mid, acks[..n], ids);
      BatchReceipts(db, vesselId, items[..n], cfg, now, faults[..n], mid, acks[..n]);
      if items[n].itemId in ids {
        ItemReceipts(mid, vesselId, items[n], cfg, now, faults[n], after, acks[n]);
        assert Without(items, items, ids) == Without(items[..n], items[..n], ids);
        assert Without(items, faults, ids) == Without(items[..n], faults[..n], ids);
        assert Without(items, acks, ids) == Without(items[..n], acks[..n], ids);
      } else {
        BatchExtended(db, vesselId, Without(items[..n], items[..n], ids), items[n], cfg, now,
                      Without(items[..n], faults[..n], ids), faults[n], mid, Without(items[..n], acks[..n], ids), after,
                      acks[n]);
      }
    }
  }

  lemma BatchExtended(db: Db, vesselId: string, items: seq<OutboxItem>, item: OutboxItem, cfg: Reports.Config,
                      now: Instant, faults: seq<Faults>, fault: Faults, mid: Db, acks: seq<ItemAck>, after: Db,
                      ack: ItemAck)
    requires |faults| == |items| && BatchStep(db, vesselId, items, cfg, now, faults, mid, acks)
    requires ItemStep(mid, vesselId, item, cfg, now, fault, after, ack)
    ensures BatchStep(db, vesselId, items + [item], cfg, now, faults + [fault], after, acks + [ack])
  {
    assert (items + [item])[..|items|] == items && (faults + [fault])[..|items|] == faults;
    assert (acks + [ack])[..|items|] == acks;
  }

  /** States along a run: `dbs[i + 1]` follows from `dbs[i]` by `steps[i]`. */
  ghost predicate Run(dbs: seq<Db>, steps: seq<Step>, acks: seq<seq<ItemAck>>) {
    && |dbs| == |steps| + 1 && |acks| == |steps|
    && forall i :: 0 <= i < |steps| ==> StepTo(dbs[i], steps[i], dbs[i + 1], acks[i])
  }

  lemma {:induction false} ReceiptsStay(dbs: seq<Db>, steps: seq<Step>, acks: seq<seq<ItemAck>>, i: nat, j: nat)
    requires Run(dbs, steps, acks) && i <= j <= |steps|
    ensures dbs[i].receipts <= dbs[j].receipts
    decreases j - i
  {
    if i < j {
      ReceiptsStay(dbs, steps, acks, i, j - 1);
      assert StepTo(dbs[j - 1], steps[j - 1], dbs[j], acks[j - 1]);
      if steps[j - 1].Push? {
        var s := steps[j - 1];
        BatchReceipts(dbs[j - 1], s.vesselId, s.items, s.cfg, s.now, s.faults, dbs[j], acks[j - 1]);
      }
    }
  }

  ghost predicate Accepted(steps: seq<Step>, acks: seq<seq<ItemAck>>, i: nat, n: int, vesselId: string, itemId: string)
    requires |acks| == |steps|
  {
    && i < |steps| && steps[i].Push? && steps[i].vesselId == vesselId
    && 0 <= n < |steps[i].items| && n < |acks[i]|
    && steps[i].items[n].itemId == itemId && acks[i][n].accepted
  }

  /** Some push before step `j` had the item acknowledged as accepted, whether or not the vessel ever heard of it. */
  ghost predicate AcceptedBefore(steps: seq<Step>, acks: seq<seq<ItemAck>>, j: nat, vesselId: string, itemId: string)
    requires |acks| == |steps|
  {
    exists i, n :: 0 <= i < j && Accepted(steps, acks, i, n, vesselId, itemId)
  }

  ghost function ResentIds(steps: seq<Step>, acks: seq<seq<ItemAck>>, j: nat): set<string>
    requires |acks| == |steps| && j < |steps| && steps[j].Push?
  {
    set m | 0 <= m < |steps[j].items| && AcceptedBefore(steps, acks, j, steps[j].vesselId, steps[j].items[m].itemId)
      :: steps[j].items[m].itemId
  }

  /** The step with the items accepted earlier taken out. */
  ghost function FreshStep(steps: seq<Step>, acks: seq<seq<ItemAck>>, j: nat): Step
    requires |acks| == |steps| && j < |steps|
  {
    match steps[j]
    case Push(vesselId, items, cfg, now, faults) =>
      if |faults| != |items| then steps[j]
      else
        var ids := ResentIds(steps, acks, j);
        Push(vesselId, Without(items, items, ids), cfg, now, Without(items, faults, ids))
    case RemarkVersion(_, _) => steps[j]
  }

  ghost function FreshAcks(steps: seq<Step>, acks: seq<seq<ItemAck>>, j: nat): seq<ItemAck>
    requires |acks| == |steps| && j < |steps|
  {
    if steps[j].Push? && |acks[j]| == |steps[j].items|
    then Without(steps[j].items, acks[j], ResentIds(steps, acks, j)) else acks[j]
  }

  ghost function FreshSteps(steps: seq<Step>, acks: seq<seq<ItemAck>>): seq<Step>
    requires |acks| == |steps|
  {
    seq(|steps|, j requires 0 <= j < |steps| => FreshStep(steps, acks, j))
  }

  ghost function FreshAnswers(steps: seq<Step>, acks: seq<seq<ItemAck>>): seq<seq<ItemAck>>
    requires |acks| == |steps|
  {
    seq(|steps|, j requires 0 <= j < |steps| => FreshAcks(steps, acks, j))
  }

  lemma ResentHaveReceipts(dbs: seq<Db>, steps: seq<Step>, acks: seq<seq<ItemAck>>, j: nat)
    requires Run(dbs, steps, acks) && j < |steps| && steps[j].Push?
    ensures forall id :: id in ResentIds(steps, acks, j) ==> (steps[j].vesselId, id) in dbs[j].receipts
  {
    forall id | id in ResentIds(steps, acks, j) ensures (steps[j].vesselId, id) in dbs[j].receipts {
      var i, n :| 0 <= i < j && Accepted(steps, acks, i, n, steps[j].vesselId, id);
      assert StepTo(dbs[i], steps[i], dbs[i + 1], acks[i]);
      BatchReceipts(dbs[i], steps[i].vesselId, steps[i].items, steps[i].cfg, steps[i].now, steps[i].faults, dbs[i + 1],
                    acks[i]);
      ReceiptsStay(dbs, steps, acks, i + 1, j);
    }
  }

  /** In any run of pushes, lost acknowledgements, retransmissions of the whole
      queue, failures and remarks, every item accepted once could be left out of
      all later pushes: the run without those resends goes through the very
      same states. No later push then carries an item accepted before it. */
  lemma AcceptedItemsAreNeverReapplied(dbs: seq<Db>, steps: seq<Step>, acks: seq<seq<ItemAck>>)
    requires Run(dbs, steps, acks)
    ensures Run(dbs, FreshSteps(steps, acks), FreshAnswers(steps, acks))
    ensures forall j, item :: 0 <= j < |steps| && steps[j].Push? && item in FreshSteps(steps, acks)[j].items ==>
              item in steps[j].items && !AcceptedBefore(steps, acks, j, steps[j].vesselId, item.itemId)
  {
    forall j | 0 <= j < |steps|
      ensures StepTo(dbs[j], FreshStep(steps, acks, j), dbs[j + 1], FreshAcks(steps, acks, j))
      ensures steps[j].Push? ==>
                forall item :: item in FreshStep(steps, acks, j).items ==>
                  item in steps[j].items && !AcceptedBefore(steps, acks, j, steps[j].vesselId, item.itemId)
    {
      assert StepTo(dbs[j], steps[j], dbs[j + 1], acks[j]);
      if steps[j].Push? { FreshPush(dbs, steps, acks, j); }
    }
  }

  lemma FreshPush(dbs: seq<Db>, steps: seq<Step>, acks: seq<seq<ItemAck>>, j: nat)
    requires Run(dbs, steps, acks) && j < |steps| && steps[j].Push?
    ensures StepTo(dbs[j], FreshStep(steps, acks, j), dbs[j + 1], FreshAcks(steps, acks, j))
    ensures forall item :: item in FreshStep(steps, acks, j).items ==>
              item in steps[j].items && !AcceptedBefore(steps, acks, j, steps[j].vesselId, item.itemId)
  {
    var s, ids := steps[j], ResentIds(steps, acks, j);
    assert StepTo(dbs[j], s, dbs[j + 1], acks[j]);
    ResentHaveReceipts(dbs, steps, acks, j);
    ReceivedItemsDropOut(dbs[j], s.vesselId, s.items, s.cfg, s.now, s.faults, dbs[j + 1], acks[j], ids);
    WithoutMembers(s.items, ids);
    forall item | item in s.items && item.itemId !in ids
        ensures !AcceptedBefore(steps, acks, j, s.vesselId, item.itemId) {
      var m :| 0 <= m < |s.items| && s.items[m] == item;
    }
  }

  // ---- Landing again without a receipt ----

  /** Landing a version, whatever then fails, and landing it again completely
      leaves the rows as one complete landing would have. */
  lemma RelandingRestoresRows(db: Db, vesselId: string, key: RowKey, row: Row, cfg: Reports.Config, now: Instant,
                              later: Instant, budget: nat, first: Db, second: Db, straight: Db)
    requires var landed := Upserted(db, key, row);
             && DistinctCommittedTimes(landed.rows, vesselId, row.schemaName)
             && BoundedPass(landed, vesselId, row.schemaName, cfg, now, budget, first)
             && CompletePass(landed, vesselId, row.schemaName, cfg, now, straight)
    requires CompletePass(Upserted(first, key, row), vesselId, row.schemaName, cfg, later, second)
    ensures second.rows == straight.rows
  {
    var landed, again := Upserted(db, key, row), Upserted(first, key, row);
    PassOnlyInvalidates(landed, vesselId, row.schemaName, cfg, now, budget, first);
    var v := PassSettles(landed, vesselId, row.schemaName, cfg, now, straight);
    var v' := PassSettles(again, vesselId, row.schemaName, cfg, later, second);
    ResetRow(landed.rows, first.rows, key, row);
    VerdictsUnique(landed.rows, again.rows, vesselId, row.schemaName, cfg, v, v');
    CutRows(landed, vesselId, row.schemaName, cfg, now, budget, first, v);
    SameRowsSettled(landed, again, straight, second, vesselId, row.schemaName, v, first);
  }

  /** Putting the landed row back keeps the chain's data. */
  lemma ResetRow(landed: map<RowKey, Row>, first: map<RowKey, Row>, key: RowKey, row: Row)
    requires SameChainData(landed, first) && key in landed && landed[key] == row
    ensures SameChainData(landed, first[key := row])
    ensures forall k :: k in first[key := row] ==> first[key := row][k] == landed[k] || first[key := row][k] == first[k]
  {
  }

  lemma SameRowsSettled(landed: Db, again: Db, straight: Db, second: Db, vesselId: string, schemaName: string,
                        verdicts: Verdicts, first: Db)
    requires SameChainData(landed.rows, again.rows)
    requires SameChainData(landed.rows, straight.rows) && SameChainData(again.rows, second.rows)
    requires Settled(landed, straight, vesselId, schemaName, verdicts)
    requires Settled(again, second, vesselId, schemaName, verdicts)
    requires ChangedOnlyMarked(landed, first, vesselId, schemaName, verdicts)
    requires forall k :: k in again.rows ==> again.rows[k] == landed.rows[k] || again.rows[k] == first.rows[k]
    ensures second.rows == straight.rows
  {
    forall k | k in landed.rows ensures second.rows[k] == straight.rows[k] {
      SameLatest(landed.rows, again.rows, vesselId, schemaName, k);
      assert k in again.rows;
    }
  }

  /** The landed version is marked by its own landing, and was pushed in a state other than invalidated. */
  ghost predicate FlippedByLanding(landed: Db, vesselId: string, key: RowKey, row: Row, verdicts: Verdicts) {
    && IsLatest(landed.rows, vesselId, row.schemaName, key) && row.state.InChain() && key.reportId in verdicts
    && row.state != Invalidated
  }

  /** A second complete landing is harmless to notices and audit trail exactly
      when the version was not flipped to invalidated by its own landing;
      otherwise it leaves a second notice for the vessel to pull. */
  lemma RelandingIsSilentIff(db: Db, vesselId: string, key: RowKey, row: Row, cfg: Reports.Config, now: Instant,
                             later: Instant, verdicts: Verdicts, first: Db, second: Db)
    requires var landed := Upserted(db, key, row);
             && DistinctCommittedTimes(landed.rows, vesselId, row.schemaName)
             && VerdictsOf(landed.rows, vesselId, row.schemaName, cfg, verdicts)
             && CompletePass(landed, vesselId, row.schemaName, cfg, now, first)
    requires CompletePass(Upserted(first, key, row), vesselId, row.schemaName, cfg, later, second)
    ensures second == first <==> !FlippedByLanding(Upserted(db, key, row), vesselId, key, row, verdicts)
    ensures FlippedByLanding(Upserted(db, key, row), vesselId, key, row, verdicts) ==>
              |second.notices| > |first.notices| && second.rows == first.rows
  {
    var landed := Upserted(db, key, row);
    if FlippedByLanding(landed, vesselId, key, row, verdicts) {
      FlippedRelanding(landed, vesselId, key, row, cfg, now, later, verdicts, first, second);
      FirstIsBounded(landed, vesselId, row.schemaName, cfg, now, first);
      var budget: nat :| BoundedPass(landed, vesselId, row.schemaName, cfg, now, budget, first);
      RelandingRestoresRows(db, vesselId, key, row, cfg, now, later, budget, first, second, first);
    } else {
      UnflippedRelanding(landed, vesselId, key, row, cfg, now, later, verdicts, first, second);
    }
  }

  lemma UnflippedRelanding(landed: Db, vesselId: string, key: RowKey, row: Row, cfg: Reports.Config, now: Instant,
                           later: Instant, verdicts: Verdicts, first: Db, second: Db)
    requires key in landed.rows && landed.rows[key] == row
    requires DistinctCommittedTimes(landed.rows, vesselId, row.schemaName)
    requires VerdictsOf(landed.rows, vesselId, row.schemaName, cfg, verdicts)
    requires CompletePass(landed, vesselId, row.schemaName, cfg, now, first)
    requires CompletePass(Upserted(first, key, row), vesselId, row.schemaName, cfg, later, second)
    requires !FlippedByLanding(landed, vesselId, key, row, verdicts)
    ensures second == first
  {
    var v := PassSettles(landed, vesselId, row.schemaName, cfg, now, first);
    VerdictsUnique(landed.rows, landed.rows, vesselId, row.schemaName, cfg, v, verdicts);
    UnflippedKeepsRow(landed, first, vesselId, key, row, v);
    SecondPassIsSilent(landed, vesselId, row.schemaName, cfg, now, later, first, second);
  }

  lemma UnflippedKeepsRow(landed: Db, first: Db, vesselId: string, key: RowKey, row: Row, verdicts: Verdicts)
    requires key in landed.rows && landed.rows[key] == row
    requires Settled(landed, first, vesselId, row.schemaName, verdicts)
    requires !FlippedByLanding(landed, vesselId, key, row, verdicts)
    ensures Upserted(first, key, row) == first
  {
    assert first.rows[key] == row;
    assert first.rows[key := row] == first.rows;
  }

  lemma FlippedRelanding(landed: Db, vesselId: string, key: RowKey, row: Row, cfg: Reports.Config, now: Instant,
                         later: Instant, verdicts: Verdicts, first: Db, second: Db)
    requires key in landed.rows && landed.rows[key] == row
    requires DistinctCommittedTimes(landed.rows, vesselId, row.schemaName)
    requires VerdictsOf(landed.rows, vesselId, row.schemaName, cfg, verdicts)
    requires CompletePass(landed, vesselId, row.schemaName, cfg, now, first)
    requires CompletePass(Upserted(first, key, row), vesselId, row.schemaName, cfg, later, second)
    requires FlippedByLanding(landed, vesselId, key, row, verdicts)
    ensures |second.notices| > |first.notices|
  {
    var again := Upserted(first, key, row);
    var v := PassSettles(landed, vesselId, row.schemaName, cfg, now, first);
    var v' := PassSettles(again, vesselId, row.schemaName, cfg, later, second);
    ResetRow(landed.rows, first.rows, key, row);
    VerdictsUnique(landed.rows, again.rows, vesselId, row.schemaName, cfg, verdicts, v');
    SameLatest(landed.rows, again.rows, vesselId, row.schemaName, key);
    SameDistinctTimes(landed.rows, again.rows, vesselId, row.schemaName);
    FlippedGetsNotice(again, vesselId, row.schemaName, cfg, later, second, key, v');
  }

  lemma FirstIsBounded(db: Db, vesselId: string, schemaName: string, cfg: Reports.Config, now: Instant, after: Db)
    requires CompletePass(db, vesselId, schemaName, cfg, now, after)
    ensures exists budget: nat :: BoundedPass(db, vesselId, schemaName, cfg, now, budget, after)
  {
    var chain, order :| IsChain(db.rows, vesselId, schemaName, chain)
                        && Chains.SortOf(order, Views(Committed(chain)))
                        && after == ApplyWrites(db, PassWrites(db, Committed(chain), Cascade.Verdicts(order, cfg),
                                                               now));
    CompleteIsBounded(db, vesselId, schemaName, cfg, now, chain, order);
    assert BoundedPass(db, vesselId, schemaName, cfg, now,
                       |PassWrites(db, Committed(chain), Cascade.Verdicts(order, cfg), now)|, after);
  }

  lemma {:induction false} NoticesGrow(db: Db, writes: seq<Write>)
    ensures |ApplyWrites(db, writes).notices| >= |db.notices|
    ensures (exists w :: w in writes && w.InsertNotice?) ==> |ApplyWrites(db, writes).notices| > |db.notices|
  {
    if writes != [] {
      var init, last := writes[..|writes| - 1], writes[|writes| - 1];
      NoticesGrow(db, init);
      if w :| w in writes && w.InsertNotice? {
        if w !in init { assert w == last; }
      }
    }
  }

  lemma {:induction false} PassIncludes(db: Db, committed: seq<Listed>, verdicts: Verdicts, now: Instant, i: nat)
    requires i < |committed|
    ensures forall w :: w in WritesFor(db, committed[i], verdicts, now) ==>
        w in PassWrites(db, committed, verdicts, now)
    decreases |committed|
  {
    if i < |committed| - 1 {
      assert committed[..|committed| - 1][i] == committed[i];
      PassIncludes(db, committed[..|committed| - 1], verdicts, now, i);
    }
  }

  /** A marked row not yet invalidated gets a new notice. */
  lemma FlippedGetsNotice(db: Db, vesselId: string, schemaName: string, cfg: Reports.Config, now: Instant, after: Db,
                          key: RowKey, verdicts: Verdicts)
    requires CompletePass(db, vesselId, schemaName, cfg, now, after)
    requires VerdictsOf(db.rows, vesselId, schemaName, cfg, verdicts)
    requires DistinctCommittedTimes(db.rows, vesselId, schemaName)
    requires IsLatest(db.rows, vesselId, schemaName, key) && db.rows[key].state.InChain()
    requires db.rows[key].state != Invalidated && key.reportId in verdicts
    ensures |after.notices| > |db.notices|
  {
    var chain, order :| IsChain(db.rows, vesselId, schemaName, chain)
                        && Chains.SortOf(order, Views(Committed(chain)))
                        && after == ApplyWrites(db, PassWrites(db, Committed(chain), Cascade.Verdicts(order, cfg),
                                                               now));
    var v := Cascade.Verdicts(order, cfg);
    assert VerdictsOf(db.rows, vesselId, schemaName, cfg, v);
    VerdictsUnique(db.rows, db.rows, vesselId, schemaName, cfg, v, verdicts);
    MarkedAreCommitted(db, vesselId, schemaName, chain, v);
    assert key in MarkedKeys(Committed(chain), v);
    var i :| 0 <= i < |Committed(chain)| && Committed(chain)[i].key.reportId in v && Committed(chain)[i].key == key;
    PassInsertsNotice(db, Committed(chain), v, now, i);
    NoticesGrow(db, PassWrites(db, Committed(chain), v, now));
  }

  lemma PassInsertsNotice(db: Db, committed: seq<Listed>, verdicts: Verdicts, now: Instant, i: nat)
    requires i < |committed| && committed[i].key.reportId in verdicts && committed[i].row.state != Invalidated
    ensures exists w :: w in PassWrites(db, committed, verdicts, now) && w.InsertNotice?
  {
    PassIncludes(db, committed, verdicts, now, i);
    var writes := WritesFor(db, committed[i], verdicts, now);
    assert writes[2].InsertNotice? && writes[2] in writes;
  }

  // ---- What retransmission does to a remark, an audit event, a chat message ----

  /** With a working store, a remark on a committed version survives the
      version's item being sent again exactly when the item's receipt is on
      record. */
  lemma RemarkSurvivesResendIff(db: Db, vesselId: string, item: OutboxItem, l: Landing, cfg: Reports.Config,
                                now: Instant, budget: nat, after: Db, ack: ItemAck)
    requires item.payload == ReportVersion(Some(l)) && l.row.state.InChain() && l.row.state != Remarked
    requires KeyOf(vesselId, l) in db.rows && db.rows[KeyOf(vesselId, l)].state == Remarked
    requires ItemStep(db, vesselId, item, cfg, now, Faults(false, false, budget, false), after, ack)
    ensures ack.accepted
    ensures (KeyOf(vesselId, l) in after.rows && after.rows[KeyOf(vesselId, l)].state == Remarked)
            <==> (vesselId, item.itemId) in db.receipts
  {
    var faults, key := Faults(false, false, budget, false), KeyOf(vesselId, l);
    if (vesselId, item.itemId) !in db.receipts {
      var landed, ok :| Lands(db, vesselId, item.payload, cfg, now, faults, landed, ok)
                        && ack.accepted == (ok && !faults.receipt)
                        && after == if ack.accepted
                                    then landed.(receipts := landed.receipts + {(vesselId, item.itemId)})
                                    else landed;
      var upserted := Upserted(db, key, l.row);
      PassOnlyInvalidates(upserted, vesselId, l.row.schemaName, cfg, now, budget, landed);
      assert landed.rows[key] == l.row || landed.rows[key] == l.row.(state := Invalidated);
    }
  }

  /** An audit event whose receipt failed is appended a second time by its
      retransmission; one whose receipt is on record is not. */
  lemma AuditEventAppendedTwiceIff(db: Db, vesselId: string, item: OutboxItem, e: Event, cfg: Reports.Config,
                                   now: Instant, faults: Faults, mid: Db, ack: ItemAck, later: Instant, after: Db,
                                   ack': ItemAck)
    requires item.payload == AuditEvent(Some(e)) && (vesselId, item.itemId) !in db.receipts
    requires !faults.lookup && !faults.land
    requires ItemStep(db, vesselId, item, cfg, now, faults, mid, ack)
    requires ItemStep(mid, vesselId, item, cfg, later, Faults(false, false, 0, false), after, ack')
    ensures ack'.accepted
    ensures after.audit == db.audit + [AuditRow(vesselId, e, FromVessel)]
                           + if faults.receipt then [AuditRow(vesselId, e, FromVessel)] else []
  {
    var landed, ok :| Lands(db, vesselId, item.payload, cfg, now, faults, landed, ok)
                      && ack.accepted == (ok && !faults.receipt)
                      && mid == if ack.accepted then landed.(receipts := landed.receipts + {(vesselId, item.itemId)})
                                else landed;
  }

  /** A stored chat message without a receipt: its item can never be accepted. */
  ghost predicate StuckChat(db: Db, vesselId: string, item: OutboxItem) {
    item.payload.Chat? && item.payload.message.id in db.chat && (vesselId, item.itemId) !in db.receipts
  }

  lemma ItemKeepsChatStuck(db: Db, sender: string, sent: OutboxItem, cfg: Reports.Config, now: Instant, faults: Faults,
                           after: Db, ack: ItemAck, vesselId: string, item: OutboxItem)
    requires ItemStep(db, sender, sent, cfg, now, faults, after, ack)
    requires StuckChat(db, vesselId, item)
    requires sent.itemId == item.itemId ==> sent == item
    ensures StuckChat(after, vesselId, item)
    ensures sender == vesselId && sent == item ==> !ack.accepted && after == db
  {
    if !faults.lookup && (sender, sent.itemId) !in db.receipts {
      var landed, ok :| Lands(db, sender, sent.payload, cfg, now, faults, landed, ok)
                        && ack.accepted == (ok && !faults.receipt)
                        && after == if ack.accepted then landed.(receipts := landed.receipts + {(sender, sent.itemId)})
                                    else landed;
      LandingKeepsReceipts(db, sender, sent.payload, cfg, now, faults, landed, ok);
    }
  }

  lemma {:induction false} BatchKeepsChatStuck(db: Db, sender: string, items: seq<OutboxItem>, cfg: Reports.Config,
                                               now: Instant, faults: seq<Faults>, after: Db, acks: seq<ItemAck>,
                                               vesselId: string, item: OutboxItem)
    requires |faults| == |items| && BatchStep(db, sender, items, cfg, now, faults, after, acks)
    requires StuckChat(db, vesselId, item)
    requires forall i :: 0 <= i < |items| && items[i].itemId == item.itemId ==> items[i] == item
    ensures StuckChat(after, vesselId, item)
    ensures forall i :: 0 <= i < |items| && sender == vesselId && items[i] == item ==> !acks[i].accepted
    decreases |items|
  {
    if items != [] {
      var n := |items| - 1;
      var mid :| BatchStep(db, sender, items[..n], cfg, now, faults[..n], mid, acks[..n])
                 && ItemStep(mid, sender, items[n], cfg, now, faults[n], after, acks[n]);
      assert forall i :: 0 <= i < n ==> items[..n][i] == items[i] && acks[..n][i] == acks[i];
      BatchKeepsChatStuck(db, sender, items[..n], cfg, now, faults[..n], mid, acks[..n], vesselId, item);
      ItemKeepsChatStuck(mid, sender, items[n], cfg, now, faults[n], after, acks[n], vesselId, item);
    }
  }

  /** The step sends no other item under this item's id. */
  ghost predicate SameItemUnderItsId(step: Step, item: OutboxItem) {
    step.Push? ==> forall n :: 0 <= n < |step.items| && step.items[n].itemId == item.itemId ==> step.items[n] == item
  }

  /** Wherever the vessel sends the item in this step, it is not accepted. */
  ghost predicate Refuses(step: Step, acks: seq<ItemAck>, vesselId: string, item: OutboxItem) {
    step.Push? && step.vesselId == vesselId ==>
      forall n :: 0 <= n < |step.items| && step.items[n] == item ==> n < |acks| && !acks[n].accepted
  }

  /** A chat message that was stored while its receipt failed is refused by
      every later push, for as long as the run goes on. */
  lemma {:induction false} StuckChatStaysStuck(dbs: seq<Db>, steps: seq<Step>, acks: seq<seq<ItemAck>>, i: nat, j: nat,
                                               vesselId: string, item: OutboxItem)
    requires Run(dbs, steps, acks) && i <= j <= |steps| && StuckChat(dbs[i], vesselId, item)
    requires forall m :: i <= m < j ==> SameItemUnderItsId(steps[m], item)
    ensures StuckChat(dbs[j], vesselId, item)
    ensures forall m :: i <= m < j ==> Refuses(steps[m], acks[m], vesselId, item)
    decreases j - i
  {
    if i < j {
      StuckChatStaysStuck(dbs, steps, acks, i, j - 1, vesselId, item);
      var s := steps[j - 1];
      assert StepTo(dbs[j - 1], s, dbs[j], acks[j - 1]) && SameItemUnderItsId(s, item);
      if s.Push? {
        BatchKeepsChatStuck(dbs[j - 1], s.vesselId, s.items, s.cfg, s.now, s.faults, dbs[j], acks[j - 1], vesselId,
                            item);
      }
    }
  }

  /** One failed receipt is all it takes, and a recorded one prevents it. */
  lemma ChatSticksIff(db: Db, vesselId: string, item: OutboxItem, cfg: Reports.Config, now: Instant, faults: Faults,
                      after: Db, ack: ItemAck)
    requires item.payload.Chat? && item.payload.message.id !in db.chat && (vesselId, item.itemId) !in db.receipts
    requires !faults.lookup && !faults.land
    requires ItemStep(db, vesselId, item, cfg, now, faults, after, ack)
    ensures StuckChat(after, vesselId, item) <==> faults.receipt
  {
    var landed, ok :| Lands(db, vesselId, item.payload, cfg, now, faults, landed, ok)
                      && ack.accepted == (ok && !faults.receipt)
                      && after == if ack.accepted then landed.(receipts := landed.receipts + {(vesselId, item.itemId)})
                                  else landed;
  }
}
