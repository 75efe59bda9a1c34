// Every user command reaches its vessel once, in order and with its password,
// as long as the vessel saves its cursor before its confirmation arrives; what
// goes wrong otherwise; and the row that blocks the stream.
module UserCommandLaws {
  import opened Prelude
  import opened Reports
  import opened Streams
  import opened UserCommands

  // ---- Runs ----

  /** One sync cycle of a vessel: whether the pull's answer arrives, and then
      whether the cursor is saved, which commands are applied, and whether the
      confirmation gets through. */
  datatype Outcome = AnswerLost | Arrived(cursorSaved: bool, applied: set<string>, ackArrives: bool)

  datatype Event =
    | Queue(vessel: Vessel, command: Command, gap: nat)
    | Cycle(puller: Vessel, at: Instant, stampFails: set<string>, outcome: Outcome)

  /** The table, each vessel's cursor, and as history the commands as queued,
      as received by each vessel, and the ids confirmed. */
  datatype Exchange = Exchange(rows: seq<Row<Entry>>, log: seq<Row<Command>>, cursors: map<Vessel, int>,
                         received: map<Vessel, seq<Command>>, acked: set<string>)
  {
    function Cursor(v: Vessel): int {
      if v in cursors then cursors[v] else 0
    }

    function Received(v: Vessel): seq<Command> {
      if v in received then received[v] else []
    }
  }

  const START := Exchange([], [], map[], map[], {})

  function Arriving(w: Exchange, v: Vessel, rows: seq<Row<Entry>>, batch: seq<Command>, next: int, at: Instant,
                    outcome: Outcome): Exchange
    requires outcome.Arrived?
  {
    var confirmed := if outcome.ackArrives then IdsOf(batch) * outcome.applied else {};
    w.(rows := Applied(rows, v, confirmed, at),
       cursors := if outcome.cursorSaved then w.cursors[v := next] else w.cursors,
       received := w.received[v := w.Received(v) + batch],
       acked := w.acked + confirmed)
  }

  ghost function Next(w: Exchange, e: Event): Exchange {
    match e
    case Queue(v, command, gap) =>
      if HasId(w.rows, command.id) then w
      else
        var cursor := LastCursor(w.rows) + 1 + gap;
        w.(rows := w.rows + [Row(v, cursor, Entry(command, None, None))], log := w.log + [Row(v, cursor, command)])
    case Cycle(v, at, stampFails, outcome) =>
      var (rows, answer) := AfterPull(w.rows, v, w.Cursor(v), at, stampFails);
      if answer.Failed? || outcome.AnswerLost? then w.(rows := rows)
      else Arriving(w, v, rows, answer.batch, answer.next, at, outcome)
  }

  ghost function After(events: seq<Event>): Exchange {
    if events == [] then START else Next(After(events[..|events| - 1]), events[|events| - 1])
  }

  // ---- The table stays the log with confirmed passwords blanked ----

  function Blanked(command: Command, acked: set<string>): Command {
    if command.id in acked then command.(password := "") else command
  }

  ghost predicate Shadows(rows: seq<Row<Entry>>, log: seq<Row<Command>>, acked: set<string>) {
    && |rows| == |log|
    && forall i :: 0 <= i < |rows| ==>
         rows[i].vessel == log[i].vessel && rows[i].cursor == log[i].cursor
         && rows[i].item.command == Blanked(log[i].item, acked)
  }

  ghost predicate UniqueIds(log: seq<Row<Command>>) {
    forall i, j :: 0 <= i < j < |log| ==> log[i].item.id != log[j].item.id
  }

  /** Some row of this vessel past this cursor has the id. */
  ghost predicate Waiting(log: seq<Row<Command>>, v: Vessel, cursor: int, id: string) {
    exists i :: 0 <= i < |log| && log[i].vessel == v && log[i].cursor > cursor && log[i].item.id == id
  }

  ghost predicate Logged(log: seq<Row<Command>>, id: string) {
    exists i :: 0 <= i < |log| && log[i].item.id == id
  }

  ghost predicate Mirrored(w: Exchange) {
    Shadows(w.rows, w.log, w.acked) && UniqueIds(w.log) && forall id :: id in w.acked ==> Logged(w.log, id)
  }

  ghost predicate Ordered(w: Exchange) {
    Increasing(w.rows) && LastCursor(w.rows) >= 0 && forall v :: w.Cursor(v) <= LastCursor(w.rows)
  }

  ghost predicate Consistent(w: Exchange) {
    Mirrored(w) && Ordered(w)
  }

  lemma FetchedShadows(rows: seq<Row<Entry>>, log: seq<Row<Command>>, acked: set<string>, ids: set<string>, at: Instant)
    requires Shadows(rows, log, acked)
    ensures Shadows(Fetched(rows, ids, at), log, acked)
    ensures Increasing(rows) ==> Increasing(Fetched(rows, ids, at))
    ensures LastCursor(Fetched(rows, ids, at)) == LastCursor(rows)
  {
  }

  ghost predicate OwnedBy(log: seq<Row<Command>>, ids: set<string>, v: Vessel) {
    forall i :: 0 <= i < |log| && log[i].item.id in ids ==> log[i].vessel == v
  }

  lemma AppliedShadows(rows: seq<Row<Entry>>, log: seq<Row<Command>>, acked: set<string>, v: Vessel, ids: set<string>,
                       at: Instant)
    requires Shadows(rows, log, acked) && OwnedBy(log, ids, v)
    ensures Shadows(Applied(rows, v, ids, at), log, acked + ids)
    ensures Increasing(rows) ==> Increasing(Applied(rows, v, ids, at))
    ensures LastCursor(Applied(rows, v, ids, at)) == LastCursor(rows)
  {
  }

  lemma BatchIdWaits(rows: seq<Row<Entry>>, log: seq<Row<Command>>, acked: set<string>, v: Vessel, cursor: int, k: nat)
    requires Shadows(rows, log, acked) && k < |Since(rows, v, cursor)|
    ensures Waiting(log, v, cursor, Since(rows, v, cursor)[k].item.command.id)
  {
    var row := Since(rows, v, cursor)[k];
    SinceMembers(rows, v, cursor);
    assert row in Since(rows, v, cursor);
    var j :| 0 <= j < |rows| && rows[j] == row;
    assert log[j].item.id == row.item.command.id;
  }

  lemma WaitingRowInBatch(rows: seq<Row<Entry>>, log: seq<Row<Command>>, acked: set<string>, v: Vessel, cursor: int,
                          i: nat)
    requires Shadows(rows, log, acked) && i < |log| && log[i].vessel == v && log[i].cursor > cursor
    ensures log[i].item.id in IdsOf(CommandsOf(Since(rows, v, cursor)))
  {
    var pending := Since(rows, v, cursor);
    SinceMembers(rows, v, cursor);
    assert rows[i] in pending;
    var k :| 0 <= k < |pending| && pending[k] == rows[i];
    assert CommandsOf(pending)[k].id == log[i].item.id;
  }

  /** A batch holds exactly the commands of the vessel's rows past its cursor. */
  lemma BatchIdIff(rows: seq<Row<Entry>>, log: seq<Row<Command>>, acked: set<string>, v: Vessel, cursor: int,
                   id: string)
    requires Shadows(rows, log, acked)
    ensures id in IdsOf(CommandsOf(Since(rows, v, cursor))) <==> Waiting(log, v, cursor, id)
  {
    var pending := Since(rows, v, cursor);
    if id in IdsOf(CommandsOf(pending)) {
      var k :| 0 <= k < |CommandsOf(pending)| && CommandsOf(pending)[k].id == id;
      BatchIdWaits(rows, log, acked, v, cursor, k);
    }
    if Waiting(log, v, cursor, id) {
      var i :| 0 <= i < |log| && log[i].vessel == v && log[i].cursor > cursor && log[i].item.id == id;
      WaitingRowInBatch(rows, log, acked, v, cursor, i);
    }
  }

  lemma QueueKeepsMirrored(w: Exchange, v: Vessel, command: Command, gap: nat)
    requires Mirrored(w) && !HasId(w.rows, command.id)
    ensures Mirrored(Next(w, Queue(v, command, gap)))
  {
    var t := Next(w, Queue(v, command, gap));
    forall i | 0 <= i < |w.log| ensures w.log[i].item.id != command.id {
      assert w.rows[i].item.command.id == w.log[i].item.id;
    }
    forall id | id in t.acked ensures Logged(t.log, id) && id != command.id {
      assert Logged(w.log, id);
      var i :| 0 <= i < |w.log| && w.log[i].item.id == id;
      assert t.log[i].item.id == id;
    }
  }

  lemma QueueKeepsOrdered(w: Exchange, v: Vessel, command: Command, gap: nat)
    requires Ordered(w)
    ensures Ordered(Next(w, Queue(v, command, gap)))
  {
    var t := Next(w, Queue(v, command, gap));
    AppendKeepsIncreasing(w.rows, Row(v, LastCursor(w.rows) + 1 + gap, Entry(command, None, None)));
    assert forall u :: t.Cursor(u) == w.Cursor(u);
  }

  /** What a cycle confirms: only commands of its vessel that were waiting. */
  function Confirmed(w: Exchange, v: Vessel, stampFails: set<string>, outcome: Outcome): set<string> {
    var pending := Since(w.rows, v, w.Cursor(v));
    if outcome.Arrived? && outcome.ackArrives && Deliverable(pending, stampFails) == |pending|
    then IdsOf(CommandsOf(pending)) * outcome.applied else {}
  }

  function Stamped(w: Exchange, v: Vessel, at: Instant, stampFails: set<string>): seq<Row<Entry>> {
    AfterPull(w.rows, v, w.Cursor(v), at, stampFails).0
  }

  lemma AppliedNone(rows: seq<Row<Entry>>, v: Vessel, at: Instant)
    ensures Applied(rows, v, {}, at) == rows
  {
  }

  lemma CycleParts(w: Exchange, v: Vessel, at: Instant, stampFails: set<string>, outcome: Outcome)
    ensures var t := Next(w, Cycle(v, at, stampFails, outcome));
            && t.rows == Applied(Stamped(w, v, at, stampFails), v, Confirmed(w, v, stampFails, outcome), at)
            && t.log == w.log && t.acked == w.acked + Confirmed(w, v, stampFails, outcome)
  {
    AppliedNone(Stamped(w, v, at, stampFails), v, at);
    var pending := Since(w.rows, v, w.Cursor(v));
    assert pending[..|pending|] == pending;
  }

  lemma ConfirmedWaiting(w: Exchange, v: Vessel, stampFails: set<string>, outcome: Outcome)
    requires Mirrored(w)
    ensures OwnedBy(w.log, Confirmed(w, v, stampFails, outcome), v)
    ensures forall id :: id in Confirmed(w, v, stampFails, outcome) ==> Waiting(w.log, v, w.Cursor(v), id)
  {
    forall id | id in Confirmed(w, v, stampFails, outcome) ensures Waiting(w.log, v, w.Cursor(v), id) {
      BatchIdIff(w.rows, w.log, w.acked, v, w.Cursor(v), id);
    }
    forall i | 0 <= i < |w.log| && w.log[i].item.id in Confirmed(w, v, stampFails, outcome)
      ensures w.log[i].vessel == v
    {
      WaitingIsOwn(w.log, v, w.Cursor(v), i);
    }
  }

  lemma WaitingIsOwn(log: seq<Row<Command>>, v: Vessel, cursor: int, i: int)
    requires UniqueIds(log) && 0 <= i < |log| && Waiting(log, v, cursor, log[i].item.id)
    ensures log[i].vessel == v && log[i].cursor > cursor
  {
  }

  lemma CycleKeepsMirrored(w: Exchange, v: Vessel, at: Instant, stampFails: set<string>, outcome: Outcome)
    requires Mirrored(w)
    ensures Mirrored(Next(w, Cycle(v, at, stampFails, outcome)))
  {
    CycleParts(w, v, at, stampFails, outcome);
    ConfirmedWaiting(w, v, stampFails, outcome);
    var pending := Since(w.rows, v, w.Cursor(v));
    FetchedShadows(w.rows, w.log, w.acked, IdsOf(CommandsOf(pending[..Deliverable(pending, stampFails)])), at);
    AppliedShadows(Stamped(w, v, at, stampFails), w.log, w.acked, v, Confirmed(w, v, stampFails, outcome), at);
    forall id | id in w.acked + Confirmed(w, v, stampFails, outcome) ensures Logged(w.log, id) {
      if id !in w.acked { assert Waiting(w.log, v, w.Cursor(v), id); }
    }
  }

  lemma SameCursorsOrdered(a: seq<Row<Entry>>, b: seq<Row<Entry>>)
    requires |a| == |b| && forall i :: 0 <= i < |a| ==> a[i].cursor == b[i].cursor
    ensures LastCursor(a) == LastCursor(b)
    ensures Increasing(a) ==> Increasing(b)
  {
  }

  lemma CycleCursor(w: Exchange, v: Vessel, at: Instant, stampFails: set<string>, outcome: Outcome)
    ensures var t := Next(w, Cycle(v, at, stampFails, outcome));
            && (forall u :: u != v ==> t.Cursor(u) == w.Cursor(u))
            && (t.Cursor(v) == w.Cursor(v) || t.Cursor(v) == NextCursor(Since(w.rows, v, w.Cursor(v)), w.Cursor(v)))
            && (Confirmed(w, v, stampFails, outcome) != {} && outcome.cursorSaved ==>
                  t.Cursor(v) == NextCursor(Since(w.rows, v, w.Cursor(v)), w.Cursor(v)))
  {
  }

  lemma CycleKeepsOrdered(w: Exchange, v: Vessel, at: Instant, stampFails: set<string>, outcome: Outcome)
    requires Ordered(w)
    ensures Ordered(Next(w, Cycle(v, at, stampFails, outcome)))
    ensures forall u :: Next(w, Cycle(v, at, stampFails, outcome)).Cursor(u) >= w.Cursor(u)
  {
    CycleParts(w, v, at, stampFails, outcome);
    CycleCursor(w, v, at, stampFails, outcome);
    CursorsStayBelow(w.rows, v, w.Cursor(v));
    NextNeverFalls(Since(w.rows, v, w.Cursor(v)), w.Cursor(v));
    SameCursorsOrdered(w.rows, Next(w, Cycle(v, at, stampFails, outcome)).rows);
  }

  lemma StepKeepsConsistent(w: Exchange, e: Event)
    requires Consistent(w)
    ensures Consistent(Next(w, e))
    ensures forall v :: Next(w, e).Cursor(v) >= w.Cursor(v)
  {
    match e
    case Queue(v, command, gap) =>
      if !HasId(w.rows, command.id) {
        QueueKeepsMirrored(w, v, command, gap);
        QueueKeepsOrdered(w, v, command, gap);
      }
    case Cycle(v, at, stampFails, outcome) =>
      CycleKeepsMirrored(w, v, at, stampFails, outcome);
      CycleKeepsOrdered(w, v, at, stampFails, outcome);
  }

  lemma {:induction false} RunsKeepConsistent(events: seq<Event>)
    ensures Consistent(After(events))
  {
    if events != [] {
      RunsKeepConsistent(events[..|events| - 1]);
      StepKeepsConsistent(After(events[..|events| - 1]), events[|events| - 1]);
    }
  }

  // ---- When a pull succeeds ----

  /** The row waits for its vessel and has an action the wire format does not know. */
  ghost predicate Poison(w: Exchange, v: Vessel, i: nat) {
    i < |w.log| && w.log[i].vessel == v && w.log[i].cursor > w.Cursor(v) && !Known(w.log[i].item.action)
  }

  /** A pull is answered exactly when no pending command has an unknown action
      and no pending command's stamp fails. */
  lemma DeliveredIff(w: Exchange, v: Vessel, at: Instant, stampFails: set<string>)
    requires Consistent(w)
    ensures AfterPull(w.rows, v, w.Cursor(v), at, stampFails).1.Delivered? <==>
            forall i :: 0 <= i < |w.log| && w.log[i].vessel == v && w.log[i].cursor > w.Cursor(v) ==>
                          Known(w.log[i].item.action) && w.log[i].item.id !in stampFails
  {
    var pending := Since(w.rows, v, w.Cursor(v));
    SinceMembers(w.rows, v, w.Cursor(v));
    DeliverableMeaning(pending, stampFails);
    var n := Deliverable(pending, stampFails);
    if n < |pending| {
      assert pending[n] in pending;
      var i :| 0 <= i < |w.rows| && w.rows[i] == pending[n];
      assert !Known(w.log[i].item.action) || w.log[i].item.id in stampFails;
    } else {
      forall i | 0 <= i < |w.log| && w.log[i].vessel == v && w.log[i].cursor > w.Cursor(v)
        ensures Known(w.log[i].item.action) && w.log[i].item.id !in stampFails
      {
        assert w.rows[i] in pending;
        var k :| 0 <= k < |pending| && pending[k] == w.rows[i];
        assert Fine(pending[k], stampFails);
      }
    }
  }

  lemma PoisonFailsPull(w: Exchange, v: Vessel, i: nat, at: Instant, stampFails: set<string>)
    requires Consistent(w) && Poison(w, v, i)
    ensures AfterPull(w.rows, v, w.Cursor(v), at, stampFails).1.Failed?
  {
    DeliveredIff(w, v, at, stampFails);
  }

  lemma StepKeepsPoison(w: Exchange, e: Event, v: Vessel, i: nat)
    requires Consistent(w) && Poison(w, v, i)
    ensures Poison(Next(w, e), v, i)
    ensures Next(w, e).Cursor(v) == w.Cursor(v) && Next(w, e).Received(v) == w.Received(v)
  {
    if e.Cycle? && e.puller == v { PoisonFailsPull(w, v, i, e.at, e.stampFails); }
  }

  ghost function Continue(w: Exchange, events: seq<Event>): Exchange {
    if events == [] then w else Next(Continue(w, events[..|events| - 1]), events[|events| - 1])
  }

  /** Once such a row waits, no later events deliver the vessel any command at all. */
  lemma {:induction false} PoisonBlocksForever(w: Exchange, events: seq<Event>, v: Vessel, i: nat)
    requires Consistent(w) && Poison(w, v, i)
    ensures var t := Continue(w, events);
            Consistent(t) && Poison(t, v, i) && t.Cursor(v) == w.Cursor(v) && t.Received(v) == w.Received(v)
  {
    if events != [] {
      PoisonBlocksForever(w, events[..|events| - 1], v, i);
      StepKeepsConsistent(Continue(w, events[..|events| - 1]), events[|events| - 1]);
      StepKeepsPoison(Continue(w, events[..|events| - 1]), events[|events| - 1], v, i);
    }
  }

  // ---- When a stream is blocked ----

  ghost predicate Blocked(w: Exchange, v: Vessel) {
    exists i: nat :: Poison(w, v, i)
  }

  /** A command with an unknown action is put into the vessel's stream. */
  ghost predicate QueuesUnknown(w: Exchange, e: Event, v: Vessel) {
    e.Queue? && e.vessel == v && !Known(e.command.action) && !HasId(w.rows, e.command.id)
  }

  /** The vessel's commands with unknown actions are all past its cursor. */
  ghost predicate UnknownsWait(w: Exchange, v: Vessel) {
    forall i: nat :: i < |w.log| && w.log[i].vessel == v && !Known(w.log[i].item.action) ==> Poison(w, v, i)
  }

  lemma QueueKeepsUnknowns(w: Exchange, u: Vessel, command: Command, gap: nat, v: Vessel)
    requires Consistent(w) && UnknownsWait(w, v)
    ensures var t := Next(w, Queue(u, command, gap));
            && UnknownsWait(t, v)
            && (Blocked(t, v) <==> Blocked(w, v) || QueuesUnknown(w, Queue(u, command, gap), v))
  {
    var t := Next(w, Queue(u, command, gap));
    if !HasId(w.rows, command.id) {
      assert w.Cursor(v) <= LastCursor(w.rows) && t.Cursor(v) == w.Cursor(v);
      assert t.log[|w.log|] == Row(u, LastCursor(w.rows) + 1 + gap, command);
      forall i: nat | i < |t.log| && t.log[i].vessel == v && !Known(t.log[i].item.action) ensures Poison(t, v, i) {
        if i < |w.log| { assert Poison(w, v, i); }
      }
      if QueuesUnknown(w, Queue(u, command, gap), v) { assert Poison(t, v, |w.log|); }
      if i: nat :| Poison(w, v, i) { assert Poison(t, v, i); }
      if i: nat :| Poison(t, v, i) && i < |w.log| { assert Poison(w, v, i); }
    }
  }

  lemma CycleKeepsUnknowns(w: Exchange, u: Vessel, at: Instant, stampFails: set<string>, outcome: Outcome, v: Vessel)
    requires Consistent(w) && UnknownsWait(w, v)
    ensures var t := Next(w, Cycle(u, at, stampFails, outcome));
            UnknownsWait(t, v) && (Blocked(t, v) <==> Blocked(w, v))
  {
    var t := Next(w, Cycle(u, at, stampFails, outcome));
    CycleParts(w, u, at, stampFails, outcome);
    CycleCursor(w, u, at, stampFails, outcome);
    forall i: nat | Poison(w, v, i) ensures Poison(t, v, i) {
      StepKeepsPoison(w, Cycle(u, at, stampFails, outcome), v, i);
    }
  }

  lemma {:induction false} RunsKeepUnknowns(events: seq<Event>, v: Vessel)
    ensures UnknownsWait(After(events), v)
  {
    if events != [] {
      var front, e := events[..|events| - 1], events[|events| - 1];
      RunsKeepUnknowns(front, v);
      RunsKeepConsistent(front);
      match e
      case Queue(u, command, gap) => QueueKeepsUnknowns(After(front), u, command, gap, v);
      case Cycle(u, at, stampFails, outcome) => CycleKeepsUnknowns(After(front), u, at, stampFails, outcome, v);
    }
  }

  ghost predicate UnknownQueued(events: seq<Event>, v: Vessel) {
    exists k :: QueuesUnknownAt(events, k, v)
  }

  ghost predicate QueuesUnknownAt(events: seq<Event>, k: int, v: Vessel) {
    0 <= k < |events| && QueuesUnknown(After(events[..k]), events[k], v)
  }

  lemma EarlierEventSame(events: seq<Event>, n: nat, k: nat, v: Vessel)
    requires k < n <= |events|
    ensures QueuesUnknownAt(events[..n], k, v) <==> QueuesUnknownAt(events, k, v)
  {
    assert events[..n][..k] == events[..k];
  }

  lemma UnknownQueuedEarlierOrNow(events: seq<Event>, v: Vessel)
    requires events != []
    ensures var n := |events| - 1;
            UnknownQueued(events, v) <==>
                UnknownQueued(events[..n], v) || QueuesUnknown(After(events[..n]), events[n], v)
  {
    var n := |events| - 1;
    forall k | 0 <= k < n ensures QueuesUnknownAt(events[..n], k, v) <==> QueuesUnknownAt(events, k, v) {
      EarlierEventSame(events, n, k, v);
    }
    assert QueuesUnknownAt(events, n, v) <==> QueuesUnknown(After(events[..n]), events[n], v);
  }

  /** After any run a vessel's stream is blocked, for good, exactly when a
      command with an unknown action was queued to it. */
  lemma {:induction false} BlockedIff(events: seq<Event>, v: Vessel)
    ensures Blocked(After(events), v) <==> UnknownQueued(events, v)
  {
    if events != [] {
      var front, e := events[..|events| - 1], events[|events| - 1];
      BlockedIff(front, v);
      RunsKeepUnknowns(front, v);
      RunsKeepConsistent(front);
      UnknownQueuedEarlierOrNow(events, v);
      match e
      case Queue(u, command, gap) => QueueKeepsUnknowns(After(front), u, command, gap, v);
      case Cycle(u, at, stampFails, outcome) => CycleKeepsUnknowns(After(front), u, at, stampFails, outcome, v);
    }
  }

  /** The command is one the administration handlers make. */
  ghost predicate FromHandler(e: Event) {
    e.Queue? ==> exists r, id, username, password, issuedBy, issuedAt ::
                   e.command == CommandFor(r, id, username, password, issuedBy, issuedAt)
  }

  lemma HandlersQueueKnown(e: Event)
    requires FromHandler(e) && e.Queue?
    ensures Known(e.command.action)
  {
    var r, id, username, password, issuedBy, issuedAt :|
      e.command == CommandFor(r, id, username, password, issuedBy, issuedAt);
    match r
    case CreateUser(_) =>
    case ResetPassword =>
    case SetRole(_) =>
    case SetCanSubmit(_) =>
    case SetActive(_) =>
  }

  /** An unblocked stream is answered whenever its stamps succeed. */
  lemma UnblockedIsAnswered(w: Exchange, v: Vessel, at: Instant)
    requires Consistent(w) && !Blocked(w, v)
    ensures AfterPull(w.rows, v, w.Cursor(v), at, {}).1.Delivered?
  {
    DeliveredIff(w, v, at, {});
    forall i | 0 <= i < |w.log| && w.log[i].vessel == v && w.log[i].cursor > w.Cursor(v)
        ensures Known(w.log[i].item.action) {
      assert !Poison(w, v, i);
    }
  }

  /** As the five handlers queue only known actions, no run of theirs ever
      blocks a stream: every pull whose stamps succeed is answered. */
  lemma HandlersNeverBlock(events: seq<Event>, v: Vessel, at: Instant)
    requires forall k :: 0 <= k < |events| ==> FromHandler(events[k])
    ensures !Blocked(After(events), v)
    ensures AfterPull(After(events).rows, v, After(events).Cursor(v), at, {}).1.Delivered?
  {
    forall k | 0 <= k < |events| ensures !QueuesUnknown(After(events[..k]), events[k], v) {
      if events[k].Queue? { HandlersQueueKnown(events[k]); }
    }
    BlockedIff(events, v);
    RunsKeepConsistent(events);
    UnblockedIsAnswered(After(events), v, at);
  }

  // ---- Passwords ----

  ghost predicate Pending(w: Exchange, v: Vessel, i: int) {
    0 <= i < |w.log| && w.log[i].vessel == v && w.log[i].cursor > w.Cursor(v)
  }

  /** No command past the vessel's cursor has been confirmed. */
  ghost predicate Unconfirmed(w: Exchange, v: Vessel) {
    forall i :: Pending(w, v, i) ==> w.log[i].item.id !in w.acked
  }

  /** Every command past the vessel's cursor is stored as it was queued. */
  ghost predicate Intact(w: Exchange, v: Vessel) {
    forall i :: Pending(w, v, i) && i < |w.rows| ==> w.rows[i].item.command == w.log[i].item
  }

  /** The vessel does not confirm before its cursor is saved. */
  predicate SavesFirst(e: Event, v: Vessel) {
    e.Cycle? && e.puller == v && e.outcome.Arrived? && e.outcome.ackArrives ==> e.outcome.cursorSaved
  }

  lemma QueueKeepsUnconfirmed(w: Exchange, u: Vessel, command: Command, gap: nat, v: Vessel)
    requires Mirrored(w) && Unconfirmed(w, v) && !HasId(w.rows, command.id)
    ensures Unconfirmed(Next(w, Queue(u, command, gap)), v)
  {
    var t := Next(w, Queue(u, command, gap));
    QueueKeepsMirrored(w, u, command, gap);
    forall i | Pending(t, v, i) ensures t.log[i].item.id !in t.acked {
      if i < |w.log| {
        assert Pending(w, v, i);
      } else if command.id in w.acked {
        AckedHasRow(w, command.id);
      }
    }
  }

  lemma AckedHasRow(w: Exchange, id: string)
    requires Mirrored(w) && id in w.acked
    ensures HasId(w.rows, id)
  {
    assert Logged(w.log, id);
    var k :| 0 <= k < |w.log| && w.log[k].item.id == id;
    assert w.rows[k].item.command.id == id;
  }

  lemma CycleKeepsUnconfirmed(w: Exchange, u: Vessel, at: Instant, stampFails: set<string>, outcome: Outcome, v: Vessel)
    requires Consistent(w) && Unconfirmed(w, v) && SavesFirst(Cycle(u, at, stampFails, outcome), v)
    ensures Unconfirmed(Next(w, Cycle(u, at, stampFails, outcome)), v)
  {
    var t := Next(w, Cycle(u, at, stampFails, outcome));
    CycleParts(w, u, at, stampFails, outcome);
    CycleKeepsOrdered(w, u, at, stampFails, outcome);
    ConfirmedWaiting(w, u, stampFails, outcome);
    CycleCursor(w, u, at, stampFails, outcome);
    PastNext(w.rows, u, w.Cursor(u));
    forall i | Pending(t, v, i) ensures t.log[i].item.id !in t.acked {
      assert Pending(w, v, i);
      assert w.rows[i].vessel == v && w.rows[i].cursor == w.log[i].cursor;
    }
  }

  lemma StepKeepsUnconfirmed(w: Exchange, e: Event, v: Vessel)
    requires Consistent(w) && Unconfirmed(w, v) && SavesFirst(e, v)
    ensures Unconfirmed(Next(w, e), v)
  {
    match e
    case Queue(u, command, gap) => if !HasId(w.rows, command.id) { QueueKeepsUnconfirmed(w, u, command, gap, v); }
    case Cycle(u, at, stampFails, outcome) => CycleKeepsUnconfirmed(w, u, at, stampFails, outcome, v);
  }

  lemma PastNext(rows: seq<Row<Entry>>, v: Vessel, cursor: int)
    ensures forall i :: 0 <= i < |rows| && rows[i].vessel == v && rows[i].cursor > cursor ==>
                          rows[i].cursor <= NextCursor(Since(rows, v, cursor), cursor)
  {
    SinceMembers(rows, v, cursor);
    NextNeverFalls(Since(rows, v, cursor), cursor);
    forall i | 0 <= i < |rows| && rows[i].vessel == v && rows[i].cursor > cursor
      ensures rows[i].cursor <= NextCursor(Since(rows, v, cursor), cursor)
    {
      assert rows[i] in Since(rows, v, cursor);
    }
  }

  lemma {:induction false} RunsKeepUnconfirmed(events: seq<Event>, v: Vessel)
    requires forall i :: 0 <= i < |events| ==> SavesFirst(events[i], v)
    ensures Unconfirmed(After(events), v)
  {
    if events != [] {
      RunsKeepConsistent(events[..|events| - 1]);
      RunsKeepUnconfirmed(events[..|events| - 1], v);
      StepKeepsUnconfirmed(After(events[..|events| - 1]), events[|events| - 1], v);
    }
  }

  lemma UnconfirmedIntact(w: Exchange, v: Vessel)
    requires Mirrored(w) && Unconfirmed(w, v)
    ensures Intact(w, v)
  {
  }

  /** Over any interleaving in which the vessel saves its cursor before it
      confirms, a command not yet past the cursor still carries its password. */
  lemma PasswordsSurvive(events: seq<Event>, v: Vessel)
    requires forall i :: 0 <= i < |events| ==> SavesFirst(events[i], v)
    ensures Intact(After(events), v)
  {
    RunsKeepConsistent(events);
    RunsKeepUnconfirmed(events, v);
    UnconfirmedIntact(After(events), v);
  }

  /** When the answer arrives and is confirmed but the cursor is not saved, the
      commands waiting to be delivered again are intact exactly when none of
      those confirmed carries a password. */
  lemma ConfirmedUnsavedIntactIff(w: Exchange, v: Vessel, at: Instant, applied: set<string>)
    requires Consistent(w) && Unconfirmed(w, v)
    requires AfterPull(w.rows, v, w.Cursor(v), at, {}).1.Delivered?
    ensures Intact(Next(w, Cycle(v, at, {}, Arrived(false, applied, true))), v) <==>
            forall i :: Pending(w, v, i) && w.log[i].item.id in applied ==> w.log[i].item.password == ""
  {
    var outcome := Arrived(false, applied, true);
    var t := Next(w, Cycle(v, at, {}, outcome));
    CycleParts(w, v, at, {}, outcome);
    CycleKeepsMirrored(w, v, at, {}, outcome);
    assert t.Cursor(v) == w.Cursor(v);
    forall i ensures Pending(t, v, i) == Pending(w, v, i) {}
    forall i | Pending(w, v, i)
      ensures t.rows[i].item.command == Blanked(w.log[i].item, applied)
    {
      assert Waiting(w.log, v, w.Cursor(v), w.log[i].item.id);
      BatchIdIff(w.rows, w.log, w.acked, v, w.Cursor(v), w.log[i].item.id);
    }
  }

  // ---- Once and in order ----

  ghost predicate SameRow(row: Row<Entry>, logged: Row<Command>) {
    row.vessel == logged.vessel && row.cursor == logged.cursor && row.item.command == logged.item
  }

  /** What a pull lists is what was logged past the cursor. */
  lemma {:induction false} PendingCommands(rows: seq<Row<Entry>>, log: seq<Row<Command>>, v: Vessel, cursor: int)
    requires |rows| == |log|
    requires forall i :: 0 <= i < |rows| ==> rows[i].vessel == log[i].vessel && rows[i].cursor == log[i].cursor
    requires forall i :: 0 <= i < |rows| && log[i].vessel == v && log[i].cursor > cursor ==>
        rows[i].item.command == log[i].item
    ensures |Since(rows, v, cursor)| == |Since(log, v, cursor)|
    ensures forall i :: 0 <= i < |Since(log, v, cursor)| ==>
        SameRow(Since(rows, v, cursor)[i], Since(log, v, cursor)[i])
  {
    if rows != [] { PendingCommands(rows[..|rows| - 1], log[..|log| - 1], v, cursor); }
  }

  lemma {:induction false} SameNext(a: seq<Row<Entry>>, b: seq<Row<Command>>, since: int)
    requires |a| == |b| && forall i :: 0 <= i < |a| ==> a[i].cursor == b[i].cursor
    ensures NextCursor(a, since) == NextCursor(b, since)
  {
    if a != [] { SameNext(a[..|a| - 1], b[..|b| - 1], since); }
  }

  /** The vessel received its commands up to its cursor, as queued, each once and in order. */
  ghost predicate UpToDate(w: Exchange, v: Vessel) {
    w.Received(v) == Items(Upto(w.log, v, w.Cursor(v)))
  }

  /** Every answer of the vessel that arrives has its cursor saved. */
  predicate Saves(e: Event, v: Vessel) {
    e.Cycle? && e.puller == v && e.outcome.Arrived? ==> e.outcome.cursorSaved
  }

  lemma DeliveryIsFromLog(w: Exchange, v: Vessel, at: Instant, stampFails: set<string>)
    requires Consistent(w) && Intact(w, v)
    ensures var answer := AfterPull(w.rows, v, w.Cursor(v), at, stampFails).1;
            answer.Delivered? ==>
              && answer.batch == Items(Since(w.log, v, w.Cursor(v)))
              && answer.next == NextCursor(Since(w.log, v, w.Cursor(v)), w.Cursor(v))
  {
    forall i | 0 <= i < |w.rows| && w.log[i].vessel == v && w.log[i].cursor > w.Cursor(v)
      ensures w.rows[i].item.command == w.log[i].item
    {
      assert Pending(w, v, i);
    }
    PendingCommands(w.rows, w.log, v, w.Cursor(v));
    assert CommandsOf(Since(w.rows, v, w.Cursor(v))) == Items(Since(w.log, v, w.Cursor(v)));
    SameNext(Since(w.rows, v, w.Cursor(v)), Since(w.log, v, w.Cursor(v)), w.Cursor(v));
  }

  lemma LogIncreasing(w: Exchange)
    requires Consistent(w)
    ensures Increasing(w.log)
  {
    assert forall i :: 0 <= i < |w.log| ==> w.log[i].cursor == w.rows[i].cursor;
  }

  lemma QueueKeepsUpToDate(w: Exchange, u: Vessel, command: Command, gap: nat, v: Vessel)
    requires Consistent(w) && UpToDate(w, v)
    ensures UpToDate(Next(w, Queue(u, command, gap)), v)
  {
    var t := Next(w, Queue(u, command, gap));
    if !HasId(w.rows, command.id) {
      var row := Row(u, LastCursor(w.rows) + 1 + gap, command);
      assert w.Cursor(v) <= LastCursor(w.rows);
      AppendedRow(w.log, row, v, w.Cursor(v));
      assert t.log == w.log + [row] && t.Cursor(v) == w.Cursor(v) && t.Received(v) == w.Received(v);
    }
  }

  lemma CycleKeepsUpToDate(w: Exchange, v: Vessel, at: Instant, stampFails: set<string>, outcome: Outcome)
    requires Consistent(w) && Intact(w, v) && UpToDate(w, v) && (outcome.Arrived? ==> outcome.cursorSaved)
    ensures UpToDate(Next(w, Cycle(v, at, stampFails, outcome)), v)
  {
    DeliveryIsFromLog(w, v, at, stampFails);
    LogIncreasing(w);
    PullAdvances(w.log, v, w.Cursor(v));
    ItemsJoin(Upto(w.log, v, w.Cursor(v)), Since(w.log, v, w.Cursor(v)));
  }

  lemma StepKeepsUpToDate(w: Exchange, e: Event, v: Vessel)
    requires Consistent(w) && Intact(w, v) && UpToDate(w, v) && Saves(e, v)
    ensures UpToDate(Next(w, e), v)
  {
    match e
    case Queue(u, command, gap) => QueueKeepsUpToDate(w, u, command, gap, v);
    case Cycle(u, at, stampFails, outcome) =>
      if u == v { CycleKeepsUpToDate(w, v, at, stampFails, outcome); }
  }

  /** Over any interleaving of queueing, pulls and lost answers, of all vessels:
      a vessel that saves its cursor with each answer that arrives has received
      each of its commands up to the cursor once, in order and as queued,
      password included. */
  lemma {:induction false} CommandsArriveOnceInOrder(events: seq<Event>, v: Vessel)
    requires forall i :: 0 <= i < |events| ==> Saves(events[i], v)
    ensures UpToDate(After(events), v)
  {
    if events != [] {
      var front := events[..|events| - 1];
      CommandsArriveOnceInOrder(front, v);
      RunsKeepConsistent(front);
      PasswordsSurvive(front, v);
      StepKeepsUpToDate(After(front), events[|events| - 1], v);
    }
  }
}
