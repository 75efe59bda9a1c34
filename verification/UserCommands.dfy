// The user-command stream: rows that carry a one-time password, are stamped
// while an answer is put together, and lose the password once the vessel
// confirms them.
module UserCommands {
  import opened Prelude
  import opened Reports
  import opened Streams

  datatype Command = Command(id: string, action: string, username: string, role: string, password: string,
                             canSubmit: bool, active: bool, issuedBy: string, issuedAt: Instant)

  datatype Entry = Entry(command: Command, fetchedAt: Option<Instant>, appliedAt: Option<Instant>)

  predicate Known(action: string) {
    action in {"create", "resetPassword", "setRole", "setActive", "setCanSubmit"}
  }

  /** What an administrator asks for, once the request is found in order. */
  datatype Request =
    | CreateUser(role: string)
    | ResetPassword
    | SetRole(newRole: string)
    | SetCanSubmit(canSubmit: bool)
    | SetActive(active: bool)

  /** The command each of the five handlers queues. */
  function CommandFor(r: Request, id: string, username: string, password: string, issuedBy: string,
                      issuedAt: Instant): Command
  {
    match r
    case CreateUser(role) => Command(id, "create", username, role, password, false, false, issuedBy, issuedAt)
    case ResetPassword => Command(id, "resetPassword", username, "", password, false, false, issuedBy, issuedAt)
    case SetRole(role) => Command(id, "setRole", username, role, "", false, false, issuedBy, issuedAt)
    case SetCanSubmit(canSubmit) => Command(id, "setCanSubmit", username, "", "", canSubmit, false, issuedBy, issuedAt)
    case SetActive(active) => Command(id, "setActive", username, "", "", false, active, issuedBy, issuedAt)
  }

  datatype PullAnswer = Delivered(batch: seq<Command>, next: int) | Failed

  // ---- Specification ----

  ghost predicate HasId(rows: seq<Row<Entry>>, id: string) {
    exists i :: 0 <= i < |rows| && rows[i].item.command.id == id
  }

  function FetchedRow(row: Row<Entry>, ids: set<string>, at: Instant): Row<Entry> {
    if row.item.command.id in ids then row.(item := row.item.(fetchedAt := Some(at))) else row
  }

  function AppliedRow(row: Row<Entry>, v: Vessel, ids: set<string>, at: Instant): Row<Entry> {
    if row.vessel == v && row.item.command.id in ids
    then row.(item := row.item.(appliedAt := Some(at), command := row.item.command.(password := "")))
    else row
  }

  function Fetched(rows: seq<Row<Entry>>, ids: set<string>, at: Instant): seq<Row<Entry>> {
    seq(|rows|, i requires 0 <= i < |rows| => FetchedRow(rows[i], ids, at))
  }

  function Applied(rows: seq<Row<Entry>>, v: Vessel, ids: set<string>, at: Instant): seq<Row<Entry>> {
    seq(|rows|, i requires 0 <= i < |rows| => AppliedRow(rows[i], v, ids, at))
  }

  function CommandsOf(rows: seq<Row<Entry>>): seq<Command> {
    seq(|rows|, i requires 0 <= i < |rows| => rows[i].item.command)
  }

  function IdsOf(commands: seq<Command>): set<string> {
    set i | 0 <= i < |commands| :: commands[i].id
  }

  /** How many rows are delivered before one whose action is unknown or whose stamp fails. */
  function Deliverable(rows: seq<Row<Entry>>, stampFails: set<string>): (n: nat)
    ensures n <= |rows|
  {
    if rows == [] then 0
    else
      var command := rows[0].item.command;
      if !Known(command.action) || command.id in stampFails then 0 else 1 + Deliverable(rows[1..], stampFails)
  }

  /** The stamps made before a failure stay; an answer is all or nothing. */
  function AfterPull(rows: seq<Row<Entry>>, v: Vessel, since: int, at: Instant, stampFails: set<string>)
    : (seq<Row<Entry>>, PullAnswer)
  {
    var pending := Since(rows, v, since);
    var n := Deliverable(pending, stampFails);
    (Fetched(rows, IdsOf(CommandsOf(pending[..n])), at),
     if n == |pending| then Delivered(CommandsOf(pending), NextCursor(pending, since)) else Failed)
  }

  // ---- The office's table ----

  class UserCommandTable {
    var rows: seq<Row<Entry>>

    constructor ()
      ensures rows == []
    {
      rows := [];
    }

    /** Refuses an id already used; the row's number is past every earlier one. */
    method QueueUserCommand(v: Vessel, command: Command, gap: nat) returns (ok: bool)
      modifies this
      ensures ok <==> !HasId(old(rows), command.id)
      ensures rows == if ok then old(rows) + [Row(v, LastCursor(old(rows)) + 1 + gap, Entry(command, None, None))]
                      else old(rows)
    {
      for i := 0 to |rows|
        invariant rows == old(rows) && forall j :: 0 <= j < i ==> rows[j].item.command.id != command.id
      {
        if rows[i].item.command.id == command.id { return false; }
      }
      rows := rows + [Row(v, LastCursor(rows) + 1 + gap, Entry(command, None, None))];
      return true;
    }

    method MarkUserCommandFetched(id: string, at: Instant)
      modifies this
      ensures rows == Fetched(old(rows), {id}, at)
      ensures forall i :: 0 <= i < |rows| ==>
                rows[i] == if old(rows[i]).item.command.id == id
                           then old(rows[i]).(item := old(rows[i]).item.(fetchedAt := Some(at))) else old(rows[i])
    {
      rows := Fetched(rows, {id}, at);
    }

    method MarkUserCommandsApplied(v: Vessel, ids: seq<string>, at: Instant)
      modifies this
      ensures rows == Applied(old(rows), v, (set id | id in ids), at)
      ensures |rows| == |old(rows)|
      ensures forall i :: 0 <= i < |rows| && old(rows[i]).vessel == v && old(rows[i]).item.command.id in ids ==>
                && rows[i].item.appliedAt == Some(at) && rows[i].item.command.password == ""
                && rows[i] == old(rows[i]).(item := rows[i].item)
                && rows[i].item == old(rows[i]).item.(appliedAt := rows[i].item.appliedAt,
                                                      command := rows[i].item.command)
                && rows[i].item.command == old(rows[i]).item.command.(password := "")
      ensures forall i :: 0 <= i < |rows| && !(old(rows[i]).vessel == v && old(rows[i]).item.command.id in ids) ==>
                rows[i] == old(rows[i])
    {
      if |ids| == 0 {
        assert rows == Applied(rows, v, {}, at);
        return;
      }
      rows := Applied(rows, v, (set id | id in ids), at);
    }

    method PullUserCommands(v: Vessel, since: int, at: Instant, stampFails: set<string>) returns (answer: PullAnswer)
      modifies this
      ensures (rows, answer) == AfterPull(old(rows), v, since, at, stampFails)
    {
      ghost var before := rows;
      var pending := ListSince(rows, v, since);
      var batch, next := [], since;
      FetchedNone(rows, at);
      for i := 0 to |pending|
        invariant batch == CommandsOf(pending[..i]) && next == NextCursor(pending[..i], since)
        invariant rows == Fetched(before, IdsOf(CommandsOf(pending[..i])), at)
        invariant AllFine(pending, stampFails, i)
      {
        PullStep(before, pending, i, since, at, stampFails);
        var command := pending[i].item.command;
        if !Known(command.action) { return Failed; }
        batch := batch + [command];
        if pending[i].cursor > next { next := pending[i].cursor; }
        if command.id in stampFails { return Failed; }
        MarkUserCommandFetched(command.id, at);
      }
      assert pending[..|pending|] == pending;
      DeliverableMeaning(pending, stampFails);
      return Delivered(batch, next);
    }
  }

  ghost predicate AllFine(rows: seq<Row<Entry>>, stampFails: set<string>, n: nat) {
    n <= |rows| && forall j :: 0 <= j < n ==> Fine(rows[j], stampFails)
  }

  lemma PullStep(rows: seq<Row<Entry>>, pending: seq<Row<Entry>>, i: nat, since: int, at: Instant,
                 stampFails: set<string>)
    requires i < |pending| && AllFine(pending, stampFails, i)
    ensures CommandsOf(pending[..i + 1]) == CommandsOf(pending[..i]) + [pending[i].item.command]
    ensures var before := NextCursor(pending[..i], since);
            NextCursor(pending[..i + 1], since) == if pending[i].cursor > before then pending[i].cursor else before
    ensures Fetched(Fetched(rows, IdsOf(CommandsOf(pending[..i])), at), {pending[i].item.command.id}, at)
         == Fetched(rows, IdsOf(CommandsOf(pending[..i + 1])), at)
    ensures if Fine(pending[i], stampFails) then AllFine(pending, stampFails, i + 1)
            else Deliverable(pending, stampFails) == i
  {
    assert pending[..i + 1][..i] == pending[..i];
    assert CommandsOf(pending[..i + 1]) == CommandsOf(pending[..i]) + [pending[i].item.command];
    NextId(CommandsOf(pending[..i]), pending[i].item.command);
    FetchedTwice(rows, IdsOf(CommandsOf(pending[..i])), pending[i].item.command.id, at);
    DeliverableIff(pending, stampFails, i);
  }

  predicate Fine(row: Row<Entry>, stampFails: set<string>) {
    Known(row.item.command.action) && row.item.command.id !in stampFails
  }

  lemma FetchedNone(rows: seq<Row<Entry>>, at: Instant)
    ensures Fetched(rows, IdsOf([]), at) == rows
  {
  }

  lemma NextId(sent: seq<Command>, command: Command)
    ensures IdsOf(sent + [command]) == IdsOf(sent) + {command.id}
  {
    var both := sent + [command];
    assert both[|sent|].id == command.id;
    assert forall i :: 0 <= i < |sent| ==> both[i].id == sent[i].id;
  }

  lemma FetchedTwice(rows: seq<Row<Entry>>, ids: set<string>, id: string, at: Instant)
    ensures Fetched(Fetched(rows, ids, at), {id}, at) == Fetched(rows, ids + {id}, at)
  {
  }

  /** The first row that cannot be delivered ends the deliverable ones. */
  lemma {:induction false} DeliverableIff(rows: seq<Row<Entry>>, stampFails: set<string>, i: nat)
    requires i < |rows| && forall j :: 0 <= j < i ==> Fine(rows[j], stampFails)
    ensures if Fine(rows[i], stampFails) then Deliverable(rows, stampFails) >= i + 1
        else Deliverable(rows, stampFails) == i
  {
    if i > 0 {
      assert Fine(rows[0], stampFails);
      DeliverableIff(rows[1..], stampFails, i - 1);
    }
  }

  lemma {:induction false} DeliverableMeaning(rows: seq<Row<Entry>>, stampFails: set<string>)
    ensures forall j :: 0 <= j < Deliverable(rows, stampFails) ==> Fine(rows[j], stampFails)
    ensures Deliverable(rows, stampFails) < |rows| ==> !Fine(rows[Deliverable(rows, stampFails)], stampFails)
  {
    if rows != [] {
      DeliverableMeaning(rows[1..], stampFails);
      forall j | 0 <= j < Deliverable(rows, stampFails) ensures Fine(rows[j], stampFails) {
        if j > 0 { assert rows[j] == rows[1..][j - 1]; }
      }
    }
  }
}
