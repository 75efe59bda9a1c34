// The office's landing tables: report versions, invalidation notices, audit
// rows, chat rows and outbox receipts. A database value `Db` says what the
// tables hold; the class changes them one statement at a time.
module OfficeStore {
  import opened Prelude
  import Reports
  import opened Lifecycle

  datatype RowKey = RowKey(vesselId: string, reportId: string, versionNo: int)

  datatype Row = Row(
    schemaName: string,
    eventType: string,
    state: State,
    eventTime: Instant,
    fields: Fields,
    submittedAt: Option<Instant>)

  datatype Notice = Notice(key: RowKey, brokenRules: seq<Reports.RuleId>, computedAt: Instant)

  datatype Origin = FromVessel | FromOffice

  datatype AuditRow = AuditRow(vesselId: string, event: Event, origin: Origin)

  datatype ChatMessage = ChatMessage(id: string, reportId: string, sender: string, body: string)

  datatype Db = Db(
    rows: map<RowKey, Row>,
    notices: seq<Notice>,
    audit: seq<AuditRow>,
    chat: map<string, (string, ChatMessage)>,
    receipts: set<(string, string)>)

  // ---- Reading ----

  /** The newest notice for one report version. */
  function LatestNotice(notices: seq<Notice>, key: RowKey): Option<Notice> {
    if notices == [] then None
    else if notices[|notices| - 1].key == key then Some(notices[|notices| - 1])
    else LatestNotice(notices[..|notices| - 1], key)
  }

  /** The row is of this vessel and schema, and no version of its report under the same schema is newer. */
  predicate IsLatest(rows: map<RowKey, Row>, vesselId: string, schemaName: string, key: RowKey) {
    && key in rows && key.vesselId == vesselId && rows[key].schemaName == schemaName
    && forall k :: k in rows && k.vesselId == vesselId && k.reportId == key.reportId && rows[k].schemaName == schemaName
                   ==> k.versionNo <= key.versionNo
  }

  datatype Listed = Listed(key: RowKey, row: Row) {
    function ToValidation(): Reports.Report {
      Reports.Report(key.reportId, key.versionNo, row.schemaName, row.eventType, row.eventTime, row.fields)
    }
  }

  /** The latest version of every report of a vessel and schema, in event-time
      order; rows with equal event times may come in any order. */
  ghost predicate IsChain(rows: map<RowKey, Row>, vesselId: string, schemaName: string, chain: seq<Listed>) {
    && (forall i :: 0 <= i < |chain| ==>
          IsLatest(rows, vesselId, schemaName, chain[i].key) && chain[i].row == rows[chain[i].key])
    && (forall k :: IsLatest(rows, vesselId, schemaName, k) ==> exists i :: 0 <= i < |chain| && chain[i].key == k)
    && (forall i, j :: 0 <= i < j < |chain| ==> chain[i].key != chain[j].key)
    && (forall i, j :: 0 <= i < j < |chain| ==> chain[i].row.eventTime <= chain[j].row.eventTime)
  }

  // ---- Writing ----

  datatype Write =
    | SetState(key: RowKey, state: State)
    | AppendAudit(audit: AuditRow)
    | InsertNotice(notice: Notice)

  function ApplyWrite(db: Db, w: Write): Db {
    match w
    case SetState(key, state) =>
      if key in db.rows then db.(rows := db.rows[key := db.rows[key].(state := state)]) else db
    case AppendAudit(row) => db.(audit := db.audit + [row])
    case InsertNotice(notice) => db.(notices := db.notices + [notice])
  }

  function ApplyWrites(db: Db, writes: seq<Write>): Db {
    if writes == [] then db else ApplyWrite(ApplyWrites(db, writes[..|writes| - 1]), writes[|writes| - 1])
  }

  lemma {:induction false} ApplyConcat(db: Db, a: seq<Write>, b: seq<Write>)
    ensures ApplyWrites(db, a + b) == ApplyWrites(ApplyWrites(db, a), b)
    decreases |b|
  {
    if b == [] {
      assert a + b == a;
    } else {
      assert (a + b)[..|a + b| - 1] == a + b[..|b| - 1];
      ApplyConcat(db, a, b[..|b| - 1]);
    }
  }

  // ---- The tables ----

  class Store {
    var rows: map<RowKey, Row>
    var notices: seq<Notice>
    var audit: seq<AuditRow>
    var chat: map<string, (string, ChatMessage)>
    var receipts: set<(string, string)>

    ghost function View(): Db
      reads this
    {
      Db(rows, notices, audit, chat, receipts)
    }

    /** One statement of the cascade. */
    method Perform(w: Write)
      modifies this
      ensures View() == ApplyWrite(old(View()), w)
    {
      match w {
        case SetState(key, state) =>
          if key in rows { rows := rows[key := rows[key].(state := state)]; }
        case AppendAudit(row) => audit := audit + [row];
        case InsertNotice(notice) => notices := notices + [notice];
      }
    }

    method UpsertReportVersion(key: RowKey, row: Row)
      modifies this
      ensures View() == old(View()).(rows := old(rows)[key := row])
    {
      rows := rows[key := row];
    }

    method AppendReportAuditEvent(row: AuditRow)
      modifies this
      ensures View() == old(View()).(audit := old(audit) + [row])
    {
      audit := audit + [row];
    }

    /** A plain insert: the message id is the primary key, so a second insert fails. */
    method InsertChatMessage(vesselId: string, m: ChatMessage) returns (ok: bool)
      modifies this
      ensures ok <==> m.id !in old(chat)
      ensures View() == if ok then old(View()).(chat := old(chat)[m.id := (vesselId, m)]) else old(View())
    {
      if m.id in chat { return false; }
      chat := chat[m.id := (vesselId, m)];
      return true;
    }

    method RecordOutboxReceipt(vesselId: string, itemId: string)
      modifies this
      ensures View() == old(View()).(receipts := old(receipts) + {(vesselId, itemId)})
    {
      receipts := receipts + {(vesselId, itemId)};
    }

    method GetLatestInvalidationNotice(key: RowKey) returns (latest: Option<Notice>)
      ensures latest == LatestNotice(notices, key)
    {
      var i := |notices|;
      assert notices[..i] == notices;
      while i > 0
        invariant 0 <= i <= |notices|
        invariant LatestNotice(notices, key) == LatestNotice(notices[..i], key)
      {
        assert notices[..i][..i - 1] == notices[..i - 1];
        i := i - 1;
        if notices[i].key == key { return Some(notices[i]); }
      }
      return None;
    }

    method ListChain(vesselId: string, schemaName: string) returns (chain: seq<Listed>)
      ensures IsChain(rows, vesselId, schemaName, chain)
    {
      var todo := set k | k in rows && IsLatest(rows, vesselId, schemaName, k);
      ghost var all := todo;
      chain := [];
      while todo != {}
        invariant ListedSoFar(rows, all, todo, chain)
        decreases todo
      {
        ghost var _ := EarliestExists(rows, todo);
        var key :| key in todo && forall k :: k in todo ==> rows[key].eventTime <= rows[k].eventTime;
        ListOneMore(rows, all, todo, chain, key);
        todo := todo - {key};
        chain := chain + [Listed(key, rows[key])];
      }
      AllListed(rows, vesselId, schemaName, all, chain);
    }
  }

  ghost predicate ListedSoFar(rows: map<RowKey, Row>, all: set<RowKey>, todo: set<RowKey>, chain: seq<Listed>) {
    && todo <= all <= rows.Keys
    && (forall i :: 0 <= i < |chain| ==> chain[i].key in all - todo && chain[i].row == rows[chain[i].key])
    && (forall k :: k in all - todo ==> exists i :: 0 <= i < |chain| && chain[i].key == k)
    && (forall i, j :: 0 <= i < j < |chain| ==> chain[i].key != chain[j].key)
    && (forall i, j :: 0 <= i < j < |chain| ==> chain[i].row.eventTime <= chain[j].row.eventTime)
    && (forall i, k :: 0 <= i < |chain| && k in todo ==> chain[i].row.eventTime <= rows[k].eventTime)
  }

  lemma ListOneMore(rows: map<RowKey, Row>, all: set<RowKey>, todo: set<RowKey>, chain: seq<Listed>, key: RowKey)
    requires ListedSoFar(rows, all, todo, chain)
    requires key in todo && forall k :: k in todo ==> rows[key].eventTime <= rows[k].eventTime
    ensures ListedSoFar(rows, all, todo - {key}, chain + [Listed(key, rows[key])])
  {
    var next := chain + [Listed(key, rows[key])];
    assert forall i :: 0 <= i < |chain| ==> next[i] == chain[i];
    assert next[|chain|].key == key;
    forall k | k in all - (todo - {key}) ensures exists i :: 0 <= i < |next| && next[i].key == k {
      if k != key {
        assert k in all - todo;
        var i :| 0 <= i < |chain| && chain[i].key == k;
        assert next[i].key == k;
      }
    }
  }

  lemma AllListed(rows: map<RowKey, Row>, vesselId: string, schemaName: string, all: set<RowKey>, chain: seq<Listed>)
    requires all == set k | k in rows && IsLatest(rows, vesselId, schemaName, k)
    requires ListedSoFar(rows, all, {}, chain)
    ensures IsChain(rows, vesselId, schemaName, chain)
  {
    forall k | IsLatest(rows, vesselId, schemaName, k) ensures exists i :: 0 <= i < |chain| && chain[i].key == k {
      assert k in all - {};
    }
    forall i | 0 <= i < |chain| ensures IsLatest(rows, vesselId, schemaName, chain[i].key) {
      assert chain[i].key in all - {};
    }
  }

  lemma EarliestExists(rows: map<RowKey, Row>, keys: set<RowKey>) returns (key: RowKey)
    requires keys != {} && keys <= rows.Keys
    ensures key in keys && forall k :: k in keys ==> rows[key].eventTime <= rows[k].eventTime
  {
    key :| key in keys;
    if keys != {key} {
      var other := EarliestExists(rows, keys - {key});
      if rows[other].eventTime < rows[key].eventTime { key := other; }
    }
  }
}
