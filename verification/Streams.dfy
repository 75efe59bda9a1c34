// Append-only pull streams: the office keeps numbered rows per vessel, and a
// pull hands a vessel every row past its cursor.
module Streams {

  type Vessel = string

  datatype Row<T> = Row(vessel: Vessel, cursor: int, item: T)

  /** Numbers are assigned in insertion order. */
  ghost predicate Increasing<T>(rows: seq<Row<T>>) {
    forall i, j :: 0 <= i < j < |rows| ==> rows[i].cursor < rows[j].cursor
  }

  function LastCursor<T>(rows: seq<Row<T>>): int {
    if rows == [] then 0 else rows[|rows| - 1].cursor
  }

  /** The vessel's rows past the cursor, in order. */
  function Since<T>(rows: seq<Row<T>>, v: Vessel, cursor: int): seq<Row<T>> {
    if rows == [] then []
    else
      var last := rows[|rows| - 1];
      Since(rows[..|rows| - 1], v, cursor) + if last.vessel == v && last.cursor > cursor then [last] else []
  }

  /** The vessel's rows up to the cursor, in order. */
  function Upto<T>(rows: seq<Row<T>>, v: Vessel, cursor: int): seq<Row<T>> {
    if rows == [] then []
    else
      var last := rows[|rows| - 1];
      Upto(rows[..|rows| - 1], v, cursor) + if last.vessel == v && last.cursor <= cursor then [last] else []
  }

  function Items<T>(rows: seq<Row<T>>): seq<T> {
    seq(|rows|, i requires 0 <= i < |rows| => rows[i].item)
  }

  function NextCursor<T>(rows: seq<Row<T>>, since: int): int {
    if rows == [] then since
    else
      var before := NextCursor(rows[..|rows| - 1], since);
      if rows[|rows| - 1].cursor > before then rows[|rows| - 1].cursor else before
  }

  /** The pull loop: collects the items and raises the cursor past each. */
  method PullStream<T>(rows: seq<Row<T>>, v: Vessel, since: int) returns (batch: seq<T>, next: int)
    ensures batch == Items(Since(rows, v, since)) && next == NextCursor(Since(rows, v, since), since)
  {
    var pending := ListSince(rows, v, since);
    batch, next := [], since;
    for i := 0 to |pending|
      invariant batch == Items(pending[..i]) && next == NextCursor(pending[..i], since)
    {
      assert pending[..i + 1][..i] == pending[..i];
      batch := batch + [pending[i].item];
      if pending[i].cursor > next { next := pending[i].cursor; }
    }
    assert pending[..|pending|] == pending;
  }

  method ListSince<T>(rows: seq<Row<T>>, v: Vessel, since: int) returns (pending: seq<Row<T>>)
    ensures pending == Since(rows, v, since)
  {
    pending := [];
    for i := 0 to |rows|
      invariant pending == Since(rows[..i], v, since)
    {
      assert rows[..i + 1][..i] == rows[..i];
      if rows[i].vessel == v && rows[i].cursor > since { pending := pending + [rows[i]]; }
    }
    assert rows[..|rows|] == rows;
  }

  // ---- What one pull does to a cursor ----

  lemma {:induction false} NextNeverFalls<T>(rows: seq<Row<T>>, since: int)
    ensures NextCursor(rows, since) >= since
    ensures forall i :: 0 <= i < |rows| ==> rows[i].cursor <= NextCursor(rows, since)
  {
    if rows != [] { NextNeverFalls(rows[..|rows| - 1], since); }
  }

  lemma {:induction false} SinceMembers<T>(rows: seq<Row<T>>, v: Vessel, cursor: int)
    ensures forall r :: r in Since(rows, v, cursor) <==> r in rows && r.vessel == v && r.cursor > cursor
  {
    if rows != [] {
      SinceMembers(rows[..|rows| - 1], v, cursor);
      assert forall r :: r in rows <==> r in rows[..|rows| - 1] || r == rows[|rows| - 1];
    }
  }

  lemma {:induction false} UptoPastLast<T>(rows: seq<Row<T>>, v: Vessel, cursor: int)
    requires forall i :: 0 <= i < |rows| ==> rows[i].vessel == v ==> rows[i].cursor <= cursor
    ensures Since(rows, v, cursor) == []
  {
    if rows != [] { UptoPastLast(rows[..|rows| - 1], v, cursor); }
  }

  /** In increasing rows, those up to a cursor and those past it, one after the
      other, are all the vessel's rows up to any cursor past them all. */
  lemma {:induction false} SplitAtCursor<T>(rows: seq<Row<T>>, v: Vessel, cursor: int, next: int)
    requires Increasing(rows) && cursor <= next
    requires forall i :: 0 <= i < |rows| ==> rows[i].vessel == v ==> rows[i].cursor <= next
    ensures Upto(rows, v, next) == Upto(rows, v, cursor) + Since(rows, v, cursor)
  {
    if rows != [] {
      var front, last := rows[..|rows| - 1], rows[|rows| - 1];
      SplitAtCursor(front, v, cursor, next);
      if last.vessel == v && last.cursor <= cursor {
        UptoPastLast(front, v, cursor);
      }
    }
  }

  /** A delivered pull moves the cursor past exactly the rows it delivers. */
  lemma PullAdvances<T>(rows: seq<Row<T>>, v: Vessel, cursor: int)
    requires Increasing(rows)
    ensures var next := NextCursor(Since(rows, v, cursor), cursor);
            && next >= cursor
            && Upto(rows, v, next) == Upto(rows, v, cursor) + Since(rows, v, cursor)
            && Since(rows, v, next) == []
  {
    var pending := Since(rows, v, cursor);
    var next := NextCursor(pending, cursor);
    NextNeverFalls(pending, cursor);
    SinceMembers(rows, v, cursor);
    forall i | 0 <= i < |rows| && rows[i].vessel == v ensures rows[i].cursor <= next {
      if rows[i].cursor > cursor { assert rows[i] in pending; }
    }
    SplitAtCursor(rows, v, cursor, next);
    UptoPastLast(rows, v, next);
  }

  lemma AppendedRow<T>(rows: seq<Row<T>>, row: Row<T>, v: Vessel, cursor: int)
    requires row.cursor > cursor
    ensures Upto(rows + [row], v, cursor) == Upto(rows, v, cursor)
  {
    assert (rows + [row])[..|rows|] == rows;
  }

  lemma CursorsStayBelow<T>(rows: seq<Row<T>>, v: Vessel, cursor: int)
    requires Increasing(rows) && cursor <= LastCursor(rows)
    ensures NextCursor(Since(rows, v, cursor), cursor) <= LastCursor(rows)
  {
    var pending := Since(rows, v, cursor);
    SinceMembers(rows, v, cursor);
    NextIsSome(pending, cursor);
    if NextCursor(pending, cursor) != cursor {
      var i :| 0 <= i < |pending| && pending[i].cursor == NextCursor(pending, cursor);
      assert pending[i] in rows;
    }
  }

  lemma AppendKeepsIncreasing<T>(rows: seq<Row<T>>, row: Row<T>)
    requires Increasing(rows) && (rows == [] || row.cursor > LastCursor(rows))
    ensures Increasing(rows + [row])
  {
  }

  lemma {:induction false} NextIsSome<T>(rows: seq<Row<T>>, since: int)
    ensures NextCursor(rows, since) == since || exists i :: 0 <= i < |rows| && rows[i].cursor == NextCursor(rows, since)
  {
    if rows != [] {
      NextIsSome(rows[..|rows| - 1], since);
      if NextCursor(rows, since) == rows[|rows| - 1].cursor {
      } else if NextCursor(rows[..|rows| - 1], since) != since {
        var i :| 0 <= i < |rows| - 1 && rows[..|rows| - 1][i].cursor == NextCursor(rows[..|rows| - 1], since);
        assert rows[i].cursor == NextCursor(rows, since);
      }
    }
  }

  // ---- Runs ----

  /** What becomes of the answer: it never arrives, its cursor is not saved and
      nothing of it kept, or its cursor is saved and its first items kept. */
  datatype Outcome = Lost | NotSaved | Saved(kept: nat)

  datatype Event<T> = Append(vessel: Vessel, item: T, gap: nat) | Pull(puller: Vessel, outcome: Outcome)

  datatype World<T> = World(rows: seq<Row<T>>, cursors: map<Vessel, int>, received: map<Vessel, seq<T>>) {
    function Cursor(v: Vessel): int {
      if v in cursors then cursors[v] else 0
    }

    function Received(v: Vessel): seq<T> {
      if v in received then received[v] else []
    }
  }

  function Prefix<T>(s: seq<T>, n: nat): seq<T> {
    if n < |s| then s[..n] else s
  }

  function Next<T>(w: World<T>, e: Event<T>): World<T> {
    match e
    case Append(v, item, gap) => w.(rows := w.rows + [Row(v, LastCursor(w.rows) + 1 + gap, item)])
    case Pull(v, Saved(kept)) =>
      var pending := Since(w.rows, v, w.Cursor(v));
      w.(cursors := w.cursors[v := NextCursor(pending, w.Cursor(v))],
         received := w.received[v := w.Received(v) + Prefix(Items(pending), kept)])
    case Pull(_, _) => w
  }

  function After<T>(events: seq<Event<T>>): World<T> {
    if events == [] then World([], map[], map[]) else Next(After(events[..|events| - 1]), events[|events| - 1])
  }

  /** The vessel holds exactly its rows up to its cursor, each once and in order. */
  ghost predicate UpToDate<T>(w: World<T>, v: Vessel) {
    w.Received(v) == Items(Upto(w.rows, v, w.Cursor(v)))
  }

  ghost predicate Numbered<T>(w: World<T>) {
    Increasing(w.rows) && LastCursor(w.rows) >= 0 && forall v :: w.Cursor(v) <= LastCursor(w.rows)
  }

  lemma StepKeepsNumbered<T>(w: World<T>, e: Event<T>)
    requires Numbered(w)
    ensures Numbered(Next(w, e))
    ensures forall v :: Next(w, e).Cursor(v) >= w.Cursor(v)
  {
    match e
    case Append(v, item, gap) =>
      AppendKeepsIncreasing(w.rows, Row(v, LastCursor(w.rows) + 1 + gap, item));
      assert forall u :: Next(w, e).Cursor(u) == w.Cursor(u);
    case Pull(v, Saved(_)) =>
      CursorsStayBelow(w.rows, v, w.Cursor(v));
      NextNeverFalls(Since(w.rows, v, w.Cursor(v)), w.Cursor(v));
      assert forall u :: u != v ==> Next(w, e).Cursor(u) == w.Cursor(u);
    case Pull(_, _) =>
  }

  /** The answer's items are all kept once its cursor is. */
  predicate KeepsAll<T>(w: World<T>, e: Event<T>) {
    e.Pull? && e.outcome.Saved? ==> e.outcome.kept >= |Since(w.rows, e.puller, w.Cursor(e.puller))|
  }

  lemma ItemsJoin<T>(a: seq<Row<T>>, b: seq<Row<T>>)
    ensures Items(a + b) == Items(a) + Items(b)
  {
  }

  /** An up-to-date vessel stays so under an event exactly when the event does
      not save a cursor past items it did not keep. */
  lemma StaysUpToDateIff<T>(w: World<T>, e: Event<T>, v: Vessel)
    requires Numbered(w) && UpToDate(w, v)
    ensures UpToDate(Next(w, e), v) <==> (e.Pull? && e.puller == v ==> KeepsAll(w, e))
  {
    match e
    case Append(u, item, gap) =>
      AppendedRow(w.rows, Row(u, LastCursor(w.rows) + 1 + gap, item), v, w.Cursor(v));
    case Pull(u, Saved(kept)) =>
      if u == v {
        PullAdvances(w.rows, v, w.Cursor(v));
        ItemsJoin(Upto(w.rows, v, w.Cursor(v)), Since(w.rows, v, w.Cursor(v)));
      }
    case Pull(_, _) =>
  }

  ghost predicate AllKept<T>(events: seq<Event<T>>) {
    events != [] ==> AllKept(events[..|events| - 1]) && KeepsAll(After(events[..|events| - 1]), events[|events| - 1])
  }

  lemma {:induction false} RunsKeepNumbered<T>(events: seq<Event<T>>)
    ensures Numbered(After(events))
  {
    if events != [] {
      RunsKeepNumbered(events[..|events| - 1]);
      StepKeepsNumbered(After(events[..|events| - 1]), events[|events| - 1]);
    }
  }

  /** Whatever the interleaving of appends, pulls, lost answers and unsaved
      cursors: as long as no cursor is saved past items that were not kept, each
      vessel has received each of its rows up to its cursor once and in order. */
  lemma {:induction false} ExactlyOnceInOrder<T>(events: seq<Event<T>>, v: Vessel)
    requires AllKept(events)
    ensures UpToDate(After(events), v)
  {
    if events != [] {
      var front := events[..|events| - 1];
      ExactlyOnceInOrder(front, v);
      RunsKeepNumbered(front);
      StaysUpToDateIff(After(front), events[|events| - 1], v);
    }
  }

  /** A delivered and kept pull leaves nothing pending. */
  lemma PullCatchesUp<T>(events: seq<Event<T>>, v: Vessel, kept: nat)
    ensures Since(Next(After(events), Pull(v, Saved(kept))).rows, v,
                  Next(After(events), Pull(v, Saved(kept))).Cursor(v)) == []
  {
    RunsKeepNumbered(events);
    PullAdvances(After(events).rows, v, After(events).Cursor(v));
  }

  lemma OneMorePending<T>(rows: seq<Row<T>>, row: Row<T>, cursor: int)
    requires row.cursor > cursor
    ensures Since(rows + [row], row.vessel, cursor) == Since(rows, row.vessel, cursor) + [row]
    ensures Items(Since(rows + [row], row.vessel, cursor)) == Items(Since(rows, row.vessel, cursor)) + [row.item]
  {
    assert (rows + [row])[..|rows|] == rows;
    ItemsJoin(Since(rows, row.vessel, cursor), [row]);
  }

  /** An appended item is the last its vessel has after its next kept pull,
      which brings everything pending before it as well, and no other vessel gets it. */
  lemma AppendedIsReceived<T>(w: World<T>, v: Vessel, item: T, gap: nat, kept: nat)
    requires Numbered(w) && kept > |Since(w.rows, v, w.Cursor(v))|
    ensures var t := Next(Next(w, Append(v, item, gap)), Pull(v, Saved(kept)));
            && t.Received(v) == w.Received(v) + (Items(Since(w.rows, v, w.Cursor(v))) + [item])
            && forall u :: u != v ==> t.Received(u) == w.Received(u) && t.Cursor(u) == w.Cursor(u)
  {
    OneMorePending(w.rows, Row(v, LastCursor(w.rows) + 1 + gap, item), w.Cursor(v));
  }

  /** A vessel that missed an item. */
  ghost predicate Behind<T>(w: World<T>, v: Vessel) {
    |w.Received(v)| < |Upto(w.rows, v, w.Cursor(v))|
  }

  lemma StepKeepsBehind<T>(w: World<T>, e: Event<T>, v: Vessel)
    requires Numbered(w) && Behind(w, v)
    ensures Behind(Next(w, e), v)
  {
    match e
    case Append(u, item, gap) =>
      AppendedRow(w.rows, Row(u, LastCursor(w.rows) + 1 + gap, item), v, w.Cursor(v));
    case Pull(u, Saved(kept)) =>
      if u == v { PullAdvances(w.rows, v, w.Cursor(v)); }
    case Pull(_, _) =>
  }

  /** An item passed over is never delivered by any later pulls. */
  lemma {:induction false} MissedIsMissedForever<T>(w: World<T>, events: seq<Event<T>>, v: Vessel)
    requires Numbered(w) && Behind(w, v)
    ensures Behind(Continue(w, events), v) && Numbered(Continue(w, events))
  {
    if events != [] {
      MissedIsMissedForever(w, events[..|events| - 1], v);
      StepKeepsNumbered(Continue(w, events[..|events| - 1]), events[|events| - 1]);
      StepKeepsBehind(Continue(w, events[..|events| - 1]), events[|events| - 1], v);
    }
  }

  function Continue<T>(w: World<T>, events: seq<Event<T>>): World<T> {
    if events == [] then w else Next(Continue(w, events[..|events| - 1]), events[|events| - 1])
  }

  /** Saving the cursor while keeping only some of the items leaves the vessel behind. */
  lemma PartlyKeptIsBehind<T>(w: World<T>, v: Vessel, kept: nat)
    requires Numbered(w) && UpToDate(w, v) && kept < |Since(w.rows, v, w.Cursor(v))|
    ensures Behind(Next(w, Pull(v, Saved(kept))), v)
  {
    PullAdvances(w.rows, v, w.Cursor(v));
  }
}
