// The vessel's committed chain and the office's: the vessel lists versions of
// its own table, the office those it was sent, and cascade revalidation on the
// two sides is about the same reports exactly when the two lists agree.
module ChainAgreement {
  import opened Prelude
  import opened Lifecycle
  import Laws = LifecycleLaws
  import Inbox = VesselInbox
  import opened OfficeStore

  /** The vessel's versions of each report, and the versions it has sent to the office. */
  datatype Vessel = Vessel(reports: map<string, seq<Version>>, sent: set<(string, int)>) {
    predicate Has(id: string, i: int) {
      id in reports && 0 <= i < |reports[id]|
    }

    function At(id: string, i: int): Version
      requires Has(id, i)
    {
      reports[id][i]
    }

    predicate Sent(id: string, i: int)
      requires Has(id, i)
    {
      (id, At(id, i).versionNo) in sent
    }
  }

  /** Versions of a report are numbered upwards and share its id and schema. */
  ghost predicate WellKept(id: string, versions: seq<Version>) {
    && versions != [] && Inbox.Ascending(versions)
    && forall i :: 0 <= i < |versions| ==>
        versions[i].reportId == id && versions[i].schemaName == versions[0].schemaName
  }

  ghost predicate Valid(w: Vessel) {
    && (forall id :: id in w.reports ==> WellKept(id, w.reports[id]))
    && forall id, i :: w.Has(id, i) && w.Sent(id, i) ==> w.At(id, i).state.InChain()
  }

  // ---- The two lists ----

  /** No later version of the report is committed. */
  ghost predicate NewestCommitted(w: Vessel, id: string, i: int) {
    && w.Has(id, i) && w.At(id, i).state.InChain()
    && forall j :: i < j && w.Has(id, j) ==> !w.At(id, j).state.InChain()
  }

  /** The vessel's query: of the schema, committed, and of the greatest version
      number among the report's committed versions. */
  ghost predicate VesselLists(w: Vessel, schemaName: string, id: string, i: int) {
    && w.Has(id, i) && w.At(id, i).schemaName == schemaName && w.At(id, i).state.InChain()
    && forall j :: w.Has(id, j) && w.At(id, j).state.InChain() ==> w.At(id, j).versionNo <= w.At(id, i).versionNo
  }

  /** The office's query and the cascade's filter. */
  predicate OfficeLists(rows: map<RowKey, Row>, vesselId: string, schemaName: string, key: RowKey) {
    IsLatest(rows, vesselId, schemaName, key) && rows[key].state.InChain()
  }

  /** The office holds exactly the versions sent, each in some committed state. */
  ghost predicate Mirrors(w: Vessel, rows: map<RowKey, Row>, vesselId: string) {
    && (forall id, i :: w.Has(id, i) && w.Sent(id, i) ==>
          var key := RowKey(vesselId, id, w.At(id, i).versionNo);
          key in rows && rows[key].schemaName == w.At(id, i).schemaName && rows[key].state.InChain())
    && forall k :: k in rows && k.vesselId == vesselId ==>
         exists i :: w.Has(k.reportId, i) && w.Sent(k.reportId, i) && w.At(k.reportId, i).versionNo == k.versionNo
  }

  /** Every version is in both chains or in neither, for every schema. */
  ghost predicate ChainsAgree(w: Vessel, rows: map<RowKey, Row>, vesselId: string) {
    forall schemaName, id, i :: w.Has(id, i) ==>
      (VesselLists(w, schemaName, id, i) <==>
       OfficeLists(rows, vesselId, schemaName, RowKey(vesselId, id, w.At(id, i).versionNo)))
  }

  /** The newest committed version of every report was sent. */
  ghost predicate NewestSent(w: Vessel) {
    forall id, i :: NewestCommitted(w, id, i) ==> w.Sent(id, i)
  }

  lemma VersionOrder(w: Vessel, id: string, i: int, j: int)
    requires Valid(w) && w.Has(id, i) && w.Has(id, j)
    ensures w.At(id, i).versionNo <= w.At(id, j).versionNo <==> i <= j
  {
    assert Inbox.Ascending(w.reports[id]);
  }

  lemma ListsNewest(w: Vessel, schemaName: string, id: string, i: int)
    requires Valid(w) && w.Has(id, i)
    ensures VesselLists(w, schemaName, id, i) <==> NewestCommitted(w, id, i) && w.At(id, i).schemaName == schemaName
  {
    forall j | w.Has(id, j) ensures w.At(id, j).versionNo <= w.At(id, i).versionNo <==> j <= i {
      VersionOrder(w, id, j, i);
    }
  }

  lemma {:induction false} NewestExists(w: Vessel, id: string, i: int) returns (n: int)
    requires w.Has(id, i) && w.At(id, i).state.InChain()
    ensures i <= n && NewestCommitted(w, id, n)
    decreases |w.reports[id]| - i
  {
    if j :| i < j && w.Has(id, j) && w.At(id, j).state.InChain() {
      n := NewestExists(w, id, j);
    } else {
      n := i;
    }
  }

  /** With the newest committed version sent, the office lists it, and only it. */
  lemma SentIsListed(w: Vessel, rows: map<RowKey, Row>, vesselId: string, schemaName: string, id: string, i: int)
    requires Valid(w) && Mirrors(w, rows, vesselId) && NewestSent(w) && w.Has(id, i)
    ensures OfficeLists(rows, vesselId, schemaName, RowKey(vesselId, id, w.At(id, i).versionNo)) <==>
            NewestCommitted(w, id, i) && w.At(id, i).schemaName == schemaName
  {
    var key := RowKey(vesselId, id, w.At(id, i).versionNo);
    if NewestCommitted(w, id, i) && w.At(id, i).schemaName == schemaName {
      forall k | k in rows && k.vesselId == vesselId && k.reportId == id ensures k.versionNo <= key.versionNo {
        var j :| w.Has(id, j) && w.Sent(id, j) && w.At(id, j).versionNo == k.versionNo;
        VersionOrder(w, id, j, i);
      }
    }
    if OfficeLists(rows, vesselId, schemaName, key) {
      ListedIsNewest(w, rows, vesselId, schemaName, id, i);
    }
  }

  lemma ListedIsNewest(w: Vessel, rows: map<RowKey, Row>, vesselId: string, schemaName: string, id: string, i: int)
    requires Valid(w) && Mirrors(w, rows, vesselId) && NewestSent(w) && w.Has(id, i)
    requires OfficeLists(rows, vesselId, schemaName, RowKey(vesselId, id, w.At(id, i).versionNo))
    ensures NewestCommitted(w, id, i) && w.At(id, i).schemaName == schemaName
  {
    var key := RowKey(vesselId, id, w.At(id, i).versionNo);
    var j :| w.Has(id, j) && w.Sent(id, j) && w.At(id, j).versionNo == key.versionNo;
    VersionOrder(w, id, i, j);
    VersionOrder(w, id, j, i);
    var n := NewestExists(w, id, i);
    var top := RowKey(vesselId, id, w.At(id, n).versionNo);
    assert w.Sent(id, n) && WellKept(id, w.reports[id]);
    assert rows[top].schemaName == w.At(id, n).schemaName == w.At(id, i).schemaName == rows[key].schemaName;
    VersionOrder(w, id, n, i);
  }

  /** Once the office holds what was sent, the two chains have the same versions
      exactly when the newest committed version of every report was sent. */
  lemma ChainsAgreeIff(w: Vessel, rows: map<RowKey, Row>, vesselId: string)
    requires Valid(w) && Mirrors(w, rows, vesselId)
    ensures ChainsAgree(w, rows, vesselId) <==> NewestSent(w)
  {
    if NewestSent(w) {
      forall schemaName, id, i | w.Has(id, i)
        ensures VesselLists(w, schemaName, id, i) <==>
                OfficeLists(rows, vesselId, schemaName, RowKey(vesselId, id, w.At(id, i).versionNo))
      {
        ListsNewest(w, schemaName, id, i);
        SentIsListed(w, rows, vesselId, schemaName, id, i);
      }
    } else {
      var id, i :| NewestCommitted(w, id, i) && !w.Sent(id, i);
      ListsNewest(w, w.At(id, i).schemaName, id, i);
      UnsentIsNotListed(w, rows, vesselId, id, i);
    }
  }

  lemma UnsentIsNotListed(w: Vessel, rows: map<RowKey, Row>, vesselId: string, id: string, i: int)
    requires Valid(w) && Mirrors(w, rows, vesselId) && w.Has(id, i) && !w.Sent(id, i)
    ensures RowKey(vesselId, id, w.At(id, i).versionNo) !in rows
  {
  }

  // ---- Runs of the vessel ----

  datatype Event =
    | Create(draft: Version)
    | On(id: string, index: nat, step: Laws.Step)
    | Correct(reportId: string, actor: string, now: Instant)
    | Receive(notice: Inbox.Notice)

  ghost predicate Allowed(w: Vessel, e: Event) {
    match e
    case Create(v) => v.reportId !in w.reports && v.state == Draft && forall n :: (v.reportId, n) !in w.sent
    case On(id, i, step) => w.Has(id, i) && Laws.Guarded(w.At(id, i), step)
    case Correct(id, _, _) => id in w.reports
    case Receive(n) => n.reportId in w.reports ==> w.reports[n.reportId] != []
  }

  /** Submitting sends a version; so does the vessel's own cascade when it
      invalidates one that was committed before. */
  predicate Sends(before: Version, step: Laws.Step, after: Version) {
    match step
    case SubmitBy(_, _) => before.state == Ready
    case Break(_, _) => after.invalidatedFrom.Some? && after.invalidatedFrom.value.InChain()
    case _ => false
  }

  function Updated(w: Vessel, id: string, i: nat, step: Laws.Step, parse: Clock): Vessel
    requires w.Has(id, i)
  {
    var before := w.At(id, i);
    var after := Laws.Next(before, step, parse);
    Vessel(w.reports[id := w.reports[id][i := after]],
           w.sent + if Sends(before, step, after) then {(id, before.versionNo)} else {})
  }

  function Corrected(versions: seq<Version>, actor: string, now: Instant): seq<Version> {
    if versions != [] && versions[|versions| - 1].state.InChain()
    then versions + [CorrectionOf(versions[|versions| - 1], actor, now)]
    else versions
  }

  ghost function Next(w: Vessel, e: Event, parse: Clock): Vessel
    requires Allowed(w, e)
  {
    match e
    case Create(v) => w.(reports := w.reports[v.reportId := [v]])
    case On(id, i, step) => Updated(w, id, i, step, parse)
    case Correct(id, actor, now) => w.(reports := w.reports[id := Corrected(w.reports[id], actor, now)])
    case Receive(n) => w.(reports := Inbox.NoticeApplied(w.reports, n))
  }

  lemma StepKeepsIdentity(v: Version, step: Laws.Step, parse: Clock)
    requires Laws.Guarded(v, step)
    ensures var after := Laws.Next(v, step, parse);
            && after.reportId == v.reportId && after.versionNo == v.versionNo && after.schemaName == v.schemaName
            && (v.state.InChain() ==> after.state.InChain())
            && (after.state.InChain() && !v.state.InChain() ==> Sends(v, step, after))
            && (Sends(v, step, after) ==> after.state.InChain())
  {
  }

  /** One version replaced by one of the same identity, no less committed. */
  lemma ReplacedKeepsValid(w: Vessel, id: string, i: nat, after: Version, more: set<(string, int)>)
    requires Valid(w) && w.Has(id, i) && WellKept(id, w.reports[id])
    requires after.reportId == id && after.versionNo == w.At(id, i).versionNo
        && after.schemaName == w.At(id, i).schemaName
    requires (w.At(id, i).state.InChain() ==> after.state.InChain())
    requires more <= (if after.state.InChain() then {(id, after.versionNo)} else {})
    ensures Valid(Vessel(w.reports[id := w.reports[id][i := after]], w.sent + more))
  {
    var t := Vessel(w.reports[id := w.reports[id][i := after]], w.sent + more);
    assert WellKept(id, t.reports[id]);
    forall d, j | t.Has(d, j) && t.Sent(d, j) ensures t.At(d, j).state.InChain() {
      if d == id && j != i { VersionOrder(w, id, i, j); VersionOrder(w, id, j, i); }
      if !(d == id && j == i) { assert w.Has(d, j) && w.At(d, j) == t.At(d, j); }
    }
  }

  lemma UpdateKeepsValid(w: Vessel, id: string, i: nat, step: Laws.Step, parse: Clock)
    requires Valid(w) && w.Has(id, i) && Laws.Guarded(w.At(id, i), step)
    ensures Valid(Updated(w, id, i, step, parse))
  {
    var before := w.At(id, i);
    var after := Laws.Next(before, step, parse);
    StepKeepsIdentity(before, step, parse);
    ReplacedKeepsValid(w, id, i, after, if Sends(before, step, after) then {(id, before.versionNo)} else {});
  }

  lemma CorrectionKeepsValid(w: Vessel, id: string, actor: string, now: Instant)
    requires Valid(w) && id in w.reports && w.reports[id][|w.reports[id]| - 1].state.InChain()
    requires forall n :: n > w.reports[id][|w.reports[id]| - 1].versionNo ==> (id, n) !in w.sent
    ensures Valid(w.(reports := w.reports[id := Corrected(w.reports[id], actor, now)]))
  {
    var t := w.(reports := w.reports[id := Corrected(w.reports[id], actor, now)]);
    assert WellKept(id, t.reports[id]);
    forall d, j | t.Has(d, j) && t.Sent(d, j) ensures t.At(d, j).state.InChain() {
      if w.Has(d, j) { assert w.At(d, j) == t.At(d, j); }
    }
  }

  /** Nothing was sent that the vessel does not have. */
  ghost predicate SentExists(w: Vessel) {
    forall id, n :: (id, n) in w.sent ==> exists i :: w.Has(id, i) && w.At(id, i).versionNo == n
  }

  lemma NothingSentBeyond(w: Vessel, id: string)
    requires Valid(w) && SentExists(w) && id in w.reports
    ensures forall n :: n > w.reports[id][|w.reports[id]| - 1].versionNo ==> (id, n) !in w.sent
  {
    forall n | (id, n) in w.sent ensures n <= w.reports[id][|w.reports[id]| - 1].versionNo {
      var i :| w.Has(id, i) && w.At(id, i).versionNo == n;
      VersionOrder(w, id, i, |w.reports[id]| - 1);
    }
  }

  ghost predicate Kept(w: Vessel, t: Vessel) {
    && w.sent <= t.sent
    && forall id, i :: w.Has(id, i) ==> t.Has(id, i) && t.At(id, i).versionNo == w.At(id, i).versionNo
  }

  lemma KeptSentExists(w: Vessel, t: Vessel)
    requires SentExists(w) && Kept(w, t)
    requires forall id, n :: (id, n) in t.sent && (id, n) !in w.sent ==>
        exists i :: t.Has(id, i) && t.At(id, i).versionNo == n
    ensures SentExists(t)
  {
    forall id, n | (id, n) in t.sent ensures exists i :: t.Has(id, i) && t.At(id, i).versionNo == n {
      if (id, n) in w.sent {
        var i :| w.Has(id, i) && w.At(id, i).versionNo == n;
        assert t.Has(id, i) && t.At(id, i).versionNo == n;
      }
    }
  }

  lemma NoticeKeepsValid(w: Vessel, n: Inbox.Notice)
    requires Valid(w)
    ensures Valid(w.(reports := Inbox.NoticeApplied(w.reports, n)))
  {
    if Inbox.Applies(w.reports, n) {
      var last := |w.reports[n.reportId]| - 1;
      var after := AfterInvalidate(w.At(n.reportId, last), n.brokenRules, n.computedAt);
      ReplacedKeepsValid(w, n.reportId, last, after, {});
      assert w.sent + {} == w.sent;
    }
  }

  lemma CreationKeepsValid(w: Vessel, v: Version)
    requires Valid(w) && SentExists(w) && v.reportId !in w.reports && v.state == Draft
    requires forall n :: (v.reportId, n) !in w.sent
    ensures var t := w.(reports := w.reports[v.reportId := [v]]); Valid(t) && SentExists(t)
  {
    var t := w.(reports := w.reports[v.reportId := [v]]);
    assert WellKept(v.reportId, t.reports[v.reportId]);
    forall id, i | t.Has(id, i) && t.Sent(id, i) ensures t.At(id, i).state.InChain() {
      assert id != v.reportId && w.Has(id, i);
    }
    KeptSentExists(w, t);
  }

  lemma UpdateKeepsSentExists(w: Vessel, id: string, i: nat, step: Laws.Step, parse: Clock)
    requires Valid(w) && SentExists(w) && w.Has(id, i) && Laws.Guarded(w.At(id, i), step)
    ensures SentExists(Updated(w, id, i, step, parse))
  {
    var t := Updated(w, id, i, step, parse);
    StepKeepsIdentity(w.At(id, i), step, parse);
    assert t.Has(id, i) && t.At(id, i).versionNo == w.At(id, i).versionNo;
    KeptSentExists(w, t);
  }

  lemma StepKeepsValid(w: Vessel, e: Event, parse: Clock)
    requires Valid(w) && SentExists(w) && Allowed(w, e)
    ensures Valid(Next(w, e, parse)) && SentExists(Next(w, e, parse))
  {
    match e
    case Create(v) => CreationKeepsValid(w, v);
    case On(id, i, step) =>
      UpdateKeepsValid(w, id, i, step, parse);
      UpdateKeepsSentExists(w, id, i, step, parse);
    case Correct(id, actor, now) =>
      NothingSentBeyond(w, id);
      if w.reports[id][|w.reports[id]| - 1].state.InChain() {
        CorrectionKeepsValid(w, id, actor, now);
      } else {
        assert w.reports[id := w.reports[id]] == w.reports;
      }
      KeptSentExists(w, Next(w, e, parse));
    case Receive(n) =>
      NoticeKeepsValid(w, n);
      KeptSentExists(w, Next(w, e, parse));
  }

  // ---- Which events keep the chains in agreement ----

  /** A notice that finds the report's latest version committed, or no such report. */
  ghost predicate FindsCommitted(w: Vessel, e: Event)
    requires Allowed(w, e)
  {
    e.Receive? && e.notice.reportId in w.reports ==> Inbox.Latest(w.reports, e.notice.reportId).state.InChain()
  }

  lemma NoticeOnCommitted(w: Vessel, n: Inbox.Notice)
    requires Valid(w) && NewestSent(w) && n.reportId in w.reports && Inbox.Latest(w.reports, n.reportId).state.InChain()
    ensures NewestSent(w.(reports := Inbox.NoticeApplied(w.reports, n)))
  {
    var t := w.(reports := Inbox.NoticeApplied(w.reports, n));
    forall id, i | NewestCommitted(t, id, i) ensures t.Sent(id, i) {
      SameStages(w, t, id, i);
    }
  }

  /** Committed versions are committed in both, under the same numbers. */
  ghost predicate SameCommitted(w: Vessel, t: Vessel, id: string) {
    && (forall j :: w.Has(id, j) <==> t.Has(id, j))
    && forall j :: w.Has(id, j) ==>
         t.At(id, j).versionNo == w.At(id, j).versionNo
             && (t.At(id, j).state.InChain() <==> w.At(id, j).state.InChain())
  }

  lemma SameStages(w: Vessel, t: Vessel, id: string, i: int)
    requires SameCommitted(w, t, id) && NewestCommitted(t, id, i)
    ensures NewestCommitted(w, id, i)
  {
  }

  lemma NoticeOnDraft(w: Vessel, n: Inbox.Notice)
    requires Valid(w) && n.reportId in w.reports && !Inbox.Latest(w.reports, n.reportId).state.InChain()
    ensures !NewestSent(w.(reports := Inbox.NoticeApplied(w.reports, n)))
  {
    var t := w.(reports := Inbox.NoticeApplied(w.reports, n));
    var last := |w.reports[n.reportId]| - 1;
    assert w.Has(n.reportId, last) && !w.Sent(n.reportId, last);
    assert NewestCommitted(t, n.reportId, last) && !t.Sent(n.reportId, last);
  }

  lemma UpdateKeepsNewestSent(w: Vessel, id: string, i: nat, step: Laws.Step, parse: Clock)
    requires Valid(w) && NewestSent(w) && w.Has(id, i) && Laws.Guarded(w.At(id, i), step)
    ensures NewestSent(Updated(w, id, i, step, parse))
  {
    var t := Updated(w, id, i, step, parse);
    StepKeepsIdentity(w.At(id, i), step, parse);
    forall d, j | NewestCommitted(t, d, j) ensures t.Sent(d, j) {
      if d != id {
        SameStages(w, t, d, j);
      } else if j != i || w.At(id, i).state.InChain() {
        assert w.Has(id, j) && w.At(id, j).state.InChain();
        assert forall k :: j < k && w.Has(id, k) ==> !t.At(id, k).state.InChain();
        assert NewestCommitted(w, id, j);
      }
    }
  }

  lemma CorrectionKeepsNewestSent(w: Vessel, id: string, actor: string, now: Instant)
    requires Valid(w) && NewestSent(w) && id in w.reports
    ensures NewestSent(w.(reports := w.reports[id := Corrected(w.reports[id], actor, now)]))
  {
    var t := w.(reports := w.reports[id := Corrected(w.reports[id], actor, now)]);
    forall d, j | NewestCommitted(t, d, j) ensures t.Sent(d, j) {
      assert w.Has(d, j) && w.At(d, j) == t.At(d, j);
      forall k | j < k && w.Has(d, k) ensures !w.At(d, k).state.InChain() { assert w.At(d, k) == t.At(d, k); }
      assert NewestCommitted(w, d, j);
    }
  }

  /** Chains that agree still do after an event exactly when the event is not a
      notice that finds a draft on top. */
  lemma StepKeepsAgreementIff(w: Vessel, e: Event, parse: Clock)
    requires Valid(w) && NewestSent(w) && Allowed(w, e)
    ensures NewestSent(Next(w, e, parse)) <==> FindsCommitted(w, e)
  {
    match e
    case Create(v) =>
      var t := Next(w, e, parse);
      forall id, i | NewestCommitted(t, id, i) ensures t.Sent(id, i) {
        assert id != v.reportId;
        SameStages(w, t, id, i);
      }
    case On(id, i, step) => UpdateKeepsNewestSent(w, id, i, step, parse);
    case Correct(id, actor, now) => CorrectionKeepsNewestSent(w, id, actor, now);
    case Receive(n) =>
      if n.reportId !in w.reports {
      } else if Inbox.Latest(w.reports, n.reportId).state.InChain() {
        NoticeOnCommitted(w, n);
      } else {
        NoticeOnDraft(w, n);
      }
  }

  /** The states along a run from an empty vessel. */
  ghost predicate Run(states: seq<Vessel>, events: seq<Event>, parse: Clock) {
    && |states| == |events| + 1 && states[0] == Vessel(map[], {})
    && forall i :: 0 <= i < |events| ==>
        Allowed(states[i], events[i]) && states[i + 1] == Next(states[i], events[i], parse)
  }

  lemma {:induction false} RunsKeepValid(states: seq<Vessel>, events: seq<Event>, parse: Clock, n: nat)
    requires Run(states, events, parse) && n <= |events|
    ensures Valid(states[n]) && SentExists(states[n])
  {
    if n > 0 {
      RunsKeepValid(states, events, parse, n - 1);
      StepKeepsValid(states[n - 1], events[n - 1], parse);
    }
  }

  lemma {:induction false} AgreesUpTo(states: seq<Vessel>, events: seq<Event>, parse: Clock, n: nat)
    requires Run(states, events, parse) && n <= |events|
    requires forall i :: 0 <= i < |events| ==> FindsCommitted(states[i], events[i])
    ensures NewestSent(states[n])
  {
    if n > 0 {
      AgreesUpTo(states, events, parse, n - 1);
      RunsKeepValid(states, events, parse, n - 1);
      StepKeepsAgreementIff(states[n - 1], events[n - 1], parse);
    }
  }

  /** Whatever committed states the office has the sent versions in, the chains agree. */
  ghost predicate AgreesWithOffice(w: Vessel, vesselId: string) {
    forall rows :: Mirrors(w, rows, vesselId) ==> ChainsAgree(w, rows, vesselId)
  }

  lemma OfficeExists(w: Vessel, vesselId: string) returns (rows: map<RowKey, Row>)
    requires Valid(w) && SentExists(w)
    ensures Mirrors(w, rows, vesselId)
  {
    rows := map s | s in w.sent && s.0 in w.reports && w.reports[s.0] != [] ::
      RowKey(vesselId, s.0, s.1) := Row(w.reports[s.0][0].schemaName, "", Submitted, 0, map[], None);
    forall id, i | w.Has(id, i) && w.Sent(id, i)
      ensures var key := RowKey(vesselId, id, w.At(id, i).versionNo);
              key in rows && rows[key].schemaName == w.At(id, i).schemaName && rows[key].state.InChain()
    {
      assert (id, w.At(id, i).versionNo) in w.sent && WellKept(id, w.reports[id]);
    }
    forall k | k in rows && k.vesselId == vesselId
      ensures exists i :: w.Has(k.reportId, i) && w.Sent(k.reportId, i) && w.At(k.reportId, i).versionNo == k.versionNo
    {
      assert (k.reportId, k.versionNo) in w.sent;
    }
  }

  lemma AgreesIffNewestSent(w: Vessel, vesselId: string)
    requires Valid(w) && SentExists(w)
    ensures AgreesWithOffice(w, vesselId) <==> NewestSent(w)
  {
    forall rows | Mirrors(w, rows, vesselId) ensures ChainsAgree(w, rows, vesselId) <==> NewestSent(w) {
      ChainsAgreeIff(w, rows, vesselId);
    }
    var office := OfficeExists(w, vesselId);
    assert Mirrors(w, office, vesselId);
  }

  /** Over any run of creating, editing, checking, submitting, correcting,
      synchronising, remarking and invalidating: the two chains agree at every
      point, with an office that holds what was sent by then, exactly when every
      notice received found its report's latest version committed. */
  lemma AlwaysAgreeIff(states: seq<Vessel>, events: seq<Event>, parse: Clock, vesselId: string)
    requires Run(states, events, parse)
    ensures (forall i :: 0 <= i <= |events| ==> AgreesWithOffice(states[i], vesselId)) <==>
            forall i :: 0 <= i < |events| ==> FindsCommitted(states[i], events[i])
  {
    forall i | 0 <= i <= |events|
      ensures Valid(states[i]) && (AgreesWithOffice(states[i], vesselId) <==> NewestSent(states[i]))
    {
      RunsKeepValid(states, events, parse, i);
      AgreesIffNewestSent(states[i], vesselId);
    }
    if forall i :: 0 <= i < |events| ==> FindsCommitted(states[i], events[i]) {
      forall i | 0 <= i <= |events| ensures NewestSent(states[i]) {
        AgreesUpTo(states, events, parse, i);
      }
    }
    if forall i :: 0 <= i <= |events| ==> AgreesWithOffice(states[i], vesselId) {
      forall i | 0 <= i < |events| ensures FindsCommitted(states[i], events[i]) {
        assert AgreesWithOffice(states[i], vesselId) && AgreesWithOffice(states[i + 1], vesselId);
        StepKeepsAgreementIff(states[i], events[i], parse);
      }
    }
  }
}
