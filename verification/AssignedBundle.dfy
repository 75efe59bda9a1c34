// Which published bundle a vessel is assigned, what a pull delivers, and which
// bundle ends up in force aboard.
module AssignedBundle {
  import opened Prelude
  import opened Scopes

  type BundleId = string

  // ---- The assignment that applies ----

  function Any(): BundleId -> bool {
    (_: BundleId) => true
  }

  /** Bundles are not ranked: the first covering group's stands. */
  function Unranked(): (BundleId, BundleId) -> bool {
    (_: BundleId, _: BundleId) => false
  }

  function Itself(): BundleId -> BundleId {
    (b: BundleId) => b
  }

  function FirstPick(all: seq<Scoped<BundleId>>, scope: Scope): Option<BundleId> {
    if all == [] then None else if all[0].scope == scope then Some(all[0].content) else FirstPick(all[1..], scope)
  }

  /** The first assignment to the vessel, else the first to one of its groups, else the first to the fleet. */
  function Assigned(all: seq<Scoped<BundleId>>, vessel: string, groups: seq<string>): Option<BundleId> {
    if FirstPick(all, VesselScope(vessel)).Some? then FirstPick(all, VesselScope(vessel))
    else if GroupPicks(all, groups) != [] then Some(GroupPicks(all, groups)[0])
    else FirstPick(all, FleetScope)
  }

  method FindScope(all: seq<Scoped<BundleId>>, scope: Scope) returns (r: Option<BundleId>)
    ensures r == FirstPick(all, scope)
  {
    for i := 0 to |all|
      invariant FirstPick(all, scope) == FirstPick(all[i..], scope)
    {
      if all[i].scope == scope { return Some(all[i].content); }
    }
    return None;
  }

  /** Three scans: vessel, then groups, then fleet; each takes the first match. */
  method ResolveAssignment(all: seq<Scoped<BundleId>>, vessel: string, groups: seq<string>)
    returns (r: Option<BundleId>)
    ensures r == Assigned(all, vessel, groups)
  {
    r := FindScope(all, VesselScope(vessel));
    if r.Some? { return; }
    for i := 0 to |all|
      invariant GroupPicks(all[..i], groups) == []
    {
      assert all[..i + 1][..i] == all[..i];
      if all[i].scope.GroupScope? && all[i].scope.group in groups {
        assert all == all[..i + 1] + all[i + 1..];
        GroupPicksJoin(all[..i + 1], all[i + 1..], groups);
        return Some(all[i].content);
      }
    }
    assert all[..|all|] == all;
    r := FindScope(all, FleetScope);
  }

  // ---- Precedence, and when it decides ----

  lemma {:induction false} FirstPickMember(all: seq<Scoped<BundleId>>, scope: Scope)
    ensures FirstPick(all, scope).Some? ==> Scoped(scope, FirstPick(all, scope).value) in all
    ensures FirstPick(all, scope).None? ==> forall a :: a in all ==> a.scope != scope
  {
    if all != [] {
      FirstPickMember(all[1..], scope);
      assert forall a :: a in all <==> a == all[0] || a in all[1..];
    }
  }

  lemma FirstIsOnly(all: seq<Scoped<BundleId>>, scope: Scope)
    requires UniqueScopes(all)
    ensures FirstPick(all, scope) == ScopePick(all, scope)
  {
    FirstPickMember(all, scope);
    ScopePickMember(all, scope);
    if FirstPick(all, scope).Some? { ScopePickIff(all, scope, FirstPick(all, scope).value); }
  }

  /** With one assignment per scope this is the common resolution, with no group stricter than another. */
  lemma AssignedIsResolved(all: seq<Scoped<BundleId>>, vessel: string, groups: seq<string>)
    requires UniqueScopes(all)
    ensures Assigned(all, vessel, groups) == Resolve(all, vessel, groups, Any(), Unranked())
  {
    FirstIsOnly(all, VesselScope(vessel));
    FirstIsOnly(all, FleetScope);
    var picks := GroupPicks(all, groups);
    if picks != [] {
      assert picks == [picks[0]] + picks[1..];
      FirstTopWins(picks[0], picks[1..], Any(), Unranked());
    }
  }

  lemma AllTop(picks: seq<BundleId>, b: BundleId)
    ensures Top(picks, Any(), Unranked(), b) <==> b in picks
  {
  }

  /** However the same assignments are listed, the vessel is assigned the same bundle. */
  ghost predicate Determined(all: seq<Scoped<BundleId>>, vessel: string, groups: seq<string>) {
    forall other :: multiset(other) == multiset(all) ==>
        Assigned(other, vessel, groups) == Assigned(all, vessel, groups)
  }

  lemma DeterminedIsOrderFree(all: seq<Scoped<BundleId>>, vessel: string, groups: seq<string>)
    requires UniqueScopes(all)
    ensures Determined(all, vessel, groups) <==> OrderFree(all, vessel, groups, Any(), Unranked(), Itself())
  {
    AssignedIsResolved(all, vessel, groups);
    forall other | multiset(other) == multiset(all)
      ensures Assigned(other, vessel, groups) == Assigned(all, vessel, groups) <==>
              Aspect(Resolve(other, vessel, groups, Any(), Unranked()), Itself())
              == Aspect(Resolve(all, vessel, groups, Any(), Unranked()), Itself())
    {
      UniqueScopesPermute(all, other);
      AssignedIsResolved(other, vessel, groups);
    }
  }

  /** The assignments are listed in no particular order: a vessel's bundle is
      determined exactly when it has one of its own or all its groups' agree. */
  lemma AssignmentDeterminedIff(all: seq<Scoped<BundleId>>, vessel: string, groups: seq<string>)
    requires UniqueScopes(all)
    ensures Determined(all, vessel, groups) <==>
            || (exists b :: Scoped(VesselScope(vessel), b) in all)
            || forall a, b :: a in GroupPicks(all, groups) && b in GroupPicks(all, groups) ==> a == b
  {
    DeterminedIsOrderFree(all, vessel, groups);
    OrderFreeIff(all, vessel, groups, Any(), Unranked(), Itself());
    SaysIff(all, VesselScope(vessel), Any());
    var picks := GroupPicks(all, groups);
    forall b ensures Top(picks, Any(), Unranked(), b) <==> b in picks { AllTop(picks, b); }
    if TopAgree(picks, Any(), Unranked(), Itself()) {
      forall a, b | a in picks && b in picks ensures a == b {
        assert Itself()(a) == Itself()(b);
      }
    }
  }

  // ---- Pulling it ----

  datatype PullAnswer = Nothing | Deliver(bundle: BundleId, number: int) | NotFound

  /** Every published bundle has its number, in order of publication. */
  type Published = map<BundleId, int>

  function Pull(all: seq<Scoped<BundleId>>, published: Published, vessel: string, groups: seq<string>,
                since: int): PullAnswer
  {
    match Assigned(all, vessel, groups)
    case None => Nothing
    case Some(b) =>
      if b !in published then NotFound
      else if published[b] <= since then Nothing
      else Deliver(b, published[b])
  }

  method PullAssignedBundle(all: seq<Scoped<BundleId>>, published: Published, vessel: string, groups: seq<string>,
                            since: int)
    returns (answer: PullAnswer)
    ensures answer == Pull(all, published, vessel, groups, since)
  {
    var match_ := ResolveAssignment(all, vessel, groups);
    if match_.None? { return Nothing; }
    if match_.value !in published { return NotFound; }
    var number := published[match_.value];
    if number <= since { return Nothing; }
    return Deliver(match_.value, number);
  }

  // ---- Runs ----

  datatype Event =
    | Publish(bundle: BundleId, gap: nat)
    | Assign(scope: Scope, chosen: BundleId)
    | Sync(arrives: bool)

  /** The office's bundles and assignments; one vessel's cursor and stored bundles by number. */
  datatype World = World(published: Published, last: int, all: seq<Scoped<BundleId>>, cursor: int,
                         aboard: map<int, BundleId>)

  function Upsert(all: seq<Scoped<BundleId>>, scope: Scope, b: BundleId): seq<Scoped<BundleId>> {
    if all == [] then [Scoped(scope, b)]
    else if all[0].scope == scope then [Scoped(scope, b)] + all[1..]
    else [all[0]] + Upsert(all[1..], scope, b)
  }

  /** A bundle already stored is not stored again. */
  function Stored(aboard: map<int, BundleId>, b: BundleId, number: int): map<int, BundleId> {
    if exists n :: n in aboard && aboard[n] == b then aboard else aboard[number := b]
  }

  function Next(w: World, e: Event, vessel: string, groups: seq<string>): World {
    match e
    case Publish(b, gap) =>
      if b in w.published then w else w.(published := w.published[b := w.last + 1 + gap], last := w.last + 1 + gap)
    case Assign(scope, b) => if b in w.published then w.(all := Upsert(w.all, scope, b)) else w
    case Sync(arrives) =>
      var answer := Pull(w.all, w.published, vessel, groups, w.cursor);
      if !arrives || !answer.Deliver? then w
      else w.(cursor := answer.number, aboard := Stored(w.aboard, answer.bundle, answer.number))
  }

  function After(w: World, events: seq<Event>, vessel: string, groups: seq<string>): World {
    if events == [] then w else Next(After(w, events[..|events| - 1], vessel, groups), events[|events| - 1], vessel,
                                     groups)
  }

  const START := World(map[], 0, [], 0, map[])

  /** The stored bundle of the greatest number. */
  ghost predicate InForce(w: World, b: BundleId) {
    exists n :: n in w.aboard && w.aboard[n] == b && forall m :: m in w.aboard ==> m <= n
  }

  /** Bundles have different numbers, none past the last. */
  ghost predicate Numbered(w: World) {
    && (forall b :: b in w.published ==> 0 < w.published[b] <= w.last)
    && forall b, c :: b in w.published && c in w.published && w.published[b] == w.published[c] ==> b == c
  }

  /** Stored bundles are under their own numbers, none past the cursor, which names one of them. */
  ghost predicate StoredUpToCursor(w: World) {
    && (forall n :: n in w.aboard ==> w.aboard[n] in w.published && w.published[w.aboard[n]] == n && n <= w.cursor)
    && 0 <= w.cursor <= w.last
    && (w.cursor > 0 ==> w.cursor in w.aboard)
  }

  ghost predicate Consistent(w: World) {
    Numbered(w) && StoredUpToCursor(w)
  }

  lemma PublishKeepsConsistent(w: World, b: BundleId, gap: nat)
    requires Consistent(w) && b !in w.published
    ensures Consistent(w.(published := w.published[b := w.last + 1 + gap], last := w.last + 1 + gap))
  {
  }

  lemma DeliveryKeepsConsistent(w: World, b: BundleId)
    requires Consistent(w) && b in w.published && w.published[b] > w.cursor
    ensures Consistent(w.(cursor := w.published[b], aboard := Stored(w.aboard, b, w.published[b])))
  {
    assert forall n :: n in w.aboard ==> w.aboard[n] != b;
    assert Stored(w.aboard, b, w.published[b]) == w.aboard[w.published[b] := b];
  }

  lemma StepKeepsConsistent(w: World, e: Event, vessel: string, groups: seq<string>)
    requires Consistent(w)
    ensures Consistent(Next(w, e, vessel, groups))
    ensures Next(w, e, vessel, groups).cursor >= w.cursor
    ensures forall b :: b in w.published ==>
        b in Next(w, e, vessel, groups).published && Next(w, e, vessel, groups).published[b] == w.published[b]
  {
    match e
    case Publish(b, gap) => if b !in w.published { PublishKeepsConsistent(w, b, gap); }
    case Assign(scope, b) =>
    case Sync(arrives) =>
      var answer := Pull(w.all, w.published, vessel, groups, w.cursor);
      if answer.Deliver? { DeliveryKeepsConsistent(w, answer.bundle); }
  }

  lemma {:induction false} RunsKeepConsistent(w: World, events: seq<Event>, vessel: string, groups: seq<string>)
    requires Consistent(w)
    ensures var t := After(w, events, vessel, groups);
            && Consistent(t) && t.cursor >= w.cursor
            && forall b :: b in w.published ==> b in t.published && t.published[b] == w.published[b]
  {
    if events != [] {
      RunsKeepConsistent(w, events[..|events| - 1], vessel, groups);
      StepKeepsConsistent(After(w, events[..|events| - 1], vessel, groups), events[|events| - 1], vessel, groups);
    }
  }

  lemma InForceIff(w: World, b: BundleId)
    requires Consistent(w)
    ensures InForce(w, b) <==> b in w.published && w.published[b] == w.cursor && w.cursor > 0
  {
    if b in w.published && w.published[b] == w.cursor && w.cursor > 0 {
      assert w.aboard[w.cursor] == b;
    }
    if InForce(w, b) {
      var n :| n in w.aboard && w.aboard[n] == b && forall m :: m in w.aboard ==> m <= n;
      assert w.cursor in w.aboard;
    }
  }

  /** After a sync that arrives, the vessel runs the bundle it is assigned
      exactly when that bundle is not older than what it ran before. */
  lemma AssignedInForceIff(w: World, vessel: string, groups: seq<string>, b: BundleId)
    requires Consistent(w) && Assigned(w.all, vessel, groups) == Some(b) && b in w.published
    ensures InForce(Next(w, Sync(true), vessel, groups), b) <==> w.published[b] >= w.cursor
  {
    var t := Next(w, Sync(true), vessel, groups);
    StepKeepsConsistent(w, Sync(true), vessel, groups);
    InForceIff(t, b);
  }

  /** A bundle older than one the vessel has run never comes into force again,
      however the bundle is assigned and whatever is published or pulled. */
  lemma OlderBundlesNeverReturn(w: World, events: seq<Event>, vessel: string, groups: seq<string>, b: BundleId)
    requires Consistent(w) && b in w.published && w.published[b] < w.cursor
    ensures !InForce(After(w, events, vessel, groups), b)
  {
    RunsKeepConsistent(w, events, vessel, groups);
    InForceIff(After(w, events, vessel, groups), b);
  }

  /** In every run from an empty system the bundle in force is the one the cursor names. */
  lemma RunsNameTheBundleInForce(events: seq<Event>, vessel: string, groups: seq<string>, b: BundleId)
    ensures var w := After(START, events, vessel, groups);
            InForce(w, b) <==> b in w.published && w.published[b] == w.cursor && w.cursor > 0
  {
    RunsKeepConsistent(START, events, vessel, groups);
    InForceIff(After(START, events, vessel, groups), b);
  }
}
