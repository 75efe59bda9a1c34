// Assigning a bundle and having it aboard: which assignment decides, what
// assigning changes, and that a newly published bundle gets there.
module BundleDelivery {
  import opened Prelude
  import opened Scopes
  import opened AssignedBundle

  predicate IsFirst(all: seq<Scoped<BundleId>>, i: int, scope: Scope) {
    0 <= i < |all| && all[i].scope == scope && forall j :: 0 <= j < i ==> all[j].scope != scope
  }

  predicate IsFirstGroup(all: seq<Scoped<BundleId>>, i: int, groups: seq<string>) {
    && 0 <= i < |all| && InGroup(all[i], groups)
    && forall j :: 0 <= j < i ==> !InGroup(all[j], groups)
  }

  predicate InGroup(a: Scoped<BundleId>, groups: seq<string>) {
    a.scope.GroupScope? && a.scope.group in groups
  }

  predicate NoneAt(all: seq<Scoped<BundleId>>, scope: Scope) {
    forall a :: a in all ==> a.scope != scope
  }

  predicate NoneInGroups(all: seq<Scoped<BundleId>>, groups: seq<string>) {
    forall a :: a in all ==> !InGroup(a, groups)
  }

  lemma {:induction false} FirstIsPicked(all: seq<Scoped<BundleId>>, scope: Scope, i: int)
    requires IsFirst(all, i, scope)
    ensures FirstPick(all, scope) == Some(all[i].content)
  {
    if i > 0 {
      assert all[0].scope != scope;
      assert forall j :: 0 <= j < i - 1 ==> all[1..][j] == all[j + 1];
      FirstIsPicked(all[1..], scope, i - 1);
    }
  }

  lemma {:induction false} FirstGroupIsPicked(all: seq<Scoped<BundleId>>, groups: seq<string>, i: int)
    requires IsFirstGroup(all, i, groups)
    ensures GroupPicks(all, groups) != [] && GroupPicks(all, groups)[0] == all[i].content
  {
    var n := |all| - 1;
    if i < n {
      FirstGroupIsPicked(all[..n], groups, i);
    } else {
      NoGroupNoPicks(all[..n], groups);
    }
  }

  lemma {:induction false} NoGroupNoPicks(all: seq<Scoped<BundleId>>, groups: seq<string>)
    requires forall j :: 0 <= j < |all| ==> !InGroup(all[j], groups)
    ensures GroupPicks(all, groups) == []
  {
    if all != [] { NoGroupNoPicks(all[..|all| - 1], groups); }
  }

  /** The first assignment to the vessel itself; without one, the first to any
      of its groups; without one, the first to the fleet; or none. */
  lemma AssignedMeaning(all: seq<Scoped<BundleId>>, vessel: string, groups: seq<string>, i: int)
    ensures IsFirst(all, i, VesselScope(vessel)) ==> Assigned(all, vessel, groups) == Some(all[i].content)
    ensures NoneAt(all, VesselScope(vessel)) && IsFirstGroup(all, i, groups) ==>
              Assigned(all, vessel, groups) == Some(all[i].content)
    ensures NoneAt(all, VesselScope(vessel)) && NoneInGroups(all, groups) && IsFirst(all, i, FleetScope) ==>
              Assigned(all, vessel, groups) == Some(all[i].content)
    ensures NoneAt(all, VesselScope(vessel)) && NoneInGroups(all, groups) && NoneAt(all, FleetScope) ==>
              Assigned(all, vessel, groups) == None
  {
    FirstPickMember(all, VesselScope(vessel));
    FirstPickMember(all, FleetScope);
    if IsFirst(all, i, VesselScope(vessel)) { FirstIsPicked(all, VesselScope(vessel), i); }
    if IsFirst(all, i, FleetScope) { FirstIsPicked(all, FleetScope, i); }
    if IsFirstGroup(all, i, groups) { FirstGroupIsPicked(all, groups, i); }
    if NoneInGroups(all, groups) { NoGroupNoPicks(all, groups); }
  }

  /** Assigning changes what one scope has and nothing else. */
  lemma {:induction false} AssigningOneScope(all: seq<Scoped<BundleId>>, scope: Scope, b: BundleId, other: Scope)
    ensures FirstPick(Upsert(all, scope, b), other) == if other == scope then Some(b) else FirstPick(all, other)
  {
    if all != [] && all[0].scope != scope {
      AssigningOneScope(all[1..], scope, b, other);
      assert Upsert(all, scope, b)[1..] == Upsert(all[1..], scope, b);
    } else if all != [] {
      assert Upsert(all, scope, b)[1..] == all[1..];
    } else {
      assert Upsert(all, scope, b)[1..] == [];
    }
  }

  /** A pull delivers the assigned bundle exactly when its number is past the
      cursor, and reports an assigned bundle that does not exist. */
  lemma DeliveredIff(all: seq<Scoped<BundleId>>, published: Published, vessel: string, groups: seq<string>,
                     since: int, b: BundleId, number: int)
    ensures Pull(all, published, vessel, groups, since) == Deliver(b, number) <==>
            && Assigned(all, vessel, groups) == Some(b) && b in published && published[b] == number && number > since
    ensures Pull(all, published, vessel, groups, since) == NotFound <==>
            Assigned(all, vessel, groups).Some? && Assigned(all, vessel, groups).value !in published
  {
  }

  /** Once a sync has arrived, the same assignments bring nothing more. */
  lemma SyncedIsQuiet(w: World, vessel: string, groups: seq<string>)
    requires Consistent(w)
    ensures var t := Next(w, Sync(true), vessel, groups);
            !Pull(t.all, t.published, vessel, groups, t.cursor).Deliver?
            && Next(t, Sync(true), vessel, groups) == t
  {
  }

  /** A bundle just published and assigned to a vessel is in force there after
      the next sync that arrives, whatever happened before. */
  lemma PublishedReachesVessel(w: World, b: BundleId, gap: nat, vessel: string, groups: seq<string>)
    requires Consistent(w) && b !in w.published
    ensures InForce(After(w, [Publish(b, gap), Assign(VesselScope(vessel), b), Sync(true)], vessel, groups), b)
  {
    var events := [Publish(b, gap), Assign(VesselScope(vessel), b), Sync(true)];
    var one := Next(w, events[0], vessel, groups);
    var two := Next(one, events[1], vessel, groups);
    assert events[..2][..1][..0] == [] && events[..2][..1] == [events[0]] && events[..2] == [events[0], events[1]];
    assert After(w, events[..2][..1], vessel, groups) == one;
    assert After(w, events[..2], vessel, groups) == two;
    StepKeepsConsistent(w, events[0], vessel, groups);
    StepKeepsConsistent(one, events[1], vessel, groups);
    AssigningOneScope(one.all, VesselScope(vessel), b, VesselScope(vessel));
    AssignedInForceIff(two, vessel, groups, b);
    assert two.published[b] > w.last >= two.cursor;
  }
}
