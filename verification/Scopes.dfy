// Settings assigned to the fleet, to groups of vessels or to single vessels,
// and which assignment decides for a given vessel.
module Scopes {
  import opened Prelude

  datatype Scope = FleetScope | GroupScope(group: string) | VesselScope(vessel: string)

  datatype Scoped<T> = Scoped(scope: Scope, content: T)

  predicate CoversVessel(scope: Scope, vessel: string, groups: seq<string>) {
    match scope
    case FleetScope => true
    case GroupScope(g) => g in groups
    case VesselScope(v) => v == vessel
  }

  // ---- Resolution ----

  /** The content assigned to exactly this scope; the last one if there are several. */
  function ScopePick<T>(all: seq<Scoped<T>>, scope: Scope): Option<T> {
    if all == [] then None
    else if all[|all| - 1].scope == scope then Some(all[|all| - 1].content)
    else ScopePick(all[..|all| - 1], scope)
  }

  /** What the covering groups assign, in assignment order. */
  function GroupPicks<T>(all: seq<Scoped<T>>, groups: seq<string>): seq<T> {
    if all == [] then []
    else
      var last := all[|all| - 1];
      GroupPicks(all[..|all| - 1], groups)
      + if last.scope.GroupScope? && last.scope.group in groups then [last.content] else []
  }

  /** The first of the strictest among those that say anything. */
  function Strictest<T>(picks: seq<T>, has: T -> bool, stricter: (T, T) -> bool): Option<T> {
    if picks == [] then None
    else
      var before, last := Strictest(picks[..|picks| - 1], has, stricter), picks[|picks| - 1];
      if has(last) && (before.None? || stricter(last, before.value)) then Some(last) else before
  }

  predicate Says<T>(pick: Option<T>, has: T -> bool) {
    pick.Some? && has(pick.value)
  }

  /** The vessel's own assignment if it says anything, else the strictest
      covering group's, else the fleet's. */
  function Resolve<T>(all: seq<Scoped<T>>, vessel: string, groups: seq<string>, has: T -> bool,
                      stricter: (T, T) -> bool): Option<T>
  {
    var own, fleet := ScopePick(all, VesselScope(vessel)), ScopePick(all, FleetScope);
    if Says(own, has) then own
    else
      var group := Strictest(GroupPicks(all, groups), has, stricter);
      if group.Some? then group else if Says(fleet, has) then fleet else None
  }

  // ---- Strictest ----

  ghost predicate StrictOrder<T(!new)>(stricter: (T, T) -> bool) {
    && (forall a :: !stricter(a, a))
    && forall a, b, c :: stricter(a, b) && stricter(b, c) ==> stricter(a, c)
  }

  /** Says something, and no other that does is stricter. */
  ghost predicate Top<T(!new)>(picks: seq<T>, has: T -> bool, stricter: (T, T) -> bool, a: T) {
    a in picks && has(a) && forall x :: x in picks && has(x) ==> !stricter(x, a)
  }

  lemma {:induction false} StrictestMeaning<T(!new)>(picks: seq<T>, has: T -> bool, stricter: (T, T) -> bool)
    requires StrictOrder(stricter)
    ensures var best := Strictest(picks, has, stricter);
            if best.Some? then Top(picks, has, stricter, best.value) else forall x :: x in picks ==> !has(x)
  {
    if picks != [] {
      var front, last := picks[..|picks| - 1], picks[|picks| - 1];
      StrictestMeaning(front, has, stricter);
      assert forall x :: x in picks <==> x in front || x == last;
    }
  }

  lemma {:induction false} FirstTopWins<T(!new)>(a: T, rest: seq<T>, has: T -> bool, stricter: (T, T) -> bool)
    requires has(a) && forall x :: x in rest && has(x) ==> !stricter(x, a)
    ensures Strictest([a] + rest, has, stricter) == Some(a)
  {
    var all := [a] + rest;
    if rest == [] {
      assert all[..0] == [];
    } else {
      assert all[..|all| - 1] == [a] + rest[..|rest| - 1];
      FirstTopWins(a, rest[..|rest| - 1], has, stricter);
      assert rest[|rest| - 1] in rest;
    }
  }

  // ---- One assignment per scope ----

  ghost predicate UniqueScopes<T>(all: seq<Scoped<T>>) {
    forall i, j :: 0 <= i < j < |all| ==> all[i].scope != all[j].scope
  }

  lemma {:induction false} ScopePickMember<T(!new)>(all: seq<Scoped<T>>, scope: Scope)
    ensures ScopePick(all, scope).Some? ==> Scoped(scope, ScopePick(all, scope).value) in all
    ensures ScopePick(all, scope).None? ==> forall a :: a in all ==> a.scope != scope
  {
    if all != [] {
      ScopePickMember(all[..|all| - 1], scope);
      assert forall a :: a in all <==> a in all[..|all| - 1] || a == all[|all| - 1];
    }
  }

  lemma ScopePickIff<T(!new)>(all: seq<Scoped<T>>, scope: Scope, content: T)
    requires UniqueScopes(all)
    ensures ScopePick(all, scope) == Some(content) <==> Scoped(scope, content) in all
  {
    ScopePickMember(all, scope);
  }

  lemma {:induction false} GroupPicksMember<T(!new)>(all: seq<Scoped<T>>, groups: seq<string>, content: T)
    ensures content in GroupPicks(all, groups) <==> exists g :: g in groups && Scoped(GroupScope(g), content) in all
  {
    if all != [] {
      var front, last := all[..|all| - 1], all[|all| - 1];
      GroupPicksMember(front, groups, content);
      assert forall a :: a in all <==> a in front || a == last;
      if content in GroupPicks(all, groups) && content !in GroupPicks(front, groups) {
        assert last == Scoped(GroupScope(last.scope.group), content);
      }
    }
  }

  lemma {:induction false} GroupPicksJoin<T>(a: seq<Scoped<T>>, b: seq<Scoped<T>>, groups: seq<string>)
    ensures GroupPicks(a + b, groups) == GroupPicks(a, groups) + GroupPicks(b, groups)
  {
    if b == [] {
      assert a + b == a;
    } else {
      assert (a + b)[..|a + b| - 1] == a + b[..|b| - 1];
      GroupPicksJoin(a, b[..|b| - 1], groups);
    }
  }

  lemma UniqueScopesPermute<T(!new)>(a: seq<Scoped<T>>, b: seq<Scoped<T>>)
    requires multiset(a) == multiset(b) && UniqueScopes(a)
    ensures UniqueScopes(b)
  {
    SameElements(a, b);
    forall i, j | 0 <= i < j < |b| ensures b[i].scope != b[j].scope {
      if b[i] == b[j] {
        TwoPositions(b, i, j);
        var p, q := TwiceInSeq(a, b[i]);
      } else {
        assert b[i] in b && b[j] in b;
        var p :| 0 <= p < |a| && a[p] == b[i];
        var q :| 0 <= q < |a| && a[q] == b[j];
      }
    }
  }

  lemma SamePicks<T(!new)>(a: seq<Scoped<T>>, b: seq<Scoped<T>>, scope: Scope)
    requires multiset(a) == multiset(b) && UniqueScopes(a)
    ensures ScopePick(a, scope) == ScopePick(b, scope)
  {
    SameElements(a, b);
    UniqueScopesPermute(a, b);
    ScopePickMember(a, scope);
    ScopePickMember(b, scope);
    if ScopePick(b, scope).Some? { ScopePickIff(a, scope, ScopePick(b, scope).value); }
  }

  lemma SameGroupMembers<T(!new)>(a: seq<Scoped<T>>, b: seq<Scoped<T>>, groups: seq<string>)
    requires multiset(a) == multiset(b)
    ensures forall c :: c in GroupPicks(a, groups) <==> c in GroupPicks(b, groups)
  {
    SameElements(a, b);
    forall c ensures c in GroupPicks(a, groups) <==> c in GroupPicks(b, groups) {
      GroupPicksMember(a, groups, c);
      GroupPicksMember(b, groups, c);
    }
  }

  // ---- What a resolution is, said without any order ----

  /** The resolved content: the vessel's own if it says anything; else one of
      the strictest the covering groups say; else the fleet's if it says anything. */
  ghost predicate IsResolved<T(!new)>(all: seq<Scoped<T>>, vessel: string, groups: seq<string>, has: T -> bool,
                                      stricter: (T, T) -> bool, r: Option<T>)
  {
    var picks := GroupPicks(all, groups);
    if exists c :: has(c) && Scoped(VesselScope(vessel), c) in all then
      r.Some? && has(r.value) && Scoped(VesselScope(vessel), r.value) in all
    else if exists c :: has(c) && c in picks then r.Some? && Top(picks, has, stricter, r.value)
    else if exists c :: has(c) && Scoped(FleetScope, c) in all then
      r.Some? && has(r.value) && Scoped(FleetScope, r.value) in all
    else r.None?
  }

  lemma SaysIff<T(!new)>(all: seq<Scoped<T>>, scope: Scope, has: T -> bool)
    requires UniqueScopes(all)
    ensures Says(ScopePick(all, scope), has) <==> exists c :: has(c) && Scoped(scope, c) in all
  {
    if Says(ScopePick(all, scope), has) { ScopePickMember(all, scope); }
    if c :| has(c) && Scoped(scope, c) in all { ScopePickIff(all, scope, c); }
  }

  lemma ResolveMeaning<T(!new)>(all: seq<Scoped<T>>, vessel: string, groups: seq<string>, has: T -> bool,
                                stricter: (T, T) -> bool)
    requires UniqueScopes(all) && StrictOrder(stricter)
    ensures IsResolved(all, vessel, groups, has, stricter, Resolve(all, vessel, groups, has, stricter))
  {
    SaysIff(all, VesselScope(vessel), has);
    SaysIff(all, FleetScope, has);
    ScopePickMember(all, VesselScope(vessel));
    ScopePickMember(all, FleetScope);
    StrictestMeaning(GroupPicks(all, groups), has, stricter);
  }

  // ---- When the order of assignments does not matter ----

  function Aspect<T, U>(r: Option<T>, aspect: T -> U): Option<U> {
    match r
    case None => None
    case Some(a) => Some(aspect(a))
  }

  /** The strictest covering groups say the same. */
  ghost predicate TopAgree<T(!new), U>(picks: seq<T>, has: T -> bool, stricter: (T, T) -> bool, aspect: T -> U) {
    forall a, b :: Top(picks, has, stricter, a) && Top(picks, has, stricter, b) ==> aspect(a) == aspect(b)
  }

  /** Any reordering of the assignments resolves to the same. */
  ghost predicate OrderFree<T(!new), U>(all: seq<Scoped<T>>, vessel: string, groups: seq<string>, has: T -> bool,
                                        stricter: (T, T) -> bool, aspect: T -> U)
  {
    forall other :: multiset(other) == multiset(all) ==>
      Aspect(Resolve(other, vessel, groups, has, stricter), aspect)
          == Aspect(Resolve(all, vessel, groups, has, stricter), aspect)
  }

  lemma TopAmongSame<T(!new)>(p: seq<T>, q: seq<T>, has: T -> bool, stricter: (T, T) -> bool, a: T)
    requires forall x :: x in p <==> x in q
    requires Top(p, has, stricter, a)
    ensures Top(q, has, stricter, a)
  {
  }

  lemma ReorderedSame<T(!new), U>(all: seq<Scoped<T>>, other: seq<Scoped<T>>, vessel: string, groups: seq<string>,
                                  has: T -> bool, stricter: (T, T) -> bool, aspect: T -> U)
    requires UniqueScopes(all) && StrictOrder(stricter) && multiset(other) == multiset(all)
    requires Says(ScopePick(all, VesselScope(vessel)), has) || TopAgree(GroupPicks(all, groups), has, stricter, aspect)
    ensures Aspect(Resolve(other, vessel, groups, has, stricter), aspect)
        == Aspect(Resolve(all, vessel, groups, has, stricter), aspect)
  {
    SamePicks(all, other, VesselScope(vessel));
    SamePicks(all, other, FleetScope);
    if !Says(ScopePick(all, VesselScope(vessel)), has) {
      var p, q := GroupPicks(all, groups), GroupPicks(other, groups);
      SameGroupMembers(all, other, groups);
      StrictestMeaning(p, has, stricter);
      StrictestMeaning(q, has, stricter);
      var best := Strictest(q, has, stricter);
      if best.Some? { TopAmongSame(q, p, has, stricter, best.value); }
    }
  }

  lemma GroupMovedFirst<T(!new)>(all: seq<Scoped<T>>, groups: seq<string>, a: T)
    returns (other: seq<Scoped<T>>, rest: seq<T>)
    requires a in GroupPicks(all, groups)
    ensures multiset(other) == multiset(all) && GroupPicks(other, groups) == [a] + rest
  {
    GroupPicksMember(all, groups, a);
    var g :| g in groups && Scoped(GroupScope(g), a) in all;
    var i :| 0 <= i < |all| && all[i] == Scoped(GroupScope(g), a);
    var others := all[..i] + all[i + 1..];
    other := [all[i]] + others;
    rest := GroupPicks(others, groups);
    RemoveAt(all, i);
    assert multiset(other) == multiset([all[i]]) + multiset(others);
    GroupPicksJoin([all[i]], others, groups);
    assert [all[i]][..0] == [];
    assert GroupPicks([all[i]], groups) == [a];
  }

  /** A top choice of the groups, moved to the front, is the one resolved. */
  lemma TopMovedFirst<T(!new)>(all: seq<Scoped<T>>, vessel: string, groups: seq<string>, has: T -> bool,
                               stricter: (T, T) -> bool, a: T) returns (other: seq<Scoped<T>>)
    requires UniqueScopes(all) && !Says(ScopePick(all, VesselScope(vessel)), has)
    requires Top(GroupPicks(all, groups), has, stricter, a)
    ensures multiset(other) == multiset(all) && Resolve(other, vessel, groups, has, stricter) == Some(a)
  {
    var rest;
    other, rest := GroupMovedFirst(all, groups, a);
    SamePicks(all, other, VesselScope(vessel));
    SameGroupMembers(all, other, groups);
    forall x | x in rest && has(x) ensures !stricter(x, a) {
      assert x in GroupPicks(other, groups);
    }
    FirstTopWins(a, rest, has, stricter);
  }

  /** With one assignment per scope, what a vessel gets is free of the
      assignments' order exactly when the vessel's own assignment decides or
      the strictest covering groups agree. */
  lemma OrderFreeIff<T(!new), U>(all: seq<Scoped<T>>, vessel: string, groups: seq<string>, has: T -> bool,
                                 stricter: (T, T) -> bool, aspect: T -> U)
    requires UniqueScopes(all) && StrictOrder(stricter)
    ensures OrderFree(all, vessel, groups, has, stricter, aspect) <==>
            Says(ScopePick(all, VesselScope(vessel)), has) || TopAgree(GroupPicks(all, groups), has, stricter, aspect)
  {
    var decided := Says(ScopePick(all, VesselScope(vessel)), has);
    var picks := GroupPicks(all, groups);
    if decided || TopAgree(picks, has, stricter, aspect) {
      forall other | multiset(other) == multiset(all)
        ensures Aspect(Resolve(other, vessel, groups, has, stricter), aspect)
             == Aspect(Resolve(all, vessel, groups, has, stricter), aspect)
      {
        ReorderedSame(all, other, vessel, groups, has, stricter, aspect);
      }
    } else {
      var a, b :| Top(picks, has, stricter, a) && Top(picks, has, stricter, b) && aspect(a) != aspect(b);
      var one := TopMovedFirst(all, vessel, groups, has, stricter, a);
      var two := TopMovedFirst(all, vessel, groups, has, stricter, b);
      assert Aspect(Resolve(one, vessel, groups, has, stricter), aspect)
          != Aspect(Resolve(two, vessel, groups, has, stricter), aspect);
    }
  }
}
