/** Roles that are written while a resolution is under way, between any two of its look-ups. */
module RoleWrites {
  import opened Sequences
  import opened RoleResolution
  import opened RoleCache

  /** One look-up: the roles as they are at that moment, and the pending look-up that completes. */
  datatype Event = Event(roles: Graph, pick: nat)

  ghost predicate RunOver(r: Resolution, events: seq<Event>, end: Resolution, byValue: bool)
    decreases |events|
  {
    if events == [] then r == end
    else events[0].pick < |r.pending| && RunOver(Lookup(events[0].roles, r, events[0].pick, byValue), events[1..], end, byValue)
  }

  predicate SameAt(g: Graph, h: Graph, id: Id) {
    (id in g <==> id in h) && (id in g ==> g[id] == h[id])
  }

  /** All look-ups of a run have found what `seen` holds. */
  ghost predicate Explains(seen: Graph, r: Resolution, events: seq<Event>, byValue: bool)
    decreases |events|
  {
    events == [] ||
    (events[0].pick < |r.pending| && SameAt(events[0].roles, seen, r.pending[events[0].pick]) &&
     Explains(seen, Lookup(events[0].roles, r, events[0].pick, byValue), events[1..], byValue))
  }

  function Picks(events: seq<Event>): seq<nat> {
    Map((e: Event) => e.pick, events)
  }

  /** A look-up sees nothing but the role it is for. */
  lemma LookupSeesOneRole(g: Graph, h: Graph, r: Resolution, i: nat, byValue: bool)
    requires i < |r.pending| && SameAt(g, h, r.pending[i])
    ensures Lookup(g, r, i, byValue) == Lookup(h, r, i, byValue)
  {
  }

  lemma {:induction false} RunOfWhatWasSeen(seen: Graph, r: Resolution, events: seq<Event>, end: Resolution, byValue: bool)
    requires RunOver(r, events, end, byValue) && Explains(seen, r, events, byValue)
    ensures Run(seen, r, Picks(events), end, byValue)
    decreases |events|
  {
    if events != [] {
      LookupSeesOneRole(events[0].roles, seen, r, events[0].pick, byValue);
      RunOfWhatWasSeen(seen, Lookup(seen, r, events[0].pick, byValue), events[1..], end, byValue);
      assert Picks(events)[1..] == Picks(events[1..]);
    }
    hide Lookup;
  }

  /** However roles are written meanwhile: a resolution answers with the closure of what its look-ups have found. */
  lemma {:induction false} ResolvesWhatWasSeen(seen: Graph, roots: seq<Id>, events: seq<Event>, end: Resolution, byValue: bool)
    requires RunOver(Start(roots), events, end, byValue) && end.pending == [] && Explains(seen, Start(roots), events, byValue)
    ensures end.permissions == Closure(seen, roots)
    ensures end.failed <==> !Complete(seen, roots)
  {
    RunOfWhatWasSeen(seen, Start(roots), events, end, byValue);
    EveryFinishedRunResolves(seen, roots, Picks(events), end, byValue);
  }

  // ---- one role is written ----

  /** Every look-up of the role finds what `seen` holds. */
  ghost predicate Finds(seen: Graph, r: Resolution, events: seq<Event>, id: Id, byValue: bool)
    decreases |events|
  {
    events == [] ||
    (events[0].pick < |r.pending| && (r.pending[events[0].pick] == id ==> SameAt(events[0].roles, seen, id)) &&
     Finds(seen, Lookup(events[0].roles, r, events[0].pick, byValue), events[1..], id, byValue))
  }

  lemma {:induction false} OneRoleExplains(seen: Graph, r: Resolution, events: seq<Event>, id: Id, byValue: bool)
    requires forall k :: 0 <= k < |events| ==> SameBut(events[k].roles, seen, id)
    requires Finds(seen, r, events, id, byValue)
    ensures Explains(seen, r, events, byValue)
    decreases |events|
  {
    if events != [] {
      OneRoleExplains(seen, Lookup(events[0].roles, r, events[0].pick, byValue), events[1..], id, byValue);
      assert SameBut(events[0].roles, seen, id);
    }
    hide Lookup;
  }

  /**
   While a single role is written, however often, a resolution sees it as it is when it is looked up: the answer is
   that of roles that did exist.
   */
  lemma {:induction false} OneRoleIsSeenWhole(
      seen: Graph, roots: seq<Id>, events: seq<Event>, end: Resolution, id: Id, byValue: bool)
    requires RunOver(Start(roots), events, end, byValue) && end.pending == []
    requires forall k :: 0 <= k < |events| ==> SameBut(events[k].roles, seen, id)
    requires Finds(seen, Start(roots), events, id, byValue)
    ensures end.permissions == Closure(seen, roots)
    ensures end.failed <==> !Complete(seen, roots)
  {
    OneRoleExplains(seen, Start(roots), events, id, byValue);
    ResolvesWhatWasSeen(seen, roots, events, end, byValue);
  }

  lemma {:induction false} EitherIsSeenWhole(
      g: Graph, h: Graph, seen: Graph, roots: seq<Id>, events: seq<Event>, end: Resolution, id: Id, byValue: bool)
    requires RunOver(Start(roots), events, end, byValue) && end.pending == [] && seen in {g, h} && SameBut(g, h, id)
    requires forall k :: 0 <= k < |events| ==> events[k].roles in {g, h}
    requires Finds(seen, Start(roots), events, id, byValue)
    ensures end.permissions == Closure(seen, roots)
    ensures end.failed <==> !Complete(seen, roots)
  {
    assert SameBut(g, g, id) && SameBut(h, h, id) && SameBut(h, g, id);
    hide Finds, RunOver, Closure, Complete;
    OneRoleIsSeenWhole(seen, roots, events, end, id, byValue);
  }

  // ---- a role that is looked up both before and after it is written ----

  function SetOf(ps: seq<Permission>): set<Permission> {
    set p | p in ps
  }

  /** The role with the permissions it had and those it got. */
  function Merged(g: Graph, id: Id, role: Role): Graph
    requires id in g
  {
    g[id := Role(g[id].permissions + role.permissions, role.roles)]
  }

  /** The same resolution, but for permissions of the role. */
  ghost predicate SameButPermissions(r: Resolution, m: Resolution, ps: set<Permission>) {
    && m == r.(permissions := m.permissions)
    && r.permissions <= m.permissions <= r.permissions + ps
  }

  lemma LookupStaysSame(
      g: Graph, role: Role, id: Id, roles: Graph, r: Resolution, m: Resolution, i: nat, byValue: bool)
    requires id in g && role.roles == g[id].roles && roles in {g, g[id := role]} && i < |r.pending|
    requires SameButPermissions(r, m, SetOf(g[id].permissions + role.permissions))
    ensures SameButPermissions(Lookup(roles, r, i, byValue), Lookup(Merged(g, id, role), m, i, byValue),
                               SetOf(g[id].permissions + role.permissions))
  {
    var x := r.pending[i];
    var merged := Merged(g, id, role);
    if x in roles {
      assert merged[x].roles == roles[x].roles;
      assert Children(roles, r, x, byValue) == Children(merged, m, x, byValue);
    }
    hide Children;
  }

  lemma {:induction false} RunStaysSame(
      g: Graph, role: Role, id: Id, r: Resolution, m: Resolution, events: seq<Event>, end: Resolution, byValue: bool)
    returns (merged: Resolution)
    requires id in g && role.roles == g[id].roles && RunOver(r, events, end, byValue)
    requires forall k :: 0 <= k < |events| ==> events[k].roles in {g, g[id := role]}
    requires SameButPermissions(r, m, SetOf(g[id].permissions + role.permissions))
    ensures Run(Merged(g, id, role), m, Picks(events), merged, byValue)
    ensures SameButPermissions(end, merged, SetOf(g[id].permissions + role.permissions))
    decreases |events|
  {
    hide Lookup, Merged;
    if events == [] {
      merged := m;
    } else {
      var e := events[0];
      LookupStaysSame(g, role, id, e.roles, r, m, e.pick, byValue);
      merged := RunStaysSame(g, role, id, Lookup(e.roles, r, e.pick, byValue), Lookup(Merged(g, id, role), m, e.pick, byValue),
                             events[1..], end, byValue);
      assert Picks(events)[1..] == Picks(events[1..]);
    }
  }

  lemma {:induction false} PermissionsStay(r: Resolution, events: seq<Event>, end: Resolution, byValue: bool)
    requires RunOver(r, events, end, byValue)
    ensures r.permissions <= end.permissions
    decreases |events|
  {
    if events != [] {
      PermissionsStay(Lookup(events[0].roles, r, events[0].pick, byValue), events[1..], end, byValue);
    }
  }

  /** A role that is not always found as `other` has it is found as `seen` has it, and its permissions are granted. */
  lemma {:induction false} FoundIsGranted(
      seen: Graph, other: Graph, r: Resolution, events: seq<Event>, end: Resolution, id: Id, byValue: bool)
    requires id in seen && RunOver(r, events, end, byValue) && !Finds(other, r, events, id, byValue)
    requires forall k :: 0 <= k < |events| ==> events[k].roles in {seen, other}
    ensures SetOf(seen[id].permissions) <= end.permissions
    decreases |events|
  {
    var e := events[0];
    var next := Lookup(e.roles, r, e.pick, byValue);
    if r.pending[e.pick] == id && !SameAt(e.roles, other, id) {
      assert e.roles == seen;
      assert SetOf(seen[id].permissions) <= next.permissions;
      PermissionsStay(next, events[1..], end, byValue);
    } else {
      FoundIsGranted(seen, other, next, events[1..], end, id, byValue);
    }
  }

  lemma {:induction false} FoundIsLooked(
      seen: Graph, r: Resolution, events: seq<Event>, end: Resolution, id: Id, byValue: bool)
    requires RunOver(r, events, end, byValue) && !Finds(seen, r, events, id, byValue)
    ensures id in end.looked
    decreases |events|
  {
    var e := events[0];
    var next := Lookup(e.roles, r, e.pick, byValue);
    if r.pending[e.pick] == id {
      LookedStays(next, events[1..], end, id, byValue);
    } else {
      FoundIsLooked(seen, next, events[1..], end, id, byValue);
    }
  }

  lemma {:induction false} LookedStays(r: Resolution, events: seq<Event>, end: Resolution, id: Id, byValue: bool)
    requires RunOver(r, events, end, byValue) && id in r.looked
    ensures id in end.looked
    decreases |events|
  {
    if events != [] {
      LookedStays(Lookup(events[0].roles, r, events[0].pick, byValue), events[1..], end, id, byValue);
    }
  }

  lemma {:induction false} LookedIsReachable(g: Graph, roots: seq<Id>, picks: seq<nat>, end: Resolution, id: Id, byValue: bool)
    requires Run(g, Start(roots), picks, end, byValue) && id in end.looked
    ensures Reachable(g, roots, id)
  {
    StartIsSoundAndThorough(g, roots);
    RunStaysSoundAndThorough(g, roots, Start(roots), picks, end, byValue);
    hide Run, Thorough, Reachable;
  }

  lemma {:induction false} BothAreGranted(
      g: Graph, role: Role, ids: seq<Id>, events: seq<Event>, end: Resolution, id: Id, byValue: bool)
    requires id in g && RunOver(Start(ids), events, end, byValue)
    requires forall k :: 0 <= k < |events| ==> events[k].roles in {g, g[id := role]}
    requires !Finds(g, Start(ids), events, id, byValue) && !Finds(g[id := role], Start(ids), events, id, byValue)
    ensures SetOf(g[id].permissions + role.permissions) <= end.permissions && id in end.looked
  {
    var h := g[id := role];
    FoundIsLooked(g, Start(ids), events, end, id, byValue);
    FoundIsGranted(g, h, Start(ids), events, end, id, byValue);
    FoundIsGranted(h, g, Start(ids), events, end, id, byValue);
    assert SetOf(g[id].permissions + role.permissions) == SetOf(g[id].permissions) + SetOf(role.permissions);
    hide RunOver, Finds;
  }

  lemma {:induction false} FoundBothIsMerged(
      g: Graph, role: Role, ids: seq<Id>, events: seq<Event>, end: Resolution, id: Id, byValue: bool)
    requires id in g && role.roles == g[id].roles && RunOver(Start(ids), events, end, byValue) && end.pending == []
    requires forall k :: 0 <= k < |events| ==> events[k].roles in {g, g[id := role]}
    requires !Finds(g, Start(ids), events, id, byValue) && !Finds(g[id := role], Start(ids), events, id, byValue)
    ensures end.permissions == Closure(Merged(g, id, role), ids)
    ensures end.failed <==> !Complete(Merged(g, id, role), ids)
    ensures Reachable(g, ids, id)
  {
    hide RunOver, Run, Finds, Closure, Complete, Reachable, SetOf;
    BothAreGranted(g, role, ids, events, end, id, byValue);
    var merged := RunStaysSame(g, role, id, Start(ids), Start(ids), events, end, byValue);
    EveryFinishedRunResolves(Merged(g, id, role), ids, Picks(events), merged, byValue);
    LookedIsReachable(Merged(g, id, role), ids, Picks(events), merged, id, byValue);
    SameSubRolesReachAlike(g, id, Merged(g, id, role)[id], ids, id);
  }

  // ---- what a write means for the cache ----

  /** What the role drops is granted by another role that the ids reach. */
  ghost predicate DropsNothingFor(g: Graph, ids: seq<Id>, id: Id, role: Role)
    requires id in g
  {
    forall p :: p in g[id].permissions && p !in role.permissions ==> GrantedElsewhere(g, ids, id, p)
  }

  lemma {:induction false} MergedAgreesIff(g: Graph, role: Role, log: Log, ids: seq<Id>, id: Id, at: int)
    requires id in g && role.roles == g[id].roles && FullIds(ids) && Agrees(g[id := role], log)
    requires Complete(Merged(g, id, role), ids) && Reachable(g, ids, id)
    ensures Agrees(g[id := role], Updated(Index(ids), Closure(Merged(g, id, role), ids), at, log)) <==>
              DropsNothingFor(g, ids, id, role)
  {
    var h, m := g[id := role], Merged(g, id, role);
    assert m[id := role] == h && m[id].roles == role.roles;
    SameSubRolesReachAlike(g, id, m[id], ids, id);
    WriteDuringResolutionKeepsAgreementIff(m, log, ids, id, role, at);
    forall p ensures GrantedElsewhere(m, ids, id, p) <==> GrantedElsewhere(g, ids, id, p) {
      GrantedElsewhereAfterSave(g, ids, id, m[id], p);
    }
    forall p | p in role.permissions ensures p in Closure(m, ids) {
      ClosureMember(m, ids, id, p);
    }
    hide Agrees, Complete, Closure, GrantedElsewhere, Reachable;
  }

  /**
   A role is written at any moment of a resolution, and the cache agrees with the new roles.  If the look-ups of the
   role have found it as it was before, storing the answer keeps that exactly if the resolution does not reach the role,
   or the new permissions were granted anyway and the dropped ones still are; if they have found it as it is now, always;
   and if some have found it so and some so, exactly if the dropped permissions are still granted.
   */
  lemma {:induction false} WriteAmongLookupsKeepsAgreementIff(
      g: Graph, role: Role, log: Log, ids: seq<Id>, events: seq<Event>, end: Resolution, id: Id, at: int, byValue: bool)
    requires id in g && role.roles == g[id].roles && FullIds(ids) && Agrees(g[id := role], log)
    requires RunOver(Start(ids), events, end, byValue) && end.pending == [] && !end.failed
    requires forall k :: 0 <= k < |events| ==> events[k].roles in {g, g[id := role]}
    ensures Finds(g[id := role], Start(ids), events, id, byValue) ==>
              Agrees(g[id := role], Updated(Index(ids), end.permissions, at, log))
    ensures Finds(g, Start(ids), events, id, byValue) ==>
              (Agrees(g[id := role], Updated(Index(ids), end.permissions, at, log)) <==>
               (Reachable(g, ids, id) ==> ChangesNothingFor(g, ids, id, role)))
    ensures !Finds(g, Start(ids), events, id, byValue) && !Finds(g[id := role], Start(ids), events, id, byValue) ==>
              (Agrees(g[id := role], Updated(Index(ids), end.permissions, at, log)) <==> DropsNothingFor(g, ids, id, role))
  {
    var h := g[id := role];
    if Finds(h, Start(ids), events, id, byValue) {
      EitherIsSeenWhole(g, h, h, ids, events, end, id, byValue);
      LateUpdateKeepsAgreementIff(h, log, ids, end.permissions, at);
    }
    if Finds(g, Start(ids), events, id, byValue) {
      EitherIsSeenWhole(g, h, g, ids, events, end, id, byValue);
      WriteDuringResolutionKeepsAgreementIff(g, log, ids, id, role, at);
    } else if !Finds(h, Start(ids), events, id, byValue) {
      FoundBothIsMerged(g, role, ids, events, end, id, byValue);
      MergedAgreesIff(g, role, log, ids, id, at);
    }
    hide Agrees, Finds, RunOver, Reachable, Complete, Closure, ChangesNothingFor, Index, FullIds, DropsNothingFor, Merged;
  }

  // ---- several roles are written ----

  /**
   An example: a permission moves from a sub-role to its parent, which gets it before the sub-role loses it.  At every
   moment it is granted, but a resolution that looks up the parent before and the sub-role after does not find it.
   */
  lemma {:induction false} MovedPermissionIsMissed(parent: Id, sub: Id)
    requires parent != sub
    ensures var before := map[parent := Role([], [sub]), sub := Role(["A"], [])];
            var both := before[parent := Role(["A"], [sub])];
            var after := both[sub := Role([], [])];
            var end := Resolution([sub], {}, [], false, {parent, sub});
            && RunOver(Start([parent]), [Event(before, 0), Event(after, 0)], end, false)
            && "A" in Closure(before, [parent]) && "A" in Closure(both, [parent]) && "A" in Closure(after, [parent])
  {
    var before := map[parent := Role([], [sub]), sub := Role(["A"], [])];
    var both := before[parent := Role(["A"], [sub])];
    var after := both[sub := Role([], [])];
    var events := [Event(before, 0), Event(after, 0)];
    var middle := Resolution([sub], {}, [sub], false, {parent});
    assert Lookup(before, Start([parent]), 0, false) == middle;
    var end := Resolution([sub], {}, [], false, {parent, sub});
    assert Lookup(after, middle, 0, false) == end;
    assert events[1..] == [Event(after, 0)] && events[1..][1..] == [];
    assert RunOver(end, events[1..][1..], end, false);
    assert RunOver(middle, events[1..], end, false);
    hide Lookup;
    MovedPermissionIsGranted(parent, sub);
  }

  lemma MovedPermissionIsGranted(parent: Id, sub: Id)
    requires parent != sub
    ensures var before := map[parent := Role([], [sub]), sub := Role(["A"], [])];
            var both := before[parent := Role(["A"], [sub])];
            var after := both[sub := Role([], [])];
            "A" in Closure(before, [parent]) && "A" in Closure(both, [parent]) && "A" in Closure(after, [parent])
  {
    var before := map[parent := Role([], [sub]), sub := Role(["A"], [])];
    var both := before[parent := Role(["A"], [sub])];
    var after := both[sub := Role([], [])];
    RootIsReachable(before, [parent], parent);
    SubRoleIsReachable(before, [parent], parent, sub);
    RootIsReachable(both, [parent], parent);
    RootIsReachable(after, [parent], parent);
    assert "A" in before[sub].permissions && "A" in both[parent].permissions && "A" in after[parent].permissions;
    hide Reachable;
  }
}
