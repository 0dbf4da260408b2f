/** The role model's cache of resolved permissions, and the resolution through it. */
module RoleCache {
  import opened Wrappers
  import opened Sequences
  import opened RoleResolution

  type Permissions = set<Permission>

  datatype Entry = Entry(value: Permissions, validUntil: int)

  // ---- the cache ----

  /** What happened to a cache, latest first. */
  datatype Log = Nothing | Updated(key: string, value: Permissions, at: int, before: Log) | Cleared(before: Log)

  /** The latest update of a key since the cache was last cleared: its value and time. */
  function Latest(log: Log, key: string): Option<(Permissions, int)> {
    match log
    case Nothing => None
    case Cleared(_) => None
    case Updated(k, value, at, before) => if k == key then Some((value, at)) else Latest(before, key)
  }

  function Index(ids: seq<Id>): string {
    if ids == [] then "" else Index(ids[..|ids| - 1]) + ids[|ids| - 1]
  }

  const ID_LENGTH := 24

  predicate FullIds(ids: seq<Id>) {
    forall i :: 0 <= i < |ids| ==> |ids[i]| == ID_LENGTH
  }

  lemma {:induction false} IndexLength(ids: seq<Id>)
    requires FullIds(ids)
    ensures |Index(ids)| == ID_LENGTH * |ids|
  {
    if ids != [] {
      IndexLength(ids[..|ids| - 1]);
    }
  }

  /** Lists of full-length ids with the same key are the same list. */
  lemma {:induction false} IndexIsInjective(a: seq<Id>, b: seq<Id>)
    requires FullIds(a) && FullIds(b) && Index(a) == Index(b)
    ensures a == b
  {
    IndexLength(a);
    IndexLength(b);
    if a != [] {
      var n := |a| - 1;
      IndexLength(a[..n]);
      IndexLength(b[..n]);
      var key := Index(a);
      assert Index(a[..n]) == key[..ID_LENGTH * n] == Index(b[..n]);
      assert a[n] == key[ID_LENGTH * n..] == b[n];
      IndexIsInjective(a[..n], b[..n]);
      assert a == a[..n] + [a[n]] && b == b[..n] + [b[n]];
    }
  }

  /** Ids of other lengths can share a key. */
  lemma IndexOfOtherIdsCollides()
    ensures ["a", "bc"] != ["ab", "c"] && Index(["a", "bc"]) == Index(["ab", "c"])
  {
  }

  class Cache {
    var entries: map<string, Entry>
    const clearInterval: int
    ghost var log: Log

    /** The table holds exactly the latest updates, each valid for the interval from its time on. */
    ghost predicate Valid()
      reads this
    {
      forall key :: (key in entries <==> Latest(log, key).Some?) &&
                    (key in entries ==>
                       entries[key] == Entry(Latest(log, key).value.0, Latest(log, key).value.1 + clearInterval))
    }

    constructor (clearInterval: int)
      ensures Valid() && log == Nothing && this.clearInterval == clearInterval
    {
      entries := map[];
      this.clearInterval := clearInterval;
      log := Nothing;
    }

    method Clear()
      modifies this
      ensures Valid() && log == Cleared(old(log))
    {
      entries := map[];
      log := Cleared(log);
    }

    method CreateMongooseIndex(ids: seq<Id>) returns (index: string)
      ensures index == Index(ids)
    {
      index := "";
      for i := 0 to |ids|
        invariant index == Index(ids[..i])
      {
        assert ids[..i + 1][..i] == ids[..i];
        index := index + ids[i];
      }
      assert ids[..|ids|] == ids;
    }

    method Update(key: string, value: Permissions, now: int)
      requires Valid()
      modifies this
      ensures Valid() && log == Updated(key, value, now, old(log))
    {
      entries := entries[key := Entry(value, now + clearInterval)];
      log := Updated(key, value, now, log);
    }

    /** A value is served exactly while the latest update of its key is at most the interval old. */
    method Get(key: string, now: int) returns (value: Option<Permissions>)
      requires Valid()
      ensures value.Some? <==> Latest(log, key).Some? && now - Latest(log, key).value.1 <= clearInterval
      ensures value.Some? ==> value.value == Latest(log, key).value.0
    {
      if key !in entries || entries[key].validUntil < now {
        return None;
      }
      return Some(entries[key].value);
    }
  }

  // ---- the answers of the cache are those of the current roles ----

  predicate IsCached(log: Log, ids: seq<Id>) {
    FullIds(ids) && Latest(log, Index(ids)).Some?
  }

  /** Every answer the log could give is the closure of the roles. */
  ghost predicate Agrees(g: Graph, log: Log) {
    forall ids :: IsCached(log, ids) ==>
                    Complete(g, ids) && Latest(log, Index(ids)).value.0 == Closure(g, ids)
  }

  lemma {:induction false} UpdateKeepsAgreement(g: Graph, log: Log, ids: seq<Id>, now: int)
    requires Agrees(g, log) && FullIds(ids) && Complete(g, ids)
    ensures Agrees(g, Updated(Index(ids), Closure(g, ids), now, log))
  {
    var after := Updated(Index(ids), Closure(g, ids), now, log);
    forall other | IsCached(after, other)
      ensures Complete(g, other) && Latest(after, Index(other)).value.0 == Closure(g, other)
    {
      if Index(other) == Index(ids) {
        IndexIsInjective(other, ids);
      }
    }
  }

  /** Storing any value keeps agreement exactly if it is the closure of the roles as they are now. */
  lemma {:induction false} LateUpdateKeepsAgreementIff(now: Graph, log: Log, ids: seq<Id>, value: Permissions, at: int)
    requires Agrees(now, log) && FullIds(ids)
    ensures Agrees(now, Updated(Index(ids), value, at, log)) <==> Complete(now, ids) && value == Closure(now, ids)
  {
    if Complete(now, ids) && value == Closure(now, ids) {
      UpdateKeepsAgreement(now, log, ids, at);
    } else {
      assert IsCached(Updated(Index(ids), value, at, log), ids);
    }
  }

  /** A role with a new id cannot be reached from roots all of whose reachable roles exist. */
  lemma {:induction false} NewRoleAddsNoPath(g: Graph, ids: seq<Id>, id: Id, role: Role, p: seq<Id>)
    requires Complete(g, ids) && id !in g
    requires Path(g[id := role], p) && p[0] in ids
    ensures Path(g, p)
    decreases |p|
  {
    if |p| > 1 {
      var q := p[..|p| - 1];
      NewRoleAddsNoPath(g, ids, id, role, q);
      assert Reachable(g, ids, q[|q| - 1]);
    }
  }

  lemma NewRoleKeepsClosure(g: Graph, ids: seq<Id>, id: Id, role: Role)
    requires Complete(g, ids) && id !in g
    ensures Complete(g[id := role], ids) && Closure(g[id := role], ids) == Closure(g, ids)
  {
    var h := g[id := role];
    forall p | Path(h, p) && p[0] in ids ensures Path(g, p) {
      NewRoleAddsNoPath(g, ids, id, role, p);
    }
    forall p | Path(g, p) ensures Path(h, p) {
    }
    hide Path;
    forall x ensures Reachable(h, ids, x) <==> Reachable(g, ids, x) {
    }
  }

  lemma NewRoleKeepsAgreement(g: Graph, log: Log, id: Id, role: Role)
    requires Agrees(g, log) && id !in g
    ensures Agrees(g[id := role], log)
  {
    forall ids | IsCached(log, ids)
      ensures Complete(g[id := role], ids) && Latest(log, Index(ids)).value.0 == Closure(g[id := role], ids)
    {
      NewRoleKeepsClosure(g, ids, id, role);
    }
  }

  /** The look-ups complete in any order. */
  method ResolveInAnyOrder(g: Graph, roleIds: seq<Id>) returns (r: Resolution)
    ensures r.permissions == Closure(g, roleIds)
    ensures r.failed <==> !Complete(g, roleIds)
  {
    r := Start(roleIds);
    StartIsSoundAndThorough(g, roleIds);
    ghost var width := WidthOf(g);
    while r.pending != []
      invariant Sound(g, roleIds, r) && Thorough(g, roleIds, r)
      decreases Measure(g, roleIds, r, width)
    {
      hide Sound, Thorough, Measure, Width;
      var i :| 0 <= i < |r.pending|;
      LookupStaysSound(g, roleIds, r, i, true);
      LookupStaysThorough(g, roleIds, r, i, true);
      LookupByValueProgresses(g, roleIds, r, i, width);
      r := Lookup(g, r, i, true);
    }
    FinishedIsClosure(g, roleIds, r);
  }

  class RoleModel {
    var roles: Graph
    const cache: Cache

    ghost predicate Valid()
      reads this, cache
    {
      cache.Valid() && Agrees(roles, cache.log)
    }

    constructor (roles: Graph, clearInterval: int)
      ensures Valid() && this.roles == roles && fresh(cache)
    {
      this.roles := roles;
      cache := new Cache(clearInterval);
    }

    /** Any of the operations whose post hook clears the cache: existing roles change or disappear. */
    method WriteAndClear(changed: Graph)
      requires Valid()
      modifies this, cache
      ensures Valid() && roles == changed && cache.log == Cleared(old(cache.log))
    {
      roles := changed;
      cache.Clear();
    }

    /** Creating a role runs no hook. */
    method Create(id: Id, role: Role)
      requires Valid() && id !in roles
      modifies this
      ensures Valid() && roles == old(roles)[id := role]
    {
      NewRoleKeepsAgreement(roles, cache.log, id, role);
      roles := roles[id := role];
    }

    /**
     The answer is the closure of the roles as they are now, whether
     it comes from the cache or not; it fails exactly when a reachable role is missing.
     */
    method ResolvePermissions(roleIds: seq<Id>, now: int) returns (answer: Result<Permissions, string>)
      requires Valid() && FullIds(roleIds)
      modifies cache
      ensures Valid()
      ensures answer.Success? <==> Complete(roles, roleIds)
      ensures answer.Success? ==> answer.value == Closure(roles, roleIds)
      ensures answer.Failure? ==> cache.log == old(cache.log)
    {
      var index := cache.CreateMongooseIndex(roleIds);
      var hit := cache.Get(index, now);
      if hit.Some? {
        return Success(hit.value);
      }
      var r := ResolveInAnyOrder(roles, roleIds);
      if r.failed {
        return Failure("a role does not exist");
      }
      UpdateKeepsAgreement(roles, cache.log, roleIds, now);
      cache.Update(index, r.permissions, now);
      return Success(r.permissions);
    }
  }

  /** Some number that bounds the sub-roles of every role. */
  ghost function WidthOf(g: Graph): (width: nat)
    ensures Width(g, width)
    decreases |g|
  {
    if g == map[] then 0
    else
      var id :| id in g;
      var rest := WidthOf(g - {id});
      assert forall x :: x in g && x != id ==> x in g - {id} && g[x] == (g - {id})[x];
      rest + |g[id].roles|
  }

  // ---- saving an existing role ----

  lemma SameSubRolesReachAlike(g: Graph, id: Id, role: Role, ids: seq<Id>, x: Id)
    requires id in g && role.roles == g[id].roles
    ensures Reachable(g[id := role], ids, x) <==> Reachable(g, ids, x)
  {
  }

  /** Another role that the ids reach grants the permission. */
  ghost predicate GrantedElsewhere(g: Graph, ids: seq<Id>, id: Id, p: Permission) {
    exists other :: other != id && other in g && p in g[other].permissions && Reachable(g, ids, other)
  }

  /** What the role newly grants is granted anyway, and what it no longer grants still is. */
  ghost predicate ChangesNothingFor(g: Graph, ids: seq<Id>, id: Id, role: Role)
    requires id in g
  {
    && (forall p :: p in role.permissions ==> p in Closure(g, ids))
    && (forall p :: p in g[id].permissions && p !in role.permissions ==> GrantedElsewhere(g, ids, id, p))
  }

  lemma ClosureMember(g: Graph, ids: seq<Id>, id: Id, p: Permission)
    requires id in g && Reachable(g, ids, id)
    ensures p in Closure(g, ids) <==> p in g[id].permissions || GrantedElsewhere(g, ids, id, p)
  {
  }

  lemma GrantedElsewhereAfterSave(g: Graph, ids: seq<Id>, id: Id, role: Role, p: Permission)
    requires id in g && role.roles == g[id].roles
    ensures GrantedElsewhere(g[id := role], ids, id, p) <==> GrantedElsewhere(g, ids, id, p)
  {
    forall x ensures Reachable(g[id := role], ids, x) <==> Reachable(g, ids, x) {
      SameSubRolesReachAlike(g, id, role, ids, x);
    }
    hide Reachable;
  }

  lemma PathExtends(g: Graph, p: seq<Id>)
    requires |p| > 1
    ensures var q := p[..|p| - 1];
            Path(g, p) <==> Path(g, q) && q[|q| - 1] in g && p[|p| - 1] in g[q[|q| - 1]].roles
  {
  }

  /** The roles are the same but for one, which may have been changed, made or removed. */
  ghost predicate SameBut(g: Graph, h: Graph, id: Id) {
    forall x :: x != id ==> (x in g <==> x in h) && (x in g ==> g[x] == h[x])
  }

  /** What cannot be reached does not matter, even when its sub-roles change. */
  lemma {:induction false} PathsAvoidTheUnreached(g: Graph, h: Graph, ids: seq<Id>, id: Id, p: seq<Id>)
    requires SameBut(g, h, id) && !Reachable(g, ids, id) && p != [] && p[0] in ids
    ensures Path(h, p) <==> Path(g, p)
    decreases |p|
  {
    if |p| > 1 {
      var q := p[..|p| - 1];
      PathsAvoidTheUnreached(g, h, ids, id, q);
      PathExtends(g, p);
      PathExtends(h, p);
      assert Path(g, q) ==> Reachable(g, ids, q[|q| - 1]);
      hide Path, Reachable;
    }
  }

  lemma UnreachedWriteKeepsClosure(g: Graph, h: Graph, ids: seq<Id>, id: Id)
    requires SameBut(g, h, id) && !Reachable(g, ids, id)
    ensures Complete(h, ids) <==> Complete(g, ids)
    ensures Closure(h, ids) == Closure(g, ids)
  {
    forall p | p != [] && p[0] in ids ensures Path(h, p) <==> Path(g, p) {
      PathsAvoidTheUnreached(g, h, ids, id, p);
    }
    assert forall p :: Path(g, p) || Path(h, p) ==> p != [];
    hide Path;
    assert forall x :: Reachable(h, ids, x) <==> Reachable(g, ids, x);
    hide Reachable;
    forall x | Reachable(g, ids, x) ensures x in h <==> x in g
      ensures x in g ==> h[x] == g[x]
    {
    }
    assert forall p :: p in Closure(h, ids) <==> p in Closure(g, ids);
  }

  lemma SaveKeepsClosureIff(g: Graph, ids: seq<Id>, id: Id, role: Role)
    requires id in g && role.roles == g[id].roles
    ensures Complete(g[id := role], ids) <==> Complete(g, ids)
    ensures Reachable(g, ids, id) ==> (Closure(g[id := role], ids) == Closure(g, ids) <==> ChangesNothingFor(g, ids, id, role))
    ensures !Reachable(g, ids, id) ==> Closure(g[id := role], ids) == Closure(g, ids)
  {
    var h := g[id := role];
    forall x ensures Reachable(h, ids, x) <==> Reachable(g, ids, x) {
      SameSubRolesReachAlike(g, id, role, ids, x);
    }
    hide Reachable;
    if Reachable(g, ids, id) {
      forall p
        ensures p in Closure(g, ids) <==> p in g[id].permissions || GrantedElsewhere(g, ids, id, p)
        ensures p in Closure(h, ids) <==> p in role.permissions || GrantedElsewhere(g, ids, id, p)
      {
        ClosureMember(g, ids, id, p);
        ClosureMember(h, ids, id, p);
        GrantedElsewhereAfterSave(g, ids, id, role, p);
      }
      hide Closure, GrantedElsewhere;
    } else {
      UnreachedWriteKeepsClosure(g, g[id := role], ids, id);
    }
  }

  /**
   Saving a role with its old sub-roles, which runs none of the hooks, leaves every cached answer right exactly when,
   for each cached list that reaches the role, the new permissions were granted anyway and the dropped ones still are.
   */
  lemma SaveKeepsAgreementIff(g: Graph, log: Log, id: Id, role: Role)
    requires Agrees(g, log) && id in g && role.roles == g[id].roles
    ensures Agrees(g[id := role], log) <==>
              forall ids :: IsCached(log, ids) && Reachable(g, ids, id) ==> ChangesNothingFor(g, ids, id, role)
  {
    forall ids | IsCached(log, ids)
      ensures Complete(g[id := role], ids)
      ensures Closure(g[id := role], ids) == Closure(g, ids) <==> Reachable(g, ids, id) ==> ChangesNothingFor(g, ids, id, role)
    {
      SaveKeepsClosureIff(g, ids, id, role);
    }
    hide Complete, Closure, Reachable, ChangesNothingFor;
  }

  /** Whatever is saved, agreement is kept as long as no cached list reaches the role. */
  lemma UnreachedSaveKeepsAgreement(g: Graph, log: Log, id: Id, role: Role)
    requires Agrees(g, log) && forall ids :: IsCached(log, ids) ==> !Reachable(g, ids, id)
    ensures Agrees(g[id := role], log)
  {
    hide Complete, Closure, Reachable;
    forall ids | IsCached(log, ids)
      ensures Complete(g[id := role], ids) && Closure(g[id := role], ids) == Closure(g, ids)
    {
      assert Complete(g, ids);
      UnreachedWriteKeepsClosure(g, g[id := role], ids, id);
    }
  }

  // ---- roles that are written between the look-ups of a resolution and its update ----

  /**
   A role is written when all look-ups of a resolution are done, and the cache agrees with the new roles, as it does
   once it is cleared.  Storing the answer of the resolution keeps that exactly if it does not reach the role, or the
   new permissions were granted anyway and the dropped ones still are.
   */
  lemma {:induction false} WriteDuringResolutionKeepsAgreementIff(g: Graph, log: Log, ids: seq<Id>, id: Id, role: Role, at: int)
    requires id in g && role.roles == g[id].roles
    requires Agrees(g[id := role], log) && FullIds(ids) && Complete(g, ids)
    ensures Agrees(g[id := role], Updated(Index(ids), Closure(g, ids), at, log)) <==>
              (Reachable(g, ids, id) ==> ChangesNothingFor(g, ids, id, role))
  {
    SaveKeepsClosureIff(g, ids, id, role);
    LateUpdateKeepsAgreementIff(g[id := role], log, ids, Closure(g, ids), at);
    hide Agrees, Reachable, Complete, Closure, ChangesNothingFor;
  }

  /** A way to a role on which it comes last only does without its sub-roles. */
  lemma {:induction false} FirstArrival(g: Graph, p: seq<Id>, id: Id) returns (q: seq<Id>)
    requires Path(g, p) && p[|p| - 1] == id
    ensures Path(g, q) && q[0] == p[0] && q[|q| - 1] == id && id !in q[..|q| - 1]
    decreases |p|
  {
    if id in p[..|p| - 1] {
      var k :| 0 <= k < |p| - 1 && p[k] == id;
      q := FirstArrival(g, p[..k + 1], id);
    } else {
      q := p;
    }
  }

  lemma DeletedRoleIsMissed(g: Graph, ids: seq<Id>, id: Id)
    requires Reachable(g, ids, id)
    ensures !Complete(g - {id}, ids)
  {
    var p :| Path(g, p) && p[0] in ids && p[|p| - 1] == id;
    var q := FirstArrival(g, p, id);
    assert forall i :: 0 <= i < |q| - 1 ==> q[i] in q[..|q| - 1];
    assert Path(g - {id}, q);
    assert Reachable(g - {id}, ids, id);
  }

  /** A role that is deleted meanwhile makes the answer wrong exactly if the resolution reaches it. */
  lemma {:induction false} DeletionDuringResolutionKeepsAgreementIff(g: Graph, log: Log, ids: seq<Id>, id: Id, at: int)
    requires id in g && Agrees(g - {id}, log) && FullIds(ids) && Complete(g, ids)
    ensures Agrees(g - {id}, Updated(Index(ids), Closure(g, ids), at, log)) <==> !Reachable(g, ids, id)
  {
    LateUpdateKeepsAgreementIff(g - {id}, log, ids, Closure(g, ids), at);
    if Reachable(g, ids, id) {
      DeletedRoleIsMissed(g, ids, id);
    } else {
      UnreachedWriteKeepsClosure(g, g - {id}, ids, id);
    }
    hide Agrees, Reachable, Complete, Closure;
  }

  /** Whatever becomes of a role that the resolution does not reach, its answer stays right. */
  lemma {:induction false} UnreachedWriteDuringResolutionKeepsAgreement(g: Graph, now: Graph, log: Log, ids: seq<Id>, id: Id, at: int)
    requires SameBut(g, now, id) && Agrees(now, log) && FullIds(ids) && Complete(g, ids) && !Reachable(g, ids, id)
    ensures Agrees(now, Updated(Index(ids), Closure(g, ids), at, log))
  {
    UnreachedWriteKeepsClosure(g, now, ids, id);
    LateUpdateKeepsAgreementIff(now, log, ids, Closure(g, ids), at);
    hide Agrees, Reachable, Complete, Closure;
  }

  /** A role that grants one permission, and the same role without it. */
  lemma DroppedPermissionIsMissed(id: Id)
    ensures var g, h := map[id := Role(["A"], [])], map[id := Role([], [])];
            Complete(g, [id]) && Complete(h, [id]) && Closure(g, [id]) == {"A"} && Closure(h, [id]) == {}
  {
    var g, h := map[id := Role(["A"], [])], map[id := Role([], [])];
    assert Grounded(g, id, 1) && Grounded(h, id, 1);
    forall p | Path(g, p) && p[0] in [id] ensures |p| == 1 {
      GroundedLimitsPaths(g, p, 1);
    }
    forall p | Path(h, p) && p[0] in [id] ensures |p| == 1 {
      GroundedLimitsPaths(h, p, 1);
    }
    RootIsReachable(g, [id], id);
    assert "A" in g[id].permissions && "A" in Closure(g, [id]);
  }

  /** An example of a save after which a cached answer is wrong. */
  lemma SavingARoleGoesStale(id: Id, at: int)
    requires |id| == ID_LENGTH
    ensures var g, saved := map[id := Role(["A"], [])], map[id := Role([], [])];
            var log := Updated(Index([id]), Closure(g, [id]), at, Nothing);
            Agrees(g, log) && !Agrees(saved, log)
  {
    DroppedPermissionIsMissed(id);
    LateUpdateKeepsAgreementIff(map[id := Role(["A"], [])], Nothing, [id], {"A"}, at);
    LateUpdateKeepsAgreementIff(map[id := Role([], [])], Nothing, [id], {"A"}, at);
  }

  /** An example of a listed operation that comes between the look-ups and the update: it clears the cache too early. */
  lemma WritingDuringAResolutionGoesStale(id: Id, at: int)
    requires |id| == ID_LENGTH
    ensures var g, written := map[id := Role(["A"], [])], map[id := Role([], [])];
            var cleared := Cleared(Nothing);
            Agrees(written, cleared) && !Agrees(written, Updated(Index([id]), Closure(g, [id]), at, cleared))
  {
    DroppedPermissionIsMissed(id);
    LateUpdateKeepsAgreementIff(map[id := Role([], [])], Cleared(Nothing), [id], {"A"}, at);
  }
}
