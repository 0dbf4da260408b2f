/**
 Resolving the permissions of roles: every role is looked up asynchronously, and the look-ups of its
 sub-roles are started when it arrives.  The order in which look-ups complete is arbitrary, so a state
 holds the pending look-ups and a step completes any one of them.
 */
module RoleResolution {
  import opened Sequences

  type Id = string
  type Permission = string

  datatype Role = Role(permissions: seq<Permission>, roles: seq<Id>)

  type Graph = map<Id, Role>

  // ---- what is to be computed ----

  ghost predicate Path(g: Graph, p: seq<Id>) {
    p != [] && forall i :: 0 <= i < |p| - 1 ==> p[i] in g && p[i + 1] in g[p[i]].roles
  }

  ghost predicate Reachable(g: Graph, roots: seq<Id>, id: Id) {
    exists p :: Path(g, p) && p[0] in roots && p[|p| - 1] == id
  }

  /** The permissions of all roles reachable from the roots. */
  ghost function Closure(g: Graph, roots: seq<Id>): set<Permission> {
    set id, p | id in g && p in g[id].permissions && Reachable(g, roots, id) :: p
  }

  /** No reachable role is missing. */
  ghost predicate Complete(g: Graph, roots: seq<Id>) {
    forall id :: Reachable(g, roots, id) ==> id in g
  }

  lemma RootIsReachable(g: Graph, roots: seq<Id>, id: Id)
    requires id in roots
    ensures Reachable(g, roots, id)
  {
    assert Path(g, [id]);
  }

  lemma SubRoleIsReachable(g: Graph, roots: seq<Id>, id: Id, sub: Id)
    requires Reachable(g, roots, id) && id in g && sub in g[id].roles
    ensures Reachable(g, roots, sub)
  {
    var p :| Path(g, p) && p[0] in roots && p[|p| - 1] == id;
    var q := p + [sub];
    assert Path(g, q) && q[0] in roots && q[|q| - 1] == sub;
  }

  /** A set that holds the roots and is closed under sub-roles holds every reachable id. */
  lemma {:induction false} ClosedSetHoldsPath(g: Graph, p: seq<Id>, closed: set<Id>)
    requires Path(g, p) && p[0] in closed
    requires forall id, sub :: id in closed && id in g && sub in g[id].roles ==> sub in closed
    ensures p[|p| - 1] in closed
  {
    if |p| > 1 {
      assert Path(g, p[1..]);
      ClosedSetHoldsPath(g, p[1..], closed);
    }
  }

  // ---- the resolution ----

  /** `looked` collects the ids whose look-up has completed. */
  datatype Resolution = Resolution(
    processed: seq<Id>, permissions: set<Permission>, pending: seq<Id>, failed: bool, looked: set<Id>)

  function Start(roots: seq<Id>): Resolution {
    Resolution([], {}, roots, false, {})
  }

  /**
   The sub-roles for which a look-up is started.  When ids are compared as values, those already
   processed are left out; when they are compared as objects, none is, because every look-up yields
   fresh objects.
   */
  function Children(g: Graph, r: Resolution, id: Id, byValue: bool): seq<Id>
    requires id in g
  {
    if byValue then Filter((x: Id) => x !in r.processed, g[id].roles) else g[id].roles
  }

  function Without<T>(s: seq<T>, i: nat): seq<T>
    requires i < |s|
  {
    s[..i] + s[i + 1..]
  }

  /** Pending look-up `i` completes. */
  function Lookup(g: Graph, r: Resolution, i: nat, byValue: bool): Resolution
    requires i < |r.pending|
  {
    var id, rest := r.pending[i], Without(r.pending, i);
    if id !in g then r.(pending := rest, failed := true, looked := r.looked + {id})
    else
      var children := Children(g, r, id, byValue);
      Resolution(r.processed + children, r.permissions + (set p | p in g[id].permissions), rest + children,
                 r.failed, r.looked + {id})
  }

  ghost predicate Run(g: Graph, r: Resolution, picks: seq<nat>, end: Resolution, byValue: bool)
    decreases |picks|
  {
    if picks == [] then r == end
    else picks[0] < |r.pending| && Run(g, Lookup(g, r, picks[0], byValue), picks[1..], end, byValue)
  }

  ghost predicate Sound(g: Graph, roots: seq<Id>, r: Resolution) {
    && (forall id :: id in r.pending || id in r.processed || id in r.looked ==> Reachable(g, roots, id))
    && r.permissions <= Closure(g, roots)
    && (r.failed ==> exists id :: id in r.looked && id !in g)
  }

  /** What a completed look-up leaves behind. */
  ghost predicate IsAccounted(g: Graph, r: Resolution, id: Id) {
    if id !in g then r.failed
    else
      && (forall p :: p in g[id].permissions ==> p in r.permissions)
      && (forall sub :: sub in g[id].roles ==> sub in r.processed)
  }

  ghost predicate Thorough(g: Graph, roots: seq<Id>, r: Resolution) {
    && (forall id :: id in roots || id in r.processed ==> id in r.pending || id in r.looked)
    && (forall id :: id in r.looked ==> IsAccounted(g, r, id))
  }

  lemma WithoutMembers<T>(s: seq<T>, i: nat)
    requires i < |s|
    ensures forall x :: x in s ==> x == s[i] || x in Without(s, i)
    ensures forall x :: x in Without(s, i) ==> x in s
  {
  }

  lemma LookupStaysSound(g: Graph, roots: seq<Id>, r: Resolution, i: nat, byValue: bool)
    requires Sound(g, roots, r) && i < |r.pending|
    ensures Sound(g, roots, Lookup(g, r, i, byValue))
  {
    var id := r.pending[i];
    WithoutMembers(r.pending, i);
    if id in g {
      var children := Children(g, r, id, byValue);
      FilterMembers((x: Id) => x !in r.processed, g[id].roles);
      forall sub | sub in children ensures Reachable(g, roots, sub) {
        SubRoleIsReachable(g, roots, id, sub);
      }
      assert forall p :: p in g[id].permissions ==> p in Closure(g, roots);
    }
    hide Reachable;
  }

  lemma LookupStaysThorough(g: Graph, roots: seq<Id>, r: Resolution, i: nat, byValue: bool)
    requires Thorough(g, roots, r) && i < |r.pending|
    ensures Thorough(g, roots, Lookup(g, r, i, byValue))
  {
    var id := r.pending[i];
    WithoutMembers(r.pending, i);
    if id in g {
      FilterMembers((x: Id) => x !in r.processed, g[id].roles);
    }
    hide Without;
  }

  /**
   Whatever the order in which look-ups complete, and whichever way ids are compared: once nothing is
   pending, the permissions are those of the closure, and the resolution has failed exactly when a
   reachable role does not exist.
   */
  lemma FinishedIsClosure(g: Graph, roots: seq<Id>, r: Resolution)
    requires Sound(g, roots, r) && Thorough(g, roots, r) && r.pending == []
    ensures r.permissions == Closure(g, roots)
    ensures r.failed <==> !Complete(g, roots)
  {
    forall id | Reachable(g, roots, id) ensures id in r.looked {
      var p :| Path(g, p) && p[0] in roots && p[|p| - 1] == id;
      ClosedSetHoldsPath(g, p, r.looked);
    }
  }

  lemma {:induction false} RunStaysSoundAndThorough(g: Graph, roots: seq<Id>, r: Resolution, picks: seq<nat>, end: Resolution, byValue: bool)
    requires Sound(g, roots, r) && Thorough(g, roots, r) && Run(g, r, picks, end, byValue)
    ensures Sound(g, roots, end) && Thorough(g, roots, end)
    decreases |picks|
  {
    hide Sound, Thorough, Lookup;
    if picks != [] {
      LookupStaysSound(g, roots, r, picks[0], byValue);
      LookupStaysThorough(g, roots, r, picks[0], byValue);
      RunStaysSoundAndThorough(g, roots, Lookup(g, r, picks[0], byValue), picks[1..], end, byValue);
    }
  }

  lemma StartIsSoundAndThorough(g: Graph, roots: seq<Id>)
    ensures Sound(g, roots, Start(roots)) && Thorough(g, roots, Start(roots))
  {
    forall id | id in roots ensures Reachable(g, roots, id) {
      RootIsReachable(g, roots, id);
    }
  }

  lemma {:induction false} EveryFinishedRunResolves(g: Graph, roots: seq<Id>, picks: seq<nat>, end: Resolution, byValue: bool)
    requires Run(g, Start(roots), picks, end, byValue) && end.pending == []
    ensures end.permissions == Closure(g, roots)
    ensures end.failed <==> !Complete(g, roots)
  {
    StartIsSoundAndThorough(g, roots);
    RunStaysSoundAndThorough(g, roots, Start(roots), picks, end, byValue);
    FinishedIsClosure(g, roots, end);
  }

  // ---- termination when ids are compared as values ----

  /** All ids a resolution can come across. */
  function Universe(g: Graph, roots: seq<Id>): set<Id> {
    (set id | id in roots) + set id, sub | id in g && sub in g[id].roles :: sub
  }

  function Unprocessed(g: Graph, roots: seq<Id>, r: Resolution): set<Id> {
    Universe(g, roots) - set id | id in r.processed
  }

  /** At least the number of sub-roles of any role. */
  ghost predicate Width(g: Graph, width: nat) {
    forall id :: id in g ==> |g[id].roles| <= width
  }

  function Measure(g: Graph, roots: seq<Id>, r: Resolution, width: nat): nat {
    |Unprocessed(g, roots, r)| * (width + 1) + |r.pending|
  }

  lemma ChildWasUnprocessed(g: Graph, roots: seq<Id>, r: Resolution, id: Id, child: Id)
    requires id in g && child in Children(g, r, id, true)
    ensures child in Unprocessed(g, roots, r)
  {
    FilterMembers((x: Id) => x !in r.processed, g[id].roles);
    assert child in g[id].roles;
  }

  lemma LookupShrinks(g: Graph, roots: seq<Id>, r: Resolution, i: nat)
    requires i < |r.pending|
    ensures var t := Lookup(g, r, i, true);
            if r.pending[i] in g && Children(g, r, r.pending[i], true) != []
            then |Unprocessed(g, roots, t)| < |Unprocessed(g, roots, r)|
            else Unprocessed(g, roots, t) == Unprocessed(g, roots, r) && |t.pending| < |r.pending|
  {
    var id, t := r.pending[i], Lookup(g, r, i, true);
    if id in g && Children(g, r, id, true) != [] {
      var before, after := Unprocessed(g, roots, r), Unprocessed(g, roots, t);
      var child := Children(g, r, id, true)[0];
      ChildWasUnprocessed(g, roots, r, id, child);
      hide Universe, Children;
      assert child in t.processed;
      assert after <= before - {child};
      SubsetIsSmaller(after, before - {child});
    } else {
      assert t.processed == r.processed;
    }
  }

  lemma LookupAddsAtMostWidth(g: Graph, r: Resolution, i: nat, width: nat)
    requires i < |r.pending| && Width(g, width)
    ensures |Lookup(g, r, i, true).pending| < |r.pending| + width + 1
  {
  }

  lemma {:induction false} Scaled(a: nat, b: nat, w: nat)
    requires a < b
    ensures a * w + w <= b * w
  {
    if w > 0 {
      Scaled(a, b, w - 1);
    }
  }

  lemma LookupByValueProgresses(g: Graph, roots: seq<Id>, r: Resolution, i: nat, width: nat)
    requires i < |r.pending| && Width(g, width)
    ensures Measure(g, roots, Lookup(g, r, i, true), width) < Measure(g, roots, r, width)
  {
    LookupShrinks(g, roots, r, i);
    LookupAddsAtMostWidth(g, r, i, width);
    hide Lookup, Unprocessed, Children;
    var before, after := |Unprocessed(g, roots, r)|, |Unprocessed(g, roots, Lookup(g, r, i, true))|;
    if after < before {
      Scaled(after, before, width + 1);
    }
  }

  lemma {:induction false} SubsetIsSmaller<T>(a: set<T>, b: set<T>)
    requires a <= b
    ensures |a| <= |b|
  {
    if x :| x in a {
      SubsetIsSmaller(a - {x}, b - {x});
    }
  }

  /** Compared as values, ids are resolved in a bounded number of look-ups on any graph, cyclic or not. */
  lemma {:induction false} ResolutionByValueTerminates(g: Graph, roots: seq<Id>, r: Resolution, picks: seq<nat>, end: Resolution, width: nat)
    requires Width(g, width) && Run(g, r, picks, end, true)
    ensures |picks| + Measure(g, roots, end, width) <= Measure(g, roots, r, width)
    decreases |picks|
  {
    hide Lookup, Measure, Width;
    if picks != [] {
      LookupByValueProgresses(g, roots, r, picks[0], width);
      ResolutionByValueTerminates(g, roots, Lookup(g, r, picks[0], true), picks[1..], end, width);
    }
  }

  // ---- termination when ids are compared as objects ----

  /** No chain of inheritance from the role has more than `depth` roles. */
  predicate Grounded(g: Graph, id: Id, depth: nat)
    decreases depth
  {
    depth > 0 && (id !in g || forall i :: 0 <= i < |g[id].roles| ==> Grounded(g, g[id].roles[i], depth - 1))
  }

  ghost predicate Bounded(g: Graph, id: Id) {
    exists depth: nat :: Grounded(g, id, depth)
  }

  lemma {:induction false} GroundedDeeper(g: Graph, id: Id, depth: nat, more: nat)
    requires Grounded(g, id, depth) && depth <= more
    ensures Grounded(g, id, more)
    decreases depth
  {
    if id in g {
      forall i | 0 <= i < |g[id].roles| ensures Grounded(g, g[id].roles[i], more - 1) {
        GroundedDeeper(g, g[id].roles[i], depth - 1, more - 1);
      }
    }
  }

  lemma {:induction false} CommonDepth(g: Graph, ids: seq<Id>) returns (depth: nat)
    requires forall id :: id in ids ==> Bounded(g, id)
    ensures forall id :: id in ids ==> Grounded(g, id, depth)
  {
    if ids == [] {
      depth := 0;
    } else {
      var rest := CommonDepth(g, ids[1..]);
      assert ids[0] in ids;
      var first: nat :| Grounded(g, ids[0], first);
      depth := first + rest;
      forall id | id in ids ensures Grounded(g, id, depth) {
        if id == ids[0] {
          GroundedDeeper(g, id, first, depth);
        } else {
          GroundedDeeper(g, id, rest, depth);
        }
      }
    }
  }

  /** A role without a bound has a sub-role without a bound: the chain goes on for ever. */
  lemma UnboundedGoesOn(g: Graph, id: Id) returns (sub: Id)
    requires !Bounded(g, id)
    ensures id in g && sub in g[id].roles && !Bounded(g, sub)
  {
    assert !Grounded(g, id, 1);
    if forall x :: x in g[id].roles ==> Bounded(g, x) {
      var depth := CommonDepth(g, g[id].roles);
      assert Grounded(g, id, depth + 1);
      assert false;
    }
    sub :| sub in g[id].roles && !Bounded(g, sub);
  }

  lemma UnboundedStaysPending(g: Graph, r: Resolution, i: nat, id: Id) returns (next: Id)
    requires i < |r.pending| && id in r.pending && !Bounded(g, id)
    ensures next in Lookup(g, r, i, false).pending && !Bounded(g, next)
  {
    WithoutMembers(r.pending, i);
    if r.pending[i] == id {
      next := UnboundedGoesOn(g, id);
    } else {
      next := id;
    }
    hide Bounded;
  }

  lemma {:induction false} UnboundedNeverFinishes(g: Graph, r: Resolution, picks: seq<nat>, end: Resolution, id: Id)
    requires Run(g, r, picks, end, false) && id in r.pending && !Bounded(g, id)
    ensures end.pending != []
    decreases |picks|
  {
    hide Lookup, Bounded;
    if picks != [] {
      var next := UnboundedStaysPending(g, r, picks[0], id);
      UnboundedNeverFinishes(g, Lookup(g, r, picks[0], false), picks[1..], end, next);
    }
  }

  /** The look-ups a role causes when nothing is skipped. */
  function Lookups(g: Graph, id: Id, depth: nat): nat
    decreases depth, 0
  {
    1 + if id in g && depth > 0 then LookupsOfAll(g, g[id].roles, depth - 1) else 0
  }

  function LookupsOfAll(g: Graph, ids: seq<Id>, depth: nat): nat
    decreases depth, 1, |ids|
  {
    if ids == [] then 0 else Lookups(g, ids[0], depth) + LookupsOfAll(g, ids[1..], depth)
  }

  lemma {:induction false} LookupsDeeper(g: Graph, id: Id, depth: nat)
    requires Grounded(g, id, depth)
    ensures Lookups(g, id, depth + 1) == Lookups(g, id, depth)
    decreases depth, 0
  {
    if id in g {
      LookupsOfAllDeeper(g, g[id].roles, depth - 1);
    }
  }

  lemma {:induction false} LookupsOfAllDeeper(g: Graph, ids: seq<Id>, depth: nat)
    requires forall i :: 0 <= i < |ids| ==> Grounded(g, ids[i], depth)
    ensures LookupsOfAll(g, ids, depth + 1) == LookupsOfAll(g, ids, depth)
    decreases depth, 1, |ids|
  {
    if ids != [] {
      LookupsDeeper(g, ids[0], depth);
      LookupsOfAllDeeper(g, ids[1..], depth);
    }
  }

  lemma {:induction false} LookupsAppend(g: Graph, a: seq<Id>, b: seq<Id>, depth: nat)
    ensures LookupsOfAll(g, a + b, depth) == LookupsOfAll(g, a, depth) + LookupsOfAll(g, b, depth)
    decreases |a|
  {
    if a == [] {
      assert a + b == b;
    } else {
      LookupsAppend(g, a[1..], b, depth);
      assert (a + b)[1..] == a[1..] + b;
    }
  }

  lemma LookupStaysGrounded(g: Graph, r: Resolution, i: nat, depth: nat)
    requires i < |r.pending| && forall id :: id in r.pending ==> Grounded(g, id, depth)
    ensures forall id :: id in Lookup(g, r, i, false).pending ==> Grounded(g, id, depth)
  {
    var id := r.pending[i];
    assert id in r.pending;
    WithoutMembers(r.pending, i);
    if id in g {
      var subs := g[id].roles;
      forall sub | sub in subs ensures Grounded(g, sub, depth) {
        var k :| 0 <= k < |subs| && subs[k] == sub;
        GroundedDeeper(g, subs[k], depth - 1, depth);
      }
    }
    hide Grounded;
  }

  lemma {:induction false} LookupByObjectProgresses(g: Graph, r: Resolution, i: nat, depth: nat)
    requires i < |r.pending| && forall id :: id in r.pending ==> Grounded(g, id, depth)
    ensures LookupsOfAll(g, Lookup(g, r, i, false).pending, depth) + 1 == LookupsOfAll(g, r.pending, depth)
  {
    var id, a, b := r.pending[i], r.pending[..i], r.pending[i + 1..];
    assert id in r.pending;
    assert r.pending == a + ([id] + b);
    LookupsAppend(g, a, [id] + b, depth);
    LookupsAppend(g, [id], b, depth);
    LookupsAppend(g, a, b, depth);
    assert LookupsOfAll(g, [id], depth) == Lookups(g, id, depth) + LookupsOfAll(g, [], depth);
    if id in g {
      LookupsAppend(g, a + b, g[id].roles, depth);
      LookupsOfAllDeeper(g, g[id].roles, depth - 1);
    }
  }

  lemma {:induction false} RunByObjectCounts(g: Graph, r: Resolution, picks: seq<nat>, end: Resolution, depth: nat)
    requires Run(g, r, picks, end, false) && forall id :: id in r.pending ==> Grounded(g, id, depth)
    ensures |picks| + LookupsOfAll(g, end.pending, depth) == LookupsOfAll(g, r.pending, depth)
    decreases |picks|
  {
    hide Lookup, Grounded, LookupsOfAll;
    if picks != [] {
      LookupStaysGrounded(g, r, picks[0], depth);
      LookupByObjectProgresses(g, r, picks[0], depth);
      RunByObjectCounts(g, Lookup(g, r, picks[0], false), picks[1..], end, depth);
    }
  }

  ghost predicate NoRunLongerThan(g: Graph, roots: seq<Id>, bound: nat) {
    forall picks, end :: Run(g, Start(roots), picks, end, false) ==> |picks| <= bound
  }

  /**
   Compared as objects, ids are resolved in a bounded number of look-ups exactly when every chain of
   inheritance from the roots is bounded; otherwise no run ever finishes.
   */
  lemma ResolutionByObjectTerminatesIffBounded(g: Graph, roots: seq<Id>)
    ensures (forall id :: id in roots ==> Bounded(g, id)) <==>
              exists bound: nat :: NoRunLongerThan(g, roots, bound)
    ensures (exists id :: id in roots && !Bounded(g, id)) ==>
              forall picks, end :: Run(g, Start(roots), picks, end, false) ==> end.pending != []
  {
    hide Grounded, Lookup;
    if forall id :: id in roots ==> Bounded(g, id) {
      var depth := CommonDepth(g, roots);
      var bound := LookupsOfAll(g, roots, depth);
      forall picks, end | Run(g, Start(roots), picks, end, false) ensures |picks| <= bound {
        RunByObjectCounts(g, Start(roots), picks, end, depth);
      }
      assert NoRunLongerThan(g, roots, bound);
    } else {
      var id :| id in roots && !Bounded(g, id);
      forall picks, end | Run(g, Start(roots), picks, end, false) ensures end.pending != [] {
        UnboundedNeverFinishes(g, Start(roots), picks, end, id);
      }
      forall bound: nat ensures !NoRunLongerThan(g, roots, bound) {
        var picks, end := RunOfLength(g, Start(roots), id, bound + 1);
      }
    }
  }

  lemma {:induction false} RunOfLength(g: Graph, r: Resolution, id: Id, n: nat) returns (picks: seq<nat>, end: Resolution)
    requires id in r.pending && !Bounded(g, id)
    ensures Run(g, r, picks, end, false) && |picks| == n
    decreases n
  {
    hide Lookup, Bounded;
    if n == 0 {
      picks, end := [], r;
    } else {
      var next := UnboundedStaysPending(g, r, 0, id);
      var rest;
      rest, end := RunOfLength(g, Lookup(g, r, 0, false), next, n - 1);
      picks := [0] + rest;
      assert picks[1..] == rest;
    }
  }

  /** The meaning of being bounded: `Grounded` limits the length of the paths from a role. */
  lemma {:induction false} GroundedLimitsPaths(g: Graph, p: seq<Id>, depth: nat)
    requires Path(g, p) && Grounded(g, p[0], depth)
    ensures |p| <= depth
    decreases depth
  {
    if |p| > 1 {
      var i :| 0 <= i < |g[p[0]].roles| && g[p[0]].roles[i] == p[1];
      assert Path(g, p[1..]);
      GroundedLimitsPaths(g, p[1..], depth - 1);
    }
  }

  // ---- chains are bounded exactly when no role inherits from itself ----

  ghost predicate NoRoleRepeats(g: Graph, roots: seq<Id>) {
    forall p :: Path(g, p) && p[0] in roots ==> NoDuplicates(p)
  }

  lemma {:induction false} GroundedAlong(g: Graph, p: seq<Id>, depth: nat, k: nat)
    requires Path(g, p) && Grounded(g, p[0], depth) && k < |p|
    ensures k < depth && Grounded(g, p[k], depth - k)
    decreases k
  {
    if k > 0 {
      var i :| 0 <= i < |g[p[0]].roles| && g[p[0]].roles[i] == p[1];
      assert Path(g, p[1..]);
      GroundedAlong(g, p[1..], depth - 1, k - 1);
    }
  }

  /** A role that inherits from itself has no bound. */
  lemma {:induction false} CycleIsUnbounded(g: Graph, p: seq<Id>, depth: nat)
    requires Path(g, p) && |p| > 1 && p[0] == p[|p| - 1]
    ensures !Grounded(g, p[0], depth)
    decreases depth
  {
    if Grounded(g, p[0], depth) {
      GroundedAlong(g, p, depth, |p| - 1);
      CycleIsUnbounded(g, p, depth - (|p| - 1));
    }
  }

  /** An endless chain has paths of every length, all but the last of whose roles exist. */
  lemma {:induction false} UnboundedHasPaths(g: Graph, id: Id, n: nat) returns (p: seq<Id>)
    requires !Bounded(g, id)
    ensures Path(g, p) && p[0] == id && |p| == n + 1
    decreases n
  {
    hide Bounded;
    if n == 0 {
      p := [id];
    } else {
      var sub := UnboundedGoesOn(g, id);
      var rest := UnboundedHasPaths(g, sub, n - 1);
      p := [id] + rest;
    }
  }

  lemma {:induction false} DistinctFit(p: seq<Id>, ids: set<Id>)
    requires NoDuplicates(p) && forall x :: x in p ==> x in ids
    ensures |p| <= |ids|
  {
    if p != [] {
      var last := p[|p| - 1];
      DistinctFit(p[..|p| - 1], ids - {last});
    }
  }

  lemma RepetitionIsUnbounded(g: Graph, p: seq<Id>, i: nat, j: nat)
    requires Path(g, p) && i < j < |p| && p[i] == p[j]
    ensures !Bounded(g, p[0])
  {
    forall depth: nat ensures !Grounded(g, p[0], depth) {
      if Grounded(g, p[0], depth) {
        GroundedAlong(g, p, depth, i);
        CycleIsUnbounded(g, p[i..j + 1], depth - i);
      }
    }
  }

  /** Every chain of inheritance from the roots is bounded exactly when none of them comes to a role twice. */
  lemma BoundedIffNoRoleRepeats(g: Graph, roots: seq<Id>)
    ensures (forall id :: id in roots ==> Bounded(g, id)) <==> NoRoleRepeats(g, roots)
  {
    if forall id :: id in roots ==> Bounded(g, id) {
      forall p | Path(g, p) && p[0] in roots ensures NoDuplicates(p) {
        forall i, j | 0 <= i < j < |p| ensures p[i] != p[j] {
          if p[i] == p[j] {
            RepetitionIsUnbounded(g, p, i, j);
          }
        }
      }
    } else {
      var id :| id in roots && !Bounded(g, id);
      var p := UnboundedHasPaths(g, id, |g.Keys| + 1);
      if NoDuplicates(p) {
        DistinctFit(p[..|p| - 1], g.Keys);
      }
    }
    hide Bounded;
  }

  /** So it ends exactly when no role that the roots reach inherits from itself, through whatever others. */
  lemma ResolutionByObjectTerminatesIffNoRoleRepeats(g: Graph, roots: seq<Id>)
    ensures (exists bound: nat :: NoRunLongerThan(g, roots, bound)) <==> NoRoleRepeats(g, roots)
  {
    BoundedIffNoRoleRepeats(g, roots);
    ResolutionByObjectTerminatesIffBounded(g, roots);
    hide Bounded, NoRunLongerThan, NoRoleRepeats;
  }

  /** An example: a role that inherits from itself keeps a resolution by object going for ever. */
  lemma SelfInheritanceHasNoBound(id: Id)
    ensures !exists bound: nat :: NoRunLongerThan(map[id := Role([], [id])], [id], bound)
  {
    var g := map[id := Role([], [id])];
    assert Path(g, [id, id]) && [id, id][0] in [id] && [id, id][0] == [id, id][1];
    ResolutionByObjectTerminatesIffNoRoleRepeats(g, [id]);
    hide NoRunLongerThan;
  }
}
