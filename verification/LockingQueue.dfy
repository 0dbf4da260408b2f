/**
 A first-come first-served lock.  `Lock` is its abstract state, whose runs the lemmas are about;
 the class is the program, proved to take exactly the abstract steps.
 */
module Locking {

  /** Requests are numbered in the order they are made; `grants` lists them in the order they got the lock. */
  datatype Lock = Lock(locked: bool, queue: seq<nat>, grants: seq<nat>, released: set<nat>, requests: nat)

  const FREE := Lock(false, [], [], {}, 0)

  function Request(s: Lock): Lock {
    if s.locked then s.(queue := s.queue + [s.requests], requests := s.requests + 1)
    else s.(locked := true, grants := s.grants + [s.requests], requests := s.requests + 1)
  }

  function Release(s: Lock, h: nat): Lock {
    if h in s.released then s
    else if s.queue == [] then s.(released := s.released + {h}, locked := false)
    else s.(released := s.released + {h}, grants := s.grants + [s.queue[0]], queue := s.queue[1..])
  }

  datatype Event = Requested | GivenBack(h: nat)

  /** A client holds a handle, and can release it, only once the lock has been granted to it. */
  predicate Possible(s: Lock, e: Event) {
    e.GivenBack? ==> e.h in s.grants
  }

  function Next(s: Lock, e: Event): Lock {
    match e
    case Requested => Request(s)
    case GivenBack(h) => Release(s, h)
  }

  /** The handle that was granted last and is still in use, if any. */
  predicate Holds(s: Lock, h: nat) {
    h in s.grants && h !in s.released
  }

  predicate Inv(s: Lock) {
    var n := |s.grants|;
    && n + |s.queue| == s.requests
    && (forall i :: 0 <= i < n ==> s.grants[i] == i)
    && (forall i :: 0 <= i < |s.queue| ==> s.queue[i] == n + i)
    && (forall h :: h in s.released ==> h < n)
    && (forall h :: 0 <= h < n - 1 ==> h in s.released)
    && (s.locked <==> n > 0 && n - 1 !in s.released)
    && (!s.locked ==> s.queue == [])
  }

  lemma StepKeepsInv(s: Lock, e: Event)
    requires Inv(s) && Possible(s, e)
    ensures Inv(Next(s, e))
    ensures s.grants <= Next(s, e).grants && s.released <= Next(s, e).released
  {
  }

  ghost predicate Run(s: Lock, events: seq<Event>, t: Lock)
    decreases |events|
  {
    if events == [] then s == t
    else Possible(s, events[0]) && Run(Next(s, events[0]), events[1..], t)
  }

  /**
   In every interleaving of requests and releases: at most one handle is granted and unreleased,
   waiting implies locked, grants follow the order of the requests and are never withdrawn, and
   when the holder is gone nobody is left waiting.
   */
  lemma {:induction false} EveryRunIsFairAndExclusive(s: Lock, events: seq<Event>, t: Lock)
    requires Inv(s) && Run(s, events, t)
    ensures Inv(t)
    ensures forall g, h :: Holds(t, g) && Holds(t, h) ==> g == h
    ensures t.queue != [] ==> t.locked
    ensures t.locked <==> exists h :: Holds(t, h)
    ensures t.grants + t.queue == seq(t.requests, i => i)
    ensures s.grants <= t.grants
    ensures (forall h :: h in t.grants ==> h in t.released) ==> t.queue == []
    decreases |events|
  {
    if events == [] {
      assert t.locked ==> Holds(t, t.grants[|t.grants| - 1]);
    } else {
      StepKeepsInv(s, events[0]);
      EveryRunIsFairAndExclusive(Next(s, events[0]), events[1..], t);
    }
  }

  /** A release hands the lock to the first waiter, and only the holder's first release has an effect. */
  lemma ReleaseHandsOver(s: Lock, h: nat)
    requires Inv(s) && h in s.grants
    ensures h in s.released ==> Release(s, h) == s
    ensures Release(Release(s, h), h) == Release(s, h)
    ensures Holds(s, h) && s.queue != [] ==> Holds(Release(s, h), s.queue[0]) && s.queue[0] == h + 1
    ensures Release(s, h) != s ==> Holds(s, h)
    ensures forall g :: g != h && Holds(s, g) ==> Release(s, h) == s
  {
  }

  /** What other clients see of a step: nobody else's handle changes its standing, except by being granted. */
  lemma StepLeavesOthers(s: Lock, e: Event, g: nat)
    requires Inv(s) && Possible(s, e) && g < s.requests
    ensures Inv(Next(s, e)) && s.requests <= Next(s, e).requests
    ensures g in s.grants ==> g in Next(s, e).grants
    ensures g in s.grants && g in s.released ==> g in Next(s, e).released
    ensures Holds(s, g) && e != GivenBack(g) ==> Holds(Next(s, e), g)
    ensures e.Requested? ==> (Holds(Next(s, e), g) <==> Holds(s, g))
    ensures e == GivenBack(g) ==> g in Next(s, e).released
  {
  }

  // ---- the program ----

  class Handle {
    var released: bool
    ghost const id: nat

    constructor (ghost id: nat)
      ensures !released && this.id == id
    {
      released := false;
      this.id := id;
    }
  }

  ghost function Ids(hs: seq<Handle>): (r: seq<nat>)
    ensures |r| == |hs| && forall i :: 0 <= i < |hs| ==> r[i] == hs[i].id
  {
    seq(|hs|, i requires 0 <= i < |hs| => hs[i].id)
  }

  class LockingQueue {
    var locked: bool
    var queue: seq<Handle>
    /** The handles whose promise has been resolved, in that order. */
    ghost var grants: seq<Handle>
    ghost var state: Lock

    ghost predicate Valid()
      reads this, grants, queue
    {
      && Inv(state)
      && state.locked == locked && state.queue == Ids(queue) && state.grants == Ids(grants)
      && (forall i :: 0 <= i < |grants| ==> (grants[i].released <==> i in state.released))
      && (forall i :: 0 <= i < |queue| ==> !queue[i].released)
    }

    constructor ()
      ensures Valid() && state == FREE && grants == [] && queue == []
    {
      locked, queue := false, [];
      grants, state := [], FREE;
    }

    /** The promise for the returned handle is resolved at once exactly when the lock is free. */
    method GetLock() returns (h: Handle)
      requires Valid()
      modifies this
      ensures Valid() && fresh(h) && state == Request(old(state)) && h.id == old(state.requests)
      ensures grants == (if old(locked) then old(grants) else old(grants) + [h])
      ensures queue == (if old(locked) then old(queue) + [h] else old(queue))
    {
      h := new Handle(state.requests);
      StepKeepsInv(state, Requested);
      state := Request(state);
      if !locked {
        locked := true;
        grants := grants + [h];
      } else {
        queue := queue + [h];
      }
    }

    /** What the handle's own releaseLock does. */
    method ReleaseLock(h: Handle)
      requires Valid() && h in grants
      modifies this, h
      ensures Valid() && h.released && state == Release(old(state), h.id)
      ensures old(h.released) ==> grants == old(grants) && queue == old(queue) && locked == old(locked)
      ensures !old(h.released) && old(queue) != [] ==> grants == old(grants) + [old(queue)[0]] && queue == old(queue)[1..]
      ensures !old(h.released) && old(queue) == [] ==> grants == old(grants) && queue == [] && !locked
    {
      assert h.id in state.grants by {
        var i :| 0 <= i < |grants| && grants[i] == h;
        assert state.grants[i] == h.id;
      }
      StepKeepsInv(state, GivenBack(h.id));
      if !h.released {
        state := Release(state, h.id);
        h.released := true;
        if |queue| == 0 {
          locked := false;
        } else {
          grants := grants + [queue[0]];
          queue := queue[1..];
        }
        assert forall i :: 0 <= i < |old(grants)| && i != h.id ==> old(grants)[i] != h;
      }
    }
  }
}
