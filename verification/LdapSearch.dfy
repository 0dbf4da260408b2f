/**
 LDAP searches share one lock per server URL.  A search may see an error and an end, or several
 errors, and tries to release its lock every time.
 */
module LdapSearch {
  import opened Locking

  datatype Outcome = Pending | Resolved(objects: seq<string>) | Rejected

  /** A search that has asked for the lock of its URL; `handle` numbers its request. */
  datatype Search = Search(url: string, handle: nat, objects: seq<string>, outcome: Outcome)

  datatype State = State(locks: map<string, Lock>, searches: seq<Search>)

  /** `Failed` is any of: an exception, an error passed to the callback, an error event on the stream. */
  datatype SearchEvent = Started(url: string) | Failed(i: nat) | Entry(i: nat, item: string) | Ended(i: nat, status: int)

  function LockOf(s: State, url: string): Lock {
    if url in s.locks then s.locks[url] else FREE
  }

  /** The listeners of a search are installed once its lock has been granted. */
  predicate Granted(s: State, i: nat) {
    i < |s.searches| && s.searches[i].handle in LockOf(s, s.searches[i].url).grants
  }

  predicate Active(s: State, i: nat) {
    i < |s.searches| && Holds(LockOf(s, s.searches[i].url), s.searches[i].handle)
  }

  /** The search has had the lock and given it back. */
  predicate GaveBack(s: State, i: nat) {
    Granted(s, i) && !Active(s, i)
  }

  predicate Enabled(s: State, e: SearchEvent) {
    e.Started? || Granted(s, e.i)
  }

  function AfterStart(s: State, url: string): State {
    State(s.locks[url := Request(LockOf(s, url))], s.searches + [Search(url, LockOf(s, url).requests, [], Pending)])
  }

  function AfterRelease(s: State, i: nat): State
    requires i < |s.searches|
  {
    var x := s.searches[i];
    s.(locks := s.locks[x.url := Release(LockOf(s, x.url), x.handle)])
  }

  /** A promise keeps the outcome it was first given. */
  function AfterSettling(s: State, i: nat, outcome: Outcome): State
    requires i < |s.searches|
  {
    if s.searches[i].outcome == Pending then s.(searches := s.searches[i := s.searches[i].(outcome := outcome)]) else s
  }

  function AfterError(s: State, i: nat): State
    requires i < |s.searches|
  {
    AfterSettling(AfterRelease(s, i), i, Rejected)
  }

  function Step(s: State, e: SearchEvent): State
    requires Enabled(s, e)
  {
    match e
    case Started(url) => AfterStart(s, url)
    case Failed(i) => AfterError(s, i)
    case Entry(i, item) => s.(searches := s.searches[i := s.searches[i].(objects := s.searches[i].objects + [item])])
    case Ended(i, status) =>
      if status == 0 then AfterRelease(AfterSettling(s, i, Resolved(s.searches[i].objects)), i)
      else AfterRelease(AfterError(s, i), i)
  }

  class LdapService {
    /** One lock per URL, created when the URL is first searched. */
    var mapOfLocks: map<string, Lock>
    var searches: seq<Search>

    ghost function Abs(): State
      reads this
    {
      State(mapOfLocks, searches)
    }

    constructor ()
      ensures Abs() == State(map[], [])
    {
      mapOfLocks, searches := map[], [];
    }

    method SearchCollection(url: string) returns (i: nat)
      modifies this
      ensures i == |old(searches)| && Abs() == Step(old(Abs()), Started(url))
    {
      if url !in mapOfLocks {
        mapOfLocks := mapOfLocks[url := FREE];
      }
      i := |searches|;
      searches := searches + [Search(url, mapOfLocks[url].requests, [], Pending)];
      mapOfLocks := mapOfLocks[url := Request(mapOfLocks[url])];
    }

    method ReleaseLock(i: nat)
      requires Granted(Abs(), i)
      modifies this`mapOfLocks
      ensures Abs() == AfterRelease(old(Abs()), i)
    {
      var x := searches[i];
      mapOfLocks := mapOfLocks[x.url := Release(mapOfLocks[x.url], x.handle)];
    }

    method Settle(i: nat, outcome: Outcome)
      requires i < |searches|
      modifies this`searches
      ensures Abs() == AfterSettling(old(Abs()), i, outcome)
    {
      if searches[i].outcome == Pending {
        searches := searches[i := searches[i].(outcome := outcome)];
      }
    }

    method HandleError(i: nat)
      requires Granted(Abs(), i)
      modifies this
      ensures Abs() == Step(old(Abs()), Failed(i))
    {
      ReleaseLock(i);
      Settle(i, Rejected);
    }

    method OnSearchEntry(i: nat, item: string)
      requires Granted(Abs(), i)
      modifies this
      ensures Abs() == Step(old(Abs()), Entry(i, item))
    {
      searches := searches[i := searches[i].(objects := searches[i].objects + [item])];
    }

    method OnEnd(i: nat, status: int)
      requires Granted(Abs(), i)
      modifies this
      ensures Abs() == Step(old(Abs()), Ended(i, status))
    {
      if status == 0 {
        Settle(i, Resolved(searches[i].objects));
      } else {
        HandleError(i);
      }
      ReleaseLock(i);
    }
  }

  // ---- every run ----

  ghost predicate Inv(s: State) {
    && (forall url :: url in s.locks ==> Locking.Inv(s.locks[url]))
    && (forall i :: 0 <= i < |s.searches| ==>
          s.searches[i].url in s.locks && s.searches[i].handle < s.locks[s.searches[i].url].requests)
    && (forall i, j :: 0 <= i < j < |s.searches| && s.searches[i].url == s.searches[j].url ==>
          s.searches[i].handle != s.searches[j].handle)
  }

  lemma ReleaseKeepsInv(s: State, i: nat)
    requires Inv(s) && Granted(s, i)
    ensures Inv(AfterRelease(s, i)) && GaveBack(AfterRelease(s, i), i)
    ensures !Active(s, i) ==> AfterRelease(s, i).locks == s.locks
    ensures forall j: nat :: GaveBack(s, j) ==> GaveBack(AfterRelease(s, i), j)
    ensures forall url :: url != s.searches[i].url && url in s.locks ==> AfterRelease(s, i).locks[url] == s.locks[url]
    ensures forall j :: 0 <= j < |s.searches| && j != i && Active(s, j) ==> Active(AfterRelease(s, i), j)
  {
    var x := s.searches[i];
    var lock := s.locks[x.url];
    ReleaseHandsOver(lock, x.handle);
    forall j | 0 <= j < |s.searches| && s.searches[j].url == x.url
      ensures GaveBack(s, j) ==> GaveBack(AfterRelease(s, i), j)
      ensures j != i && Active(s, j) ==> Active(AfterRelease(s, i), j)
    {
      StepLeavesOthers(lock, GivenBack(x.handle), s.searches[j].handle);
    }
    StepLeavesOthers(lock, GivenBack(x.handle), x.handle);
    hide Locking.Inv, Release;
  }

  /** What its own event does to a search. */
  function OwnStep(x: Search, e: SearchEvent): Search {
    match e
    case Started(_) => x
    case Entry(_, item) => x.(objects := x.objects + [item])
    case Failed(_) => if x.outcome == Pending then x.(outcome := Rejected) else x
    case Ended(_, status) =>
      if x.outcome != Pending then x else x.(outcome := if status == 0 then Resolved(x.objects) else Rejected)
  }

  /** However often an event releases, it amounts to one release and one change of its own search. */
  lemma EventIsOneRelease(s: State, e: SearchEvent)
    requires Inv(s) && Enabled(s, e) && !e.Started?
    ensures var s1 := if e.Entry? then s else AfterRelease(s, e.i);
            Step(s, e) == s1.(searches := s.searches[e.i := OwnStep(s.searches[e.i], e)])
  {
  }

  /** Who has which lock depends on the numbers of the searches only. */
  lemma OwnStepKeepsLocks(s: State, i: nat, x: Search)
    requires Inv(s) && i < |s.searches| && x.url == s.searches[i].url && x.handle == s.searches[i].handle
    ensures var t := s.(searches := s.searches[i := x]);
            Inv(t) && forall j: nat :: (Active(t, j) <==> Active(s, j)) && (GaveBack(t, j) <==> GaveBack(s, j))
  {
  }

  /** What one event of a search does to the locks: no more than giving its own one back. */
  lemma EventTouchesOwnLockOnly(s: State, e: SearchEvent)
    requires Inv(s) && Enabled(s, e) && !e.Started?
    ensures var t := Step(s, e);
            && Inv(t) && t.searches == s.searches[e.i := OwnStep(s.searches[e.i], e)]
            && (e.Entry? || !Active(s, e.i) ==> t.locks == s.locks)
            && (!e.Entry? ==> GaveBack(t, e.i))
            && (forall url :: url in s.locks && url != s.searches[e.i].url ==> t.locks[url] == s.locks[url])
            && (forall j: nat :: GaveBack(s, j) ==> GaveBack(t, j))
            && (forall j: nat :: j != e.i && Active(s, j) ==> Active(t, j))
  {
    EventIsOneRelease(s, e);
    var s1 := if e.Entry? then s else AfterRelease(s, e.i);
    if !e.Entry? {
      ReleaseKeepsInv(s, e.i);
    }
    OwnStepKeepsLocks(s1, e.i, OwnStep(s.searches[e.i], e));
    hide Active, GaveBack, Inv, Step, AfterRelease;
  }

  lemma StartKeepsInv(s: State, url: string)
    requires Inv(s)
    ensures Inv(AfterStart(s, url))
    ensures forall j :: 0 <= j < |s.searches| ==>
              (Active(AfterStart(s, url), j) <==> Active(s, j)) && (Granted(s, j) ==> Granted(AfterStart(s, url), j))
  {
    var lock := LockOf(s, url);
    assert Locking.Inv(lock);
    Locking.StepKeepsInv(lock, Requested);
    assert Request(lock).requests == lock.requests + 1;
    hide Locking.Inv, Request;
    forall j | 0 <= j < |s.searches| && s.searches[j].url == url
      ensures (Active(AfterStart(s, url), j) <==> Active(s, j)) && (Granted(s, j) ==> Granted(AfterStart(s, url), j))
    {
      StepLeavesOthers(lock, Requested, s.searches[j].handle);
    }
  }

  lemma ActiveIsExclusive(s: State)
    requires Inv(s)
    ensures forall i: nat, j: nat :: Active(s, i) && Active(s, j) && s.searches[i].url == s.searches[j].url ==> i == j
  {
  }

  ghost predicate SearchRun(s: State, events: seq<SearchEvent>, t: State)
    decreases |events|
  {
    if events == [] then s == t
    else Enabled(s, events[0]) && SearchRun(Step(s, events[0]), events[1..], t)
  }

  /** A search that is over: settled and without the lock. */
  predicate Over(s: State, i: nat) {
    GaveBack(s, i) && s.searches[i].outcome != Pending
  }

  lemma StepKeepsOver(s: State, e: SearchEvent, i: nat)
    requires Inv(s) && Enabled(s, e)
    ensures Inv(Step(s, e)) && |s.searches| <= |Step(s, e).searches|
    ensures Over(s, i) ==> Over(Step(s, e), i) && Step(s, e).searches[i].outcome == s.searches[i].outcome
    ensures (e.Failed? || e.Ended?) && e.i == i ==> Over(Step(s, e), i)
  {
    assert (GaveBack(s, i) ==> i < |s.searches|) && (!e.Started? ==> e.i < |s.searches|);
    hide Active, Granted, AfterRelease, AfterSettling, AfterError;
    if e.Started? {
      StartKeepsInv(s, e.url);
    } else {
      EventTouchesOwnLockOnly(s, e);
    }
  }

  /**
   In every run from a state where search `i` is over - it has seen an error or its end - none of its
   further events changes any lock, and its outcome stays; at every time at most one search per URL
   is using the server.
   */
  lemma {:induction false} SecondReleaseFreesNobody(s: State, events: seq<SearchEvent>, t: State, i: nat)
    requires Inv(s) && SearchRun(s, events, t) && Over(s, i)
    ensures Inv(t) && Over(t, i) && t.searches[i].outcome == s.searches[i].outcome
    ensures forall e :: Enabled(t, e) && !e.Started? && e.i == i ==> Step(t, e).locks == t.locks
    ensures forall j: nat, k: nat :: Active(t, j) && Active(t, k) && t.searches[j].url == t.searches[k].url ==> j == k
    decreases |events|
  {
    hide Step, Active, Granted;
    if events == [] {
      ActiveIsExclusive(s);
      forall e | Enabled(s, e) && !e.Started? && e.i == i ensures Step(s, e).locks == s.locks {
        EventTouchesOwnLockOnly(s, e);
      }
    } else {
      StepKeepsOver(s, events[0], i);
      SecondReleaseFreesNobody(Step(s, events[0]), events[1..], t, i);
    }
  }

  // ---- what one event of a search does to it ----

  /**
   A new search has no objects and is unsettled; it uses the server at once exactly if nobody holds the lock of its URL, and
   is the last to wait for it otherwise.
   */
  lemma StartOpensASearch(s: State, url: string)
    requires Inv(s)
    ensures var t, i := Step(s, Started(url)), |s.searches|;
            && |t.searches| == i + 1 && t.searches[..i] == s.searches
            && t.searches[i].url == url && t.searches[i].objects == [] && t.searches[i].outcome == Pending
            && url in t.locks && t.locks[url].locked
            && (Active(t, i) <==> url !in s.locks || !s.locks[url].locked)
            && (!Active(t, i) ==> t.locks[url].queue == s.locks[url].queue + [t.searches[i].handle])
            && (forall other :: other in s.locks && other != url ==> other in t.locks && t.locks[other] == s.locks[other])
  {
  }

  /** Whatever comes first settles a search: an error or a failed end rejects it, a successful end resolves it with its objects. */
  lemma EventSettles(s: State, e: SearchEvent)
    requires Enabled(s, e) && !e.Started?
    ensures var x, y := s.searches[e.i], Step(s, e).searches[e.i];
            && y.url == x.url && y.handle == x.handle
            && y.objects == (if e.Entry? then x.objects + [e.item] else x.objects)
            && y.outcome == (if e.Entry? || x.outcome != Pending then x.outcome
                             else if e.Ended? && e.status == 0 then Resolved(x.objects)
                             else Rejected)
            && forall j :: 0 <= j < |s.searches| && j != e.i ==> Step(s, e).searches[j] == s.searches[j]
  {
  }

  /** The entries search `i` receives in the course of a run. */
  function EntriesFor(events: seq<SearchEvent>, i: nat): seq<string> {
    if events == [] then []
    else EntryFor(events[0], i) + EntriesFor(events[1..], i)
  }

  function EntryFor(e: SearchEvent, i: nat): seq<string> {
    if e.Entry? && e.i == i then [e.item] else []
  }

  lemma StepCollects(s: State, e: SearchEvent, i: nat)
    requires Inv(s) && Enabled(s, e) && i < |s.searches|
    requires e.Failed? || e.Ended? ==> e.i != i
    ensures Inv(Step(s, e)) && i < |Step(s, e).searches|
    ensures Step(s, e).searches[i] == s.searches[i].(objects := s.searches[i].objects + EntryFor(e, i))
  {
    assert s.searches[i].objects + [] == s.searches[i].objects;
    if e.Started? {
      StartKeepsInv(s, e.url);
    } else {
      EventTouchesOwnLockOnly(s, e);
      hide Step, Inv, Active, GaveBack, Enabled;
    }
  }

  /** Until it fails or ends, a search collects exactly its own entries, in order, and stays unsettled. */
  lemma {:induction false} SearchCollectsItsEntries(s: State, events: seq<SearchEvent>, t: State, i: nat)
    requires Inv(s) && SearchRun(s, events, t) && i < |s.searches|
    requires forall k :: 0 <= k < |events| && (events[k].Failed? || events[k].Ended?) ==> events[k].i != i
    ensures Inv(t) && i < |t.searches| && t.searches[i] == s.searches[i].(objects := s.searches[i].objects + EntriesFor(events, i))
    decreases |events|
  {
    hide Step, Inv, Enabled, EntryFor;
    if events == [] {
      assert s.searches[i].objects + [] == s.searches[i].objects;
    } else {
      StepCollects(s, events[0], i);
      SearchCollectsItsEntries(Step(s, events[0]), events[1..], t, i);
      var before, first, rest := s.searches[i].objects, EntryFor(events[0], i), EntriesFor(events[1..], i);
      assert (before + first) + rest == before + (first + rest);
    }
  }

  lemma EndResolves(s: State, i: nat)
    requires Inv(s) && Enabled(s, Ended(i, 0)) && s.searches[i].outcome == Pending
    ensures Step(s, Ended(i, 0)).searches[i].outcome == Resolved(s.searches[i].objects)
  {
    EventTouchesOwnLockOnly(s, Ended(i, 0));
    hide Step, Inv, Active, GaveBack;
  }

  /** A successful end resolves the search with all its entries. */
  lemma {:induction false} EndResolvesWithItsEntries(s: State, events: seq<SearchEvent>, t: State, i: nat)
    requires Inv(s) && SearchRun(s, events, t) && i < |s.searches|
    requires s.searches[i].outcome == Pending && s.searches[i].objects == []
    requires forall k :: 0 <= k < |events| && (events[k].Failed? || events[k].Ended?) ==> events[k].i != i
    requires Enabled(t, Ended(i, 0))
    ensures Step(t, Ended(i, 0)).searches[i].outcome == Resolved(EntriesFor(events, i))
  {
    SearchCollectsItsEntries(s, events, t, i);
    hide Step, Inv, Enabled, SearchRun;
    EndResolves(t, i);
  }
}
