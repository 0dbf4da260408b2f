/**
 What draining the internal queue achieves: the messages the queue owes to the external queue are
 conserved step by step, so a school sync reaches every user and every archived course.
 */
module MessengerDelivery {
  import opened Wrappers
  import opened Sequences
  import opened MessengerMessages
  import opened MessengerProducer
  import opened MessengerConsumer

  // ---- one call of the handler is a run of the queueing system ----

  function HandlingEvents(db: Db, i: nat, body: Body, faults: Faults): seq<Event> {
    [Deliver(i)] +
    if body.Json? && ValidMessage(body.content) && faults.expand then [Fail(i)]
    else
      match PlanFor(db, body)
      case Reject => [Proceed(db, i)]
      case Throw => [Fail(i)]
      case Send(_) => if faults.build then [Fail(i)] else [Proceed(db, i)]
      case FanOut =>
        if faults.users then [Fail(i)]
        else [Proceed(db, i)] + if faults.courses then [Fail(i)] else [Proceed(db, i)]
  }

  /** The message as the handler leaves it. */
  function Handled(it: Item, effect: Effect): Item {
    Settle(it.(deliveries := it.deliveries + 1), SettlementFor(effect.execution, it.redelivered))
  }

  /** A message alone: the steps are taken one after the other and what they produce is collected. */
  ghost predicate ItemRun(it: Item, events: seq<Event>, end: Item, requests: seq<Content>, sent: seq<Sent>)
    decreases |events|
  {
    if events == [] then it == end && requests == [] && sent == []
    else
      var e := events[0];
      && ItemEnabled(it, e)
      && Requests(it, e) <= requests && Output(it, e) <= sent
      && ItemRun(After(it, e), events[1..], end, requests[|Requests(it, e)|..], sent[|Output(it, e)|..])
  }

  lemma BecameTwice(s: State, i: nat, a: Item, b: Item, r1: seq<Content>, r2: seq<Content>, o1: seq<Sent>, o2: seq<Sent>)
    requires i < |s.items|
    ensures Became(Became(s, i, a, r1, o1), i, b, r2, o2) == Became(s, i, b, r1 + r2, o1 + o2)
  {
  }

  lemma {:induction false} ItemRunIsRun(s: State, i: nat, events: seq<Event>, end: Item, requests: seq<Content>, sent: seq<Sent>)
    requires i < |s.items| && ItemRun(s.items[i], events, end, requests, sent)
    requires forall k :: 0 <= k < |events| ==> !events[k].Arrive? && events[k].i == i
    ensures Run(s, events, Became(s, i, end, requests, sent))
    decreases |events|
  {
    hide ItemEnabled, After, Requests, Output;
    if events == [] {
      assert s.items[i := end] + FreshAll([]) == s.items;
    } else {
      var e, it := events[0], s.items[i];
      var r, o := Requests(it, e), Output(it, e);
      ItemRunIsRun(Next(s, e), i, events[1..], end, requests[|r|..], sent[|o|..]);
      BecameTwice(s, i, After(it, e), end, r, requests[|r|..], o, sent[|o|..]);
      assert r + requests[|r|..] == requests && o + sent[|o|..] == sent;
    }
  }

  lemma {:induction false} ItemStep(it: Item, e: Event, rest: seq<Event>, end: Item, requests: seq<Content>, sent: seq<Sent>)
    requires ItemEnabled(it, e) && ItemRun(After(it, e), rest, end, requests, sent)
    ensures ItemRun(it, [e] + rest, end, Requests(it, e) + requests, Output(it, e) + sent)
  {
  }

  lemma {:induction false} LastItemStep(it: Item, e: Event)
    requires ItemEnabled(it, e)
    ensures ItemRun(it, [e], After(it, e), Requests(it, e), Output(it, e))
  {
  }

  /** The rest of the handling, once the message has been delivered. */
  lemma {:induction false} WorkIsAnItemRun(it: Item, db: Db, i: nat, faults: Faults)
    requires it.status == Begun
    ensures var effect := EffectOf(db, it.body, faults);
            ItemRun(it, HandlingEvents(db, i, it.body, faults)[1..], Settle(it, SettlementFor(effect.execution, it.redelivered)),
                    effect.requests, effect.sent)
  {
    hide ItemRun, MessengerIsActivated, Expanded, Built, UserRequests, RemovedRoomRequests, ValidId;
    var events := HandlingEvents(db, i, it.body, faults);
    if |events| == 2 {
      LastItemStep(it, events[1]);
      assert events[1..] == [events[1]];
    } else {
      var mid := After(it, events[1]);
      LastItemStep(mid, events[2]);
      ItemStep(it, events[1], [events[2]], After(mid, events[2]), Requests(mid, events[2]), Output(mid, events[2]));
      assert events[1..] == [events[1]] + [events[2]];
      var users := UserRequests(db, SchoolOf(it.body), true);
      assert users + [] == users;
      assert [] + [] == Output(it, events[1]);
    }
  }

  lemma {:induction false} HandlingIsAnItemRun(it: Item, db: Db, i: nat, faults: Faults)
    requires it.status == Queued
    ensures var effect := EffectOf(db, it.body, faults);
            ItemRun(it, HandlingEvents(db, i, it.body, faults), Handled(it, effect), effect.requests, effect.sent)
  {
    hide ItemRun, PlanFor;
    var effect, events := EffectOf(db, it.body, faults), HandlingEvents(db, i, it.body, faults);
    var begun := After(it, Deliver(i));
    WorkIsAnItemRun(begun, db, i, faults);
    ItemStep(it, Deliver(i), events[1..], Handled(it, effect), effect.requests, effect.sent);
    assert [Deliver(i)] + events[1..] == events;
    assert [] + effect.requests == effect.requests && [] + effect.sent == effect.sent;
  }

  /** The effects the handler records are those of an uninterrupted run on its message. */
  lemma {:induction false} HandlingIsARun(s: State, db: Db, i: nat, faults: Faults)
    requires i < |s.items| && s.items[i].status == Queued
    ensures var effect := EffectOf(db, s.items[i].body, faults);
            Run(s, HandlingEvents(db, i, s.items[i].body, faults),
                Became(s, i, Handled(s.items[i], effect), effect.requests, effect.sent))
  {
    HandlingIsAnItemRun(s.items[i], db, i, faults);
    hide EffectOf, ItemRun, Handled, Became, Run;
    var effect := EffectOf(db, s.items[i].body, faults);
    ItemRunIsRun(s, i, HandlingEvents(db, i, s.items[i].body, faults), Handled(s.items[i], effect), effect.requests, effect.sent);
  }

  // ---- what a message owes, counted for one external message `x` at a time ----

  function LeafOutput(db: Db, body: Body, x: Sent): nat {
    if PlanFor(db, body) == Send(x) then 1 else 0
  }

  function OutputOfAll(db: Db, contents: seq<Content>, x: Sent): nat {
    if contents == [] then 0
    else LeafOutput(db, Json(contents[0]), x) + OutputOfAll(db, contents[1..], x)
  }

  /** How often an unsettled message still stands for `x`. */
  function Owed(db: Db, it: Item, x: Sent): nat {
    if it.status == Done then 0
    else if !IsSchoolSync(it.body) then LeafOutput(db, it.body, x)
    else
      var courses := OutputOfAll(db, RemovedRoomRequests(db, SchoolOf(it.body), true), x);
      if it.status == UsersSent then courses
      else if PlanFor(db, it.body) != FanOut then 0
      else OutputOfAll(db, UserRequests(db, SchoolOf(it.body), true), x) + courses
  }

  function OwedBy(db: Db, x: Sent): Item -> nat {
    (it: Item) => Owed(db, it, x)
  }

  function Sum(f: Item -> nat, items: seq<Item>): nat {
    if items == [] then 0 else f(items[0]) + Sum(f, items[1..])
  }

  function Total(db: Db, s: State, x: Sent): nat {
    multiset(s.external)[x] + Sum(OwedBy(db, x), s.items)
  }

  lemma {:induction false} SumAppend(f: Item -> nat, a: seq<Item>, b: seq<Item>)
    ensures Sum(f, a + b) == Sum(f, a) + Sum(f, b)
  {
    if a == [] {
      assert a + b == b;
    } else {
      SumAppend(f, a[1..], b);
      assert (a + b)[1..] == a[1..] + b;
    }
  }

  lemma {:induction false} SumUpdate(f: Item -> nat, items: seq<Item>, i: nat, it: Item)
    requires i < |items|
    ensures Sum(f, items[i := it]) == Sum(f, items) - f(items[i]) + f(it)
  {
    var a, b := items[..i], items[i + 1..];
    assert items == a + ([items[i]] + b);
    assert items[i := it] == a + ([it] + b);
    SumAppend(f, a, [items[i]] + b);
    SumAppend(f, a, [it] + b);
    SumAppend(f, [items[i]], b);
    SumAppend(f, [it], b);
  }

  /** A new message that does not fan out counts as often as it will be sent. */
  ghost predicate CountsLeaves(db: Db, f: Item -> nat, x: Sent) {
    forall c :: !IsSchoolSync(Json(c)) ==> f(Fresh(Json(c))) == LeafOutput(db, Json(c), x)
  }

  lemma {:induction false} FreshLeavesCount(db: Db, f: Item -> nat, contents: seq<Content>, x: Sent)
    requires CountsLeaves(db, f, x) && forall c :: c in contents ==> !IsSchoolSync(Json(c))
    ensures Sum(f, FreshAll(contents)) == OutputOfAll(db, contents, x)
  {
    hide IsSchoolSync, LeafOutput;
    if contents != [] {
      FreshLeavesCount(db, f, contents[1..], x);
      assert FreshAll(contents)[1..] == FreshAll(contents[1..]);
      assert FreshAll(contents)[0] == Fresh(Json(contents[0])) && contents[0] in contents;
    }
  }

  lemma {:induction false} BecameCounts(db: Db, f: Item -> nat, s: State, i: nat, it: Item, requests: seq<Content>, sent: seq<Sent>, x: Sent)
    requires i < |s.items| && CountsLeaves(db, f, x) && forall c :: c in requests ==> !IsSchoolSync(Json(c))
    ensures var t := Became(s, i, it, requests, sent);
            multiset(t.external)[x] + Sum(f, t.items) ==
              multiset(s.external)[x] + Sum(f, s.items) - f(s.items[i]) + f(it) + OutputOfAll(db, requests, x) + multiset(sent)[x]
  {
    hide IsSchoolSync, FreshAll, OutputOfAll;
    SumUpdate(f, s.items, i, it);
    SumAppend(f, s.items[i := it], FreshAll(requests));
    FreshLeavesCount(db, f, requests, x);
    assert multiset(s.external + sent) == multiset(s.external) + multiset(sent);
  }

  /** A failure that the data force: the handler throws even when every call succeeds. */
  predicate ForcedFailure(db: Db, it: Item) {
    it.status == Begun && PlanFor(db, it.body) == Throw
  }

  predicate Draining(db: Db, s: State, e: Event) {
    Enabled(s, e) && !e.Arrive? && (e.Proceed? ==> e.db == db)
  }

  /** Either no call fails at all, or calls may fail but no message fails a second time. */
  predicate Allowed(db: Db, s: State, e: Event, faultFree: bool) {
    Draining(db, s, e) &&
    (e.Fail? && (faultFree || s.items[e.i].redelivered) ==> ForcedFailure(db, s.items[e.i]))
  }

  /** While the data stay as they are, a message that has fanned out would do so again. */
  predicate SteadyItem(db: Db, it: Item) {
    ItemInv(it) && (it.status == UsersSent ==> PlanFor(db, it.body) == FanOut)
  }

  predicate Steady(db: Db, s: State) {
    forall i :: 0 <= i < |s.items| ==> SteadyItem(db, s.items[i])
  }

  lemma AfterStaysSteady(db: Db, it: Item, e: Event)
    requires SteadyItem(db, it) && ItemEnabled(it, e) && (e.Proceed? ==> e.db == db)
    ensures SteadyItem(db, After(it, e))
  {
    AfterKeepsItemInv(it, e);
    hide PlanFor, ItemInv;
  }

  lemma StepStaysSteady(db: Db, s: State, e: Event)
    requires Steady(db, s) && Draining(db, s, e)
    ensures Steady(db, Next(s, e))
  {
    hide PlanFor, After, Requests, Output, ItemEnabled;
    AfterStaysSteady(db, s.items[e.i], e);
  }

  lemma {:induction false} AfterOwes(db: Db, it: Item, e: Event, faultFree: bool, x: Sent)
    requires SteadyItem(db, it) && ItemEnabled(it, e) && (e.Proceed? ==> e.db == db)
    requires e.Fail? && (faultFree || it.redelivered) ==> ForcedFailure(db, it)
    ensures Owed(db, it, x) <= Owed(db, After(it, e), x) + OutputOfAll(db, Requests(it, e), x) + multiset(Output(it, e))[x]
    ensures faultFree ==>
              Owed(db, it, x) == Owed(db, After(it, e), x) + OutputOfAll(db, Requests(it, e), x) + multiset(Output(it, e))[x]
  {
    hide MessengerIsActivated, Expanded, Built, UserRequests, RemovedRoomRequests, ValidId;
  }

  lemma StepOwes(db: Db, s: State, e: Event, faultFree: bool, x: Sent)
    requires Steady(db, s) && Allowed(db, s, e, faultFree)
    ensures Total(db, s, x) <= Total(db, Next(s, e), x)
    ensures faultFree ==> Total(db, s, x) == Total(db, Next(s, e), x)
  {
    var it := s.items[e.i];
    assert CountsLeaves(db, OwedBy(db, x), x);
    hide PlanFor, ItemEnabled, After, Requests, Output, Owed, Became, OutputOfAll, Sum, CountsLeaves;
    RequestsAreLeaves(it, e);
    AfterOwes(db, it, e, faultFree, x);
    BecameCounts(db, OwedBy(db, x), s, e.i, After(it, e), Requests(it, e), Output(it, e), x);
  }

  /** A run in which every step is allowed. */
  ghost predicate DrainingRun(db: Db, s: State, events: seq<Event>, t: State, faultFree: bool)
    decreases |events|
  {
    if events == [] then s == t
    else Allowed(db, s, events[0], faultFree) && DrainingRun(db, Next(s, events[0]), events[1..], t, faultFree)
  }

  /** Over any interleaving nothing owed is lost; without failures nothing is owed twice either. */
  lemma {:induction false} DrainingConserves(db: Db, s: State, events: seq<Event>, t: State, faultFree: bool, x: Sent)
    requires Steady(db, s) && DrainingRun(db, s, events, t, faultFree)
    ensures Total(db, s, x) <= Total(db, t, x)
    ensures faultFree ==> Total(db, s, x) == Total(db, t, x)
    decreases |events|
  {
    hide ForcedFailure, ItemEnabled, Steady, Total, Next;
    if events != [] {
      StepOwes(db, s, events[0], faultFree, x);
      StepStaysSteady(db, s, events[0]);
      DrainingConserves(db, Next(s, events[0]), events[1..], t, faultFree, x);
    }
  }

  predicate Drained(s: State) {
    forall i :: 0 <= i < |s.items| ==> s.items[i].status == Done
  }

  lemma {:induction false} NothingOwedWhenDone(db: Db, items: seq<Item>, x: Sent)
    requires forall i :: 0 <= i < |items| ==> items[i].status == Done
    ensures Sum(OwedBy(db, x), items) == 0
  {
    if items != [] {
      NothingOwedWhenDone(db, items[1..], x);
    }
  }

  // ---- whatever fails, nothing is sent too often ----

  /** How often an unsettled message can still lead to `x`: it may be started once more while it has not been redelivered. */
  function Cap(db: Db, it: Item, x: Sent): nat {
    if it.status == Done then 0
    else if !IsSchoolSync(it.body) then LeafOutput(db, it.body, x)
    else if PlanFor(db, it.body) != FanOut then 0
    else
      var users := OutputOfAll(db, UserRequests(db, SchoolOf(it.body), true), x);
      OutputOfAll(db, RemovedRoomRequests(db, SchoolOf(it.body), true), x) +
      (if it.status == UsersSent then 0 else users) + (if it.redelivered then 0 else users)
  }

  function CapOf(db: Db, x: Sent): Item -> nat {
    (it: Item) => Cap(db, it, x)
  }

  function Limit(db: Db, s: State, x: Sent): nat {
    multiset(s.external)[x] + Sum(CapOf(db, x), s.items)
  }

  lemma {:induction false} AfterCaps(db: Db, it: Item, e: Event, x: Sent)
    requires SteadyItem(db, it) && ItemEnabled(it, e) && (e.Proceed? ==> e.db == db)
    ensures Cap(db, After(it, e), x) + OutputOfAll(db, Requests(it, e), x) + multiset(Output(it, e))[x] <= Cap(db, it, x)
  {
    hide MessengerIsActivated, Expanded, Built, UserRequests, RemovedRoomRequests, ValidId;
  }

  lemma StepCaps(db: Db, s: State, e: Event, x: Sent)
    requires Steady(db, s) && Draining(db, s, e)
    ensures Limit(db, Next(s, e), x) <= Limit(db, s, x)
  {
    var it := s.items[e.i];
    assert CountsLeaves(db, CapOf(db, x), x);
    hide PlanFor, ItemEnabled, After, Requests, Output, Cap, Became, OutputOfAll, Sum, CountsLeaves;
    RequestsAreLeaves(it, e);
    AfterCaps(db, it, e, x);
    BecameCounts(db, CapOf(db, x), s, e.i, After(it, e), Requests(it, e), Output(it, e), x);
  }

  /** A run without arrivals in which anything may fail. */
  ghost predicate FailingRun(db: Db, s: State, events: seq<Event>, t: State)
    decreases |events|
  {
    if events == [] then s == t
    else Draining(db, s, events[0]) && FailingRun(db, Next(s, events[0]), events[1..], t)
  }

  /** Over any interleaving, with any failures, what has been sent stays within the limit. */
  lemma {:induction false} FailingRunsStayWithin(db: Db, s: State, events: seq<Event>, t: State, x: Sent)
    requires Steady(db, s) && FailingRun(db, s, events, t)
    ensures multiset(t.external)[x] <= Limit(db, t, x) <= Limit(db, s, x)
    decreases |events|
  {
    hide ItemEnabled, Steady, Next, Sum;
    if events != [] {
      hide Limit;
      StepCaps(db, s, events[0], x);
      StepStaysSteady(db, s, events[0]);
      FailingRunsStayWithin(db, Next(s, events[0]), events[1..], t, x);
    }
  }
}
