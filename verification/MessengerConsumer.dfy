/**
 The consumer of the internal queue.  The first half is the program: expand, execute, settle.
 The second half is the queueing system around it as a transition system in which any number of
 messages is in flight, every awaited call may fail, and messages may arrive at any time.
 */
module MessengerConsumer {
  import opened Wrappers
  import opened Sequences
  import opened MessengerMessages
  import opened MessengerProducer

  datatype Sent = Sent(message: OutMessage, priority: nat)

  datatype Settlement = Acked | Dropped | Requeued

  /** What executing a message amounts to when no call fails. */
  datatype Plan = Reject | Throw | Send(sent: Sent) | FanOut

  function PlanFor(db: Db, body: Body): Plan {
    if body.Unparsable? then Throw
    else if !ValidMessage(body.content) then Reject
    else
      var c := Expanded(db, body.content);
      if !MessengerIsActivated(c.school) then Reject
      else if c.action.value.SyncSchool? then FanOut
      else
        var built := Built(db, c);
        if built.None? then Throw else Send(Sent(built.value, if c.schoolSync then 0 else 2))
  }

  // ---- the program ----

  /** Which of the awaited calls fail. */
  datatype Faults = Faults(expand: bool, users: bool, courses: bool, build: bool)

  datatype Execution = Returned(success: bool) | Threw

  datatype Effect = Effect(requests: seq<Content>, sent: seq<Sent>, execution: Execution)

  /** The effect of one execution, given which calls fail. */
  function EffectOf(db: Db, body: Body, faults: Faults): Effect {
    if body.Json? && ValidMessage(body.content) && faults.expand then Effect([], [], Threw)
    else
      match PlanFor(db, body)
      case Reject => Effect([], [], Returned(false))
      case Throw => Effect([], [], Threw)
      case Send(sent) => if faults.build then Effect([], [], Threw) else Effect([], [sent], Returned(true))
      case FanOut =>
        var schoolId := body.content.schoolId.value;
        if faults.users then Effect([], [], Threw)
        else if faults.courses then Effect(UserRequests(db, schoolId, true), [], Threw)
        else Effect(UserRequests(db, schoolId, true) + RemovedRoomRequests(db, schoolId, true), [], Returned(true))
  }

  function SettlementFor(execution: Execution, redelivered: bool): Settlement {
    match execution
    case Returned(success) => if success then Acked else Dropped
    case Threw => if redelivered then Dropped else Requeued
  }

  /** The parsed message, whose missing fields are filled in place. */
  class MessageData {
    var content: Content

    constructor (c: Content)
      ensures content == c
    {
      content := c;
    }

    method ExpandUser(db: Db)
      modifies this
      ensures content == WithUser(db, old(content))
    {
      if content.user.None? && Truthy(content.userId) {
        var found := FindUser(db, content.userId.value);
        var schoolId := if found.Some? then Some(found.value.schoolId) else None;
        content := content.(user := found, schoolId := SchoolOr(content.schoolId, schoolId));
      }
    }

    method ExpandCourse(db: Db)
      modifies this
      ensures content == WithCourse(db, old(content))
    {
      if content.course.None? && Truthy(content.courseId) {
        var found := FindCourse(db, content.courseId.value);
        var schoolId := if found.Some? then Some(found.value.schoolId) else None;
        content := content.(course := found, schoolId := SchoolOr(content.schoolId, schoolId));
      }
    }

    method ExpandTeam(db: Db)
      modifies this
      ensures content == WithTeam(db, old(content))
    {
      if content.team.None? && Truthy(content.teamId) {
        var found := FindTeam(db, content.teamId.value);
        var schoolId := if found.Some? then Some(found.value.schoolId) else None;
        content := content.(team := found, schoolId := SchoolOr(content.schoolId, schoolId));
      }
    }

    method ExpandContentIds(db: Db)
      modifies this
      ensures content == Expanded(db, old(content))
    {
      ExpandUser(db);
      ExpandCourse(db);
      ExpandTeam(db);
      if content.school.None? && Truthy(content.schoolId) {
        content := content.(school := FindSchool(db, content.schoolId.value));
      }
    }
  }

  class Consumer {
    const producer: Producer
    var external: seq<Sent>
    var settled: seq<Settlement>

    constructor (p: Producer)
      ensures producer == p && external == [] && settled == []
    {
      producer := p;
      external, settled := [], [];
    }

    method SendToExternalQueue(message: OutMessage, priority: nat)
      modifies this`external
      ensures external == old(external) + [Sent(message, priority)]
    {
      external := external + [Sent(message, priority)];
    }

    method ExecuteMessage(db: Db, body: Body, faults: Faults) returns (execution: Execution)
      modifies this`external, producer
      ensures producer.sent == old(producer.sent) + EffectOf(db, body, faults).requests
      ensures external == old(external) + EffectOf(db, body, faults).sent
      ensures execution == EffectOf(db, body, faults).execution
    {
      hide Expanded, Built, UserRequests, RemovedRoomRequests, MessengerIsActivated;
      if body.Unparsable? {
        return Threw;
      }
      var data := new MessageData(body.content);
      if !ValidMessage(data.content) {
        return Returned(false);
      }
      if faults.expand {
        return Threw;
      }
      data.ExpandContentIds(db);
      var c := data.content;
      if !MessengerIsActivated(c.school) {
        return Returned(false);
      }
      var priority := if c.schoolSync then 0 else 2;
      if c.action.value.SyncSchool? {
        if faults.users {
          return Threw;
        }
        producer.RequestSyncForEachSchoolUser(db, c.schoolId.value, true);
        if faults.courses {
          return Threw;
        }
        producer.RequestRemovalOfRemovedRooms(db, c.schoolId.value, true);
      } else {
        var outgoing := Built(db, c);
        if outgoing.None? || faults.build {
          return Threw;
        }
        SendToExternalQueue(outgoing.value, priority);
      }
      return Returned(true);
    }

    /** One delivery: exactly one settlement is recorded, whatever happens. */
    method HandleMessage(db: Db, body: Body, redelivered: bool, faults: Faults) returns (success: bool)
      modifies this, producer
      ensures producer.sent == old(producer.sent) + EffectOf(db, body, faults).requests
      ensures external == old(external) + EffectOf(db, body, faults).sent
      ensures settled == old(settled) + [SettlementFor(EffectOf(db, body, faults).execution, redelivered)]
      ensures success <==> settled[|settled| - 1] == Acked
    {
      var execution := ExecuteMessage(db, body, faults);
      match execution
      case Returned(ok) =>
        settled := settled + [if ok then Acked else Dropped];
        success := ok;
      case Threw =>
        settled := settled + [if !redelivered then Requeued else Dropped];
        success := false;
    }
  }

  // ---- the queueing system ----

  datatype Status = Queued | Begun | UsersSent | Done

  /** A message with its whole history; a requeued message keeps its place in the queue. */
  datatype Item = Item(body: Body, redelivered: bool, status: Status, deliveries: nat, settlements: seq<Settlement>)

  datatype State = State(items: seq<Item>, external: seq<Sent>)

  /** A step: a message arrives, or message `i` is delivered, goes on, or sees a call fail. */
  datatype Event = Arrive(body: Body) | Deliver(i: nat) | Proceed(db: Db, i: nat) | Fail(i: nat)

  function Fresh(body: Body): Item {
    Item(body, false, Queued, 0, [])
  }

  function FreshAll(contents: seq<Content>): seq<Item> {
    Map((c: Content) => Fresh(Json(c)), contents)
  }

  predicate InFlight(it: Item) {
    it.status == Begun || it.status == UsersSent
  }

  predicate IsSchoolSync(body: Body) {
    body.Json? && ValidMessage(body.content) && body.content.action.value.SyncSchool?
  }

  function SchoolOf(body: Body): Id {
    if body.Json? && body.content.schoolId.Some? then body.content.schoolId.value else ""
  }

  function Settle(it: Item, how: Settlement): Item {
    if how == Requeued then it.(status := Queued, redelivered := true, settlements := it.settlements + [how])
    else it.(status := Done, settlements := it.settlements + [how])
  }

  predicate ItemEnabled(it: Item, e: Event) {
    match e
    case Arrive(_) => false
    case Deliver(_) => it.status == Queued
    case Proceed(db, _) => it.status == UsersSent || (it.status == Begun && PlanFor(db, it.body) != Throw)
    case Fail(_) => InFlight(it)
  }

  /** The message after the step, the messages it puts on the internal and on the external queue. */
  function After(it: Item, e: Event): Item {
    match e
    case Arrive(_) => it
    case Deliver(_) => it.(status := Begun, deliveries := it.deliveries + 1)
    case Fail(_) => Settle(it, SettlementFor(Threw, it.redelivered))
    case Proceed(db, _) =>
      if it.status == UsersSent then Settle(it, Acked)
      else
        match PlanFor(db, it.body)
        case Reject => Settle(it, Dropped)
        case Send(_) => Settle(it, Acked)
        case FanOut => it.(status := UsersSent)
        case Throw => it
  }

  function Requests(it: Item, e: Event): seq<Content> {
    if !e.Proceed? then []
    else if it.status == UsersSent then RemovedRoomRequests(e.db, SchoolOf(it.body), true)
    else if PlanFor(e.db, it.body) == FanOut then UserRequests(e.db, SchoolOf(it.body), true)
    else []
  }

  function Output(it: Item, e: Event): seq<Sent> {
    if e.Proceed? && it.status == Begun && PlanFor(e.db, it.body).Send? then [PlanFor(e.db, it.body).sent] else []
  }

  predicate Enabled(s: State, e: Event) {
    e.Arrive? || (e.i < |s.items| && ItemEnabled(s.items[e.i], e))
  }

  /** Message `i` replaced, and new messages and output appended. */
  function Became(s: State, i: nat, it: Item, requests: seq<Content>, sent: seq<Sent>): State
    requires i < |s.items|
  {
    State(s.items[i := it] + FreshAll(requests), s.external + sent)
  }

  function Next(s: State, e: Event): State
    requires Enabled(s, e)
  {
    if e.Arrive? then s.(items := s.items + [Fresh(e.body)])
    else
      var it := s.items[e.i];
      Became(s, e.i, After(it, e), Requests(it, e), Output(it, e))
  }

  ghost predicate Run(s: State, events: seq<Event>, t: State)
    decreases |events|
  {
    if events == [] then s == t
    else Enabled(s, events[0]) && Run(Next(s, events[0]), events[1..], t)
  }

  // ---- every delivery is settled exactly once ----

  /** The settlements that precede the last delivery. */
  function Earlier(it: Item): seq<Settlement> {
    if it.redelivered then [Requeued] else []
  }

  predicate ItemInv(it: Item) {
    && (it.status == UsersSent ==> IsSchoolSync(it.body))
    && (if it.status == Done
        then it.settlements == Earlier(it) + [Acked] || it.settlements == Earlier(it) + [Dropped]
        else it.settlements == Earlier(it))
    && it.deliveries == |it.settlements| + if InFlight(it) then 1 else 0
  }

  predicate Inv(s: State) {
    forall i :: 0 <= i < |s.items| ==> ItemInv(s.items[i])
  }

  lemma AfterKeepsItemInv(it: Item, e: Event)
    requires ItemInv(it) && ItemEnabled(it, e)
    ensures ItemInv(After(it, e)) && it.settlements <= After(it, e).settlements && it.status != Done
  {
    hide MessengerIsActivated, Expanded, Built;
  }

  lemma StepKeepsInv(s: State, e: Event)
    requires Inv(s) && Enabled(s, e)
    ensures Inv(Next(s, e)) && |s.items| <= |Next(s, e).items|
    ensures forall i :: 0 <= i < |s.items| ==> s.items[i].settlements <= Next(s, e).items[i].settlements
    ensures forall i :: 0 <= i < |s.items| && s.items[i].status == Done ==> s.items[i] == Next(s, e).items[i]
  {
    hide PlanFor, UserRequests, RemovedRoomRequests, After, Requests, Output;
    if !e.Arrive? {
      AfterKeepsItemInv(s.items[e.i], e);
    }
  }

  function Count(how: Settlement, log: seq<Settlement>): nat {
    |Filter((x: Settlement) => x == how, log)|
  }

  lemma CountsOf(it: Item)
    requires ItemInv(it)
    ensures Count(Requeued, it.settlements) <= 1
    ensures Count(Acked, it.settlements) + Count(Dropped, it.settlements) == if it.status == Done then 1 else 0
  {
    var log, first := it.settlements, Earlier(it);
    if it.status == Done {
      forall how: Settlement ensures Count(how, log) == Count(how, first) + Count(how, [log[|first|]]) {
        FilterAppend((x: Settlement) => x == how, first, [log[|first|]]);
      }
    }
  }

  /** What the log of one message looks like at any time. */
  predicate SettledOnce(it: Item) {
    && |it.settlements| == it.deliveries - (if InFlight(it) then 1 else 0)
    && Count(Requeued, it.settlements) <= 1
    && Count(Acked, it.settlements) + Count(Dropped, it.settlements) == (if it.status == Done then 1 else 0)
    && it.deliveries <= 2
  }

  lemma InvSettlesOnce(s: State)
    requires Inv(s)
    ensures forall i :: 0 <= i < |s.items| ==> SettledOnce(s.items[i])
  {
    forall i | 0 <= i < |s.items| ensures SettledOnce(s.items[i]) {
      CountsOf(s.items[i]);
    }
  }

  /**
   Whatever arrives, interleaves and fails: deliveries and settlements match one to one, the handler
   requeues a message at most once, and gives it at most one final settlement, after which nothing
   happens to it any more.
   */
  lemma {:induction false} EveryDeliveryIsSettledOnce(s: State, events: seq<Event>, t: State)
    requires Inv(s) && Run(s, events, t)
    ensures Inv(t) && |s.items| <= |t.items|
    ensures forall i :: 0 <= i < |t.items| ==> SettledOnce(t.items[i])
    ensures forall i :: 0 <= i < |s.items| ==> s.items[i].settlements <= t.items[i].settlements
    ensures forall i :: 0 <= i < |s.items| && s.items[i].status == Done ==> s.items[i] == t.items[i]
    decreases |events|
  {
    hide Next, Enabled, ItemInv, SettledOnce;
    if events == [] {
      InvSettlesOnce(s);
    } else {
      StepKeepsInv(s, events[0]);
      EveryDeliveryIsSettledOnce(Next(s, events[0]), events[1..], t);
    }
  }

  // ---- nothing that arrives is lost ----

  lemma StepKeepsMessages(s: State, e: Event)
    requires Enabled(s, e)
    ensures |s.items| <= |Next(s, e).items| && s.external <= Next(s, e).external
    ensures forall i :: 0 <= i < |s.items| ==> Next(s, e).items[i].body == s.items[i].body
    ensures forall i :: 0 <= i < |s.items| && (e.Arrive? || e.i != i) ==> Next(s, e).items[i] == s.items[i]
    ensures e.Arrive? ==> Next(s, e).external == s.external && |Next(s, e).items| == |s.items| + 1
    ensures e.Arrive? ==> Next(s, e).items[|s.items|] == Item(e.body, false, Queued, 0, [])
  {
    hide PlanFor, UserRequests, RemovedRoomRequests, Requests, Output;
  }

  /** Every run keeps the messages it started with and has each arrival among the messages after them. */
  lemma {:induction false} ArrivalsAreKept(s: State, events: seq<Event>, t: State)
    requires Run(s, events, t)
    ensures |s.items| <= |t.items| && s.external <= t.external
    ensures forall i :: 0 <= i < |s.items| ==> t.items[i].body == s.items[i].body
    ensures forall e :: e in events && e.Arrive? ==> exists k :: |s.items| <= k < |t.items| && t.items[k].body == e.body
    decreases |events|
  {
    hide Next, Enabled;
    if events != [] {
      var next := Next(s, events[0]);
      StepKeepsMessages(s, events[0]);
      ArrivalsAreKept(next, events[1..], t);
      if events[0].Arrive? {
        assert t.items[|s.items|].body == next.items[|s.items|].body == events[0].body;
      }
    }
  }

  // ---- draining terminates ----

  const LEAF := 4

  function Weight(it: Item): nat {
    if it.status == Done then 0
    else if !IsSchoolSync(it.body) then
      (if it.redelivered then 0 else 2) + if it.status == Queued then 2 else 1
    else
      var lastCourses := LEAF * COURSE_PAGE + 1;
      var lastUsers := lastCourses + LEAF * USER_PAGE + 1;
      var retried := lastUsers + 1;
      if it.redelivered then
        if it.status == Queued then retried else if it.status == Begun then lastUsers else lastCourses
      else
        if it.status == Queued then retried + lastUsers + 1
        else if it.status == Begun then retried + lastUsers
        else retried + lastCourses
  }

  function TotalWeight(items: seq<Item>): nat {
    if items == [] then 0 else Weight(items[0]) + TotalWeight(items[1..])
  }

  lemma {:induction false} TotalWeightAppend(a: seq<Item>, b: seq<Item>)
    ensures TotalWeight(a + b) == TotalWeight(a) + TotalWeight(b)
  {
    hide Weight;
    if a == [] {
      assert a + b == b;
    } else {
      TotalWeightAppend(a[1..], b);
      assert (a + b)[1..] == a[1..] + b;
    }
  }

  lemma TotalWeightUpdate(items: seq<Item>, i: nat, it: Item)
    requires i < |items|
    ensures TotalWeight(items[i := it]) == TotalWeight(items) - Weight(items[i]) + Weight(it)
  {
    hide Weight;
    var a, b := items[..i], items[i + 1..];
    assert items == a + ([items[i]] + b);
    assert items[i := it] == a + ([it] + b);
    TotalWeightAppend(a, [items[i]] + b);
    TotalWeightAppend(a, [it] + b);
    TotalWeightAppend([items[i]], b);
    TotalWeightAppend([it], b);
  }

  lemma {:induction false} FreshLeavesWeigh(contents: seq<Content>)
    requires forall c :: c in contents ==> !IsSchoolSync(Json(c))
    ensures TotalWeight(FreshAll(contents)) == LEAF * |contents|
  {
    if contents != [] {
      FreshLeavesWeigh(contents[1..]);
      assert FreshAll(contents)[1..] == FreshAll(contents[1..]);
    }
  }

  /** The messages a fan-out creates do not fan out themselves. */
  lemma RequestsAreLeaves(it: Item, e: Event)
    ensures forall c :: c in Requests(it, e) ==> !IsSchoolSync(Json(c))
    ensures |Requests(it, e)| <= if it.status == UsersSent then COURSE_PAGE else USER_PAGE
  {
  }

  lemma AfterLosesWeight(it: Item, e: Event)
    requires ItemInv(it) && ItemEnabled(it, e)
    ensures Weight(After(it, e)) + LEAF * |Requests(it, e)| < Weight(it)
  {
    hide MessengerIsActivated, Expanded, Built, UserRequests, RemovedRoomRequests, ValidId;
    RequestsAreLeaves(it, e);
  }

  function ArrivedWeight(events: seq<Event>): nat {
    if events == [] then 0
    else (if events[0].Arrive? then 1 + Weight(Fresh(events[0].body)) else 0) + ArrivedWeight(events[1..])
  }

  lemma StepLosesWeight(s: State, e: Event)
    requires Inv(s) && Enabled(s, e)
    ensures TotalWeight(Next(s, e).items) < TotalWeight(s.items) + ArrivedWeight([e])
  {
    hide Weight, ItemEnabled, After, Requests, Output, ItemInv, FreshAll;
    if e.Arrive? {
      TotalWeightAppend(s.items, [Fresh(e.body)]);
      assert TotalWeight([Fresh(e.body)]) == Weight(Fresh(e.body));
    } else {
      var it := s.items[e.i];
      RequestsAreLeaves(it, e);
      AfterLosesWeight(it, e);
      TotalWeightUpdate(s.items, e.i, After(it, e));
      FreshLeavesWeigh(Requests(it, e));
      TotalWeightAppend(s.items[e.i := After(it, e)], FreshAll(Requests(it, e)));
    }
  }

  /**
   A run takes at most as many steps as its messages weigh: even when schools fan out, fail halfway
   and fan out again, and even when the database changes between the steps.
   */
  lemma {:induction false} DrainingTerminates(s: State, events: seq<Event>, t: State)
    requires Inv(s) && Run(s, events, t)
    ensures |events| + TotalWeight(t.items) <= TotalWeight(s.items) + ArrivedWeight(events)
    decreases |events|
  {
    hide Next, Enabled, ItemInv, Weight;
    if events != [] {
      StepKeepsInv(s, events[0]);
      StepLosesWeight(s, events[0]);
      DrainingTerminates(Next(s, events[0]), events[1..], t);
    }
  }
}
