/**
 Any number of deletions that run side by side.  A state holds the store and how far each deletion has come, and a step
 is an awaited call of any of them.
 */
module ConcurrentDeletions {
  import opened Wrappers
  import opened Sequences
  import opened UserDeletion

  /** How far a deletion has come; the deletion of the pins counts as one call. */
  datatype Phase =
    | Asked
    | ReadUser(user: User)
    | ReadAccount(user: User, account: Option<Account>)
    | InTrashbin(user: User)
    | Overwritten(user: User)
    | WithoutAccount(user: User)
    | WithoutPins(user: User)
    | SawNone(schoolId: Id)
    | Made(schoolId: Id, tombstone: User)
    | Ended(outcome: Outcome)

  datatype Task = Task(r: Request, phase: Phase)

  datatype State = State(store: Store, tasks: seq<Task>)

  /** The next call of a deletion. */
  function After(s: Store, r: Request, p: Phase): (Store, Phase)
    requires !p.Ended?
  {
    match p
    case Asked =>
      if r.fault == AtReading then (s, Ended(Failed(AtReading)))
      else if r.userId !in s.users then (s, Ended(NotFound))
      else if s.users[r.userId].deleted then (s, Ended(AlreadyDeleted))
      else (s, ReadUser(s.users[r.userId]))
    case ReadUser(user) => (s, ReadAccount(user, Find(AccountTest(r.userId), s.accounts)))
    case ReadAccount(user, account) =>
      if r.fault == AtTrashbin then (s, Ended(Failed(AtTrashbin)))
      else (s.(trashbins := s.trashbins + [Trashbin(r.userId, [UserData(user), AccountData(account)])]), InTrashbin(user))
    case InTrashbin(user) =>
      if r.fault == AtOverwriting then (s, Ended(Failed(AtOverwriting)))
      else (s.(users := s.users[r.userId := Tombstone(r.uid, user.schoolId)]), Overwritten(user))
    case Overwritten(user) =>
      if r.fault == AtAccount then (s, Ended(Failed(AtAccount)))
      else (s.(accounts := WithoutFirst(s.accounts, r.userId)), WithoutAccount(user))
    case WithoutAccount(user) => (s.(pins := PinsLeft(s.pins, user, r.pinFailures)), WithoutPins(user))
    case WithoutPins(user) =>
      if r.fault == AtSchool then (s, Ended(Failed(AtSchool)))
      else if user.schoolId !in s.schools then (s, Ended(SchoolMissing))
      else if s.schools[user.schoolId].Some? then (s, Ended(Deleted(TombstoneId(s.schools[user.schoolId].value))))
      else (s, SawNone(user.schoolId))
    case SawNone(schoolId) =>
      if s.tombstoneSchool.None? then (s, Ended(Deleted(NoTombstone)))
      else if r.fault == AtMaking then (s, Ended(Failed(AtMaking)))
      else
        var user := SchoolTombstoneUser(schoolId, s.tombstoneSchool.value);
        (s.(users := s.users[r.newUserId := user], tombstones := s.tombstones + [schoolId]), Made(schoolId, user))
    case Made(schoolId, user) =>
      if !Grants(r.caller, schoolId) then (s, Ended(Forbidden))
      else if r.fault == AtSetting then (s, Ended(Failed(AtSetting)))
      else (s.(schools := s.schools[schoolId := Some(r.newUserId)]), Ended(Deleted(TombstoneUser(r.newUserId, user))))
  }

  predicate Enabled(s: State, i: nat) {
    i < |s.tasks| && !s.tasks[i].phase.Ended?
  }

  function Next(s: State, i: nat): State
    requires Enabled(s, i)
  {
    var (store, phase) := After(s.store, s.tasks[i].r, s.tasks[i].phase);
    State(store, s.tasks[i := Task(s.tasks[i].r, phase)])
  }

  ghost predicate Run(s: State, picks: seq<nat>, t: State)
    decreases |picks|
  {
    if picks == [] then s == t else Enabled(s, picks[0]) && Run(Next(s, picks[0]), picks[1..], t)
  }

  // ---- a deletion by itself ----

  function With(s: State, i: nat, store: Store, phase: Phase): State
    requires i < |s.tasks|
  {
    State(store, s.tasks[i := Task(s.tasks[i].r, phase)])
  }

  /** What is left to do of a deletion that nobody interferes with. */
  function Finished(s: Store, r: Request, p: Phase): (Store, Outcome)
    decreases CallsLeft(p)
  {
    if p.Ended? then (s, p.outcome)
    else var (s1, p1) := After(s, r, p); Finished(s1, r, p1)
  }

  function CallsLeft(p: Phase): nat {
    match p
    case Asked => 9
    case ReadUser(_) => 8
    case ReadAccount(_, _) => 7
    case InTrashbin(_) => 6
    case Overwritten(_) => 5
    case WithoutAccount(_) => 4
    case WithoutPins(_) => 3
    case SawNone(_) => 2
    case Made(_, _) => 1
    case Ended(_) => 0
  }

  lemma {:induction false} FinishedFromSchool(s: Store, r: Request, user: User)
    ensures Finished(s, r, WithoutPins(user)) == WithTombstone(s, user.schoolId, r)
  {
    var schoolId := user.schoolId;
    if r.fault != AtSchool && schoolId in s.schools && s.schools[schoolId].None? {
      if s.tombstoneSchool.Some? && r.fault != AtMaking {
        var (s1, p1) := After(s, r, SawNone(schoolId));
        var (s2, p2) := After(s1, r, p1);
        assert Finished(s1, r, p1) == Finished(s2, r, p2) == (s2, p2.outcome);
      }
      assert Finished(s, r, SawNone(schoolId)) == WithTombstone(s, schoolId, r);
    }
    hide SchoolTombstoneUser;
  }

  /** From the overwriting of the user on. */
  function Overwriting(s: Store, r: Request, user: User): (Store, Outcome) {
    if r.fault == AtOverwriting then (s, Failed(AtOverwriting))
    else
      var s1 := s.(users := s.users[r.userId := Tombstone(r.uid, user.schoolId)]);
      if r.fault == AtAccount then (s1, Failed(AtAccount))
      else
        WithTombstone(s1.(accounts := WithoutFirst(s.accounts, r.userId), pins := PinsLeft(s.pins, user, r.pinFailures)),
                      user.schoolId, r)
  }

  lemma {:induction false} FinishedFromTrashbin(s: Store, r: Request, user: User)
    ensures Finished(s, r, InTrashbin(user)) == Overwriting(s, r, user)
  {
    hide PinsLeft, WithoutFirst, Tombstone, WithTombstone;
    if r.fault != AtOverwriting {
      var s1 := s.(users := s.users[r.userId := Tombstone(r.uid, user.schoolId)]);
      if r.fault != AtAccount {
        var s2 := s1.(accounts := WithoutFirst(s.accounts, r.userId));
        var s3 := s2.(pins := PinsLeft(s.pins, user, r.pinFailures));
        assert Finished(s2, r, WithoutAccount(user)) == Finished(s3, r, WithoutPins(user));
        FinishedFromSchool(s3, r, user);
      }
      assert Finished(s1, r, Overwritten(user)) == Overwriting(s, r, user);
    }
  }

  lemma {:induction false} FinishedWhenEnded(s: Store, r: Request, outcome: Outcome)
    ensures Finished(s, r, Ended(outcome)) == (s, outcome)
  {
  }

  lemma {:induction false} FinishedIsDelete(s: Store, r: Request)
    ensures Finished(s, r, Asked) == Delete(s, r)
  {
    hide PinsLeft, WithoutFirst, Tombstone, WithTombstone, Find;
    var (_, p) := After(s, r, Asked);
    if p.Ended? {
      FinishedWhenEnded(s, r, p.outcome);
    } else {
      var user, account := s.users[r.userId], Find(AccountTest(r.userId), s.accounts);
      assert Finished(s, r, Asked) == Finished(s, r, ReadUser(user)) == Finished(s, r, ReadAccount(user, account));
      if r.fault == AtTrashbin {
        FinishedWhenEnded(s, r, Failed(AtTrashbin));
      } else {
        var s1 := s.(trashbins := s.trashbins + [NewBin(s, r)]);
        assert Finished(s, r, ReadAccount(user, account)) == Finished(s1, r, InTrashbin(user));
        FinishedFromTrashbin(s1, r, user);
        assert Overwriting(s1, r, user) == Delete(s, r);
      }
    }
  }

  lemma {:induction false} RunFirst(s: State, i: nat, picks: seq<nat>, t: State)
    requires Enabled(s, i) && Run(Next(s, i), picks, t)
    ensures Run(s, [i] + picks, t)
  {
    assert ([i] + picks)[1..] == picks;
    hide Next;
  }

  lemma {:induction false} RunConcat(s: State, a: seq<nat>, t: State, b: seq<nat>, u: State)
    requires Run(s, a, t) && Run(t, b, u)
    ensures Run(s, a + b, u)
    decreases |a|
  {
    hide Next;
    if a == [] {
      assert a + b == b;
    } else {
      assert (a + b)[1..] == a[1..] + b;
      RunConcat(Next(s, a[0]), a[1..], t, b, u);
    }
  }

  lemma {:induction false} StepsAreFinite(s: Store, r: Request, p: Phase)
    requires !p.Ended?
    ensures CallsLeft(After(s, r, p).1) < CallsLeft(p)
    ensures Finished(s, r, p) == Finished(After(s, r, p).0, r, After(s, r, p).1)
  {
  }

  /** The machine gets there by steps of this deletion alone. */
  lemma {:induction false} AloneFinishes(s: State, i: nat) returns (picks: seq<nat>)
    requires i < |s.tasks|
    ensures forall k :: 0 <= k < |picks| ==> picks[k] == i
    ensures var (store, outcome) := Finished(s.store, s.tasks[i].r, s.tasks[i].phase);
            Run(s, picks, With(s, i, store, Ended(outcome)))
    decreases CallsLeft(s.tasks[i].phase)
  {
    var x := s.tasks[i];
    if x.phase.Ended? {
      assert With(s, i, s.store, x.phase) == s;
      FinishedWhenEnded(s.store, x.r, x.phase.outcome);
      picks := [];
    } else {
      StepsAreFinite(s.store, x.r, x.phase);
      hide After, CallsLeft, Finished, Run;
      var t := Next(s, i);
      var (store, outcome) := Finished(s.store, x.r, x.phase);
      var rest := AloneFinishes(t, i);
      assert With(t, i, store, Ended(outcome)) == With(s, i, store, Ended(outcome));
      RunFirst(s, i, rest, With(s, i, store, Ended(outcome)));
      picks := [i] + rest;
    }
  }

  /** Run by itself, without the others in between, a deletion does what the sequential program does. */
  lemma {:induction false} AloneIsDelete(s: State, i: nat) returns (picks: seq<nat>)
    requires i < |s.tasks| && s.tasks[i].phase == Asked
    ensures forall k :: 0 <= k < |picks| ==> picks[k] == i
    ensures var (store, outcome) := Delete(s.store, s.tasks[i].r); Run(s, picks, With(s, i, store, Ended(outcome)))
  {
    FinishedIsDelete(s.store, s.tasks[i].r);
    picks := AloneFinishes(s, i);
    hide Finished, Delete, Run;
  }

  // ---- counting ----

  function Count(f: Task -> bool, tasks: seq<Task>): nat {
    if tasks == [] then 0 else (if f(tasks[0]) then 1 else 0) + Count(f, tasks[1..])
  }

  lemma {:induction false} CountUpdate(f: Task -> bool, tasks: seq<Task>, i: nat, x: Task)
    requires i < |tasks|
    ensures Count(f, tasks[i := x]) + (if f(tasks[i]) then 1 else 0) == Count(f, tasks) + if f(x) then 1 else 0
  {
    if i == 0 {
      assert tasks[0 := x][1..] == tasks[1..];
    } else {
      CountUpdate(f, tasks[1..], i - 1, x);
      assert tasks[i := x][1..] == tasks[1..][i - 1 := x];
    }
  }

  lemma {:induction false} CountNone(f: Task -> bool, tasks: seq<Task>)
    requires forall x :: x in tasks ==> !f(x)
    ensures Count(f, tasks) == 0
  {
    if tasks != [] {
      assert tasks[0] in tasks;
      CountNone(f, tasks[1..]);
    }
  }

  ghost predicate AllAsked(s: State) {
    forall x :: x in s.tasks ==> x.phase == Asked
  }

  ghost predicate AllEnded(s: State) {
    forall x :: x in s.tasks ==> x.phase.Ended?
  }

  // ---- trashbins ----

  /** Has read the user, and is going to put it into a trashbin. */
  function WillKeep(userId: Id): Task -> bool {
    (x: Task) => x.r.userId == userId && x.r.fault != AtTrashbin && (x.phase.ReadUser? || x.phase.ReadAccount?)
  }

  /** The step reads the user for a deletion that gets as far as the trashbin. */
  predicate ReadsUser(s: State, i: nat, userId: Id)
    requires Enabled(s, i)
  {
    s.tasks[i].phase.Asked? && s.tasks[i].r.userId == userId && s.tasks[i].r.fault != AtReading && s.tasks[i].r.fault != AtTrashbin
  }

  predicate OverwritesUser(s: State, i: nat, userId: Id)
    requires Enabled(s, i)
  {
    s.tasks[i].phase.InTrashbin? && s.tasks[i].r.userId == userId && s.tasks[i].r.fault != AtOverwriting
  }

  /** The deletions that read the user before any of them overwrites it. */
  function EarlyReads(s: State, picks: seq<nat>, userId: Id): nat
    decreases |picks|
  {
    if picks == [] || !Enabled(s, picks[0]) || OverwritesUser(s, picks[0], userId) then 0
    else (if ReadsUser(s, picks[0], userId) then 1 else 0) + EarlyReads(Next(s, picks[0]), picks[1..], userId)
  }

  ghost predicate NewIdsDiffer(s: State, userId: Id) {
    forall i :: 0 <= i < |s.tasks| ==> s.tasks[i].r.newUserId != userId
  }

  lemma AfterKeepsUser(s: Store, r: Request, p: Phase, userId: Id)
    requires !p.Ended? && userId in s.users && r.newUserId != userId
    ensures var (t, q) := After(s, r, p);
            && userId in t.users
            && (t.users[userId].deleted <==>
                s.users[userId].deleted || (p.InTrashbin? && r.userId == userId && r.fault != AtOverwriting))
            && BinsOf(t, userId) == BinsOf(s, userId) + (if p.ReadAccount? && WillKeep(userId)(Task(r, p)) then 1 else 0)
            && (WillKeep(userId)(Task(r, q)) <==>
                (p.ReadUser? && WillKeep(userId)(Task(r, p))) ||
                (p.Asked? && r.userId == userId && r.fault != AtReading && r.fault != AtTrashbin && !s.users[userId].deleted))
  {
    if p.ReadAccount? {
      var bin := Trashbin(r.userId, [UserData(p.user), AccountData(p.account)]);
      FilterAppend(BinTest(userId), s.trashbins, [bin]);
      assert |Filter(BinTest(userId), [bin])| == if r.userId == userId then 1 else 0;
    }
    hide Filter, PinsLeft, WithoutFirst, SchoolTombstoneUser, Find;
  }

  lemma StepKeepsUser(s: State, i: nat, userId: Id)
    requires Enabled(s, i) && userId in s.store.users && NewIdsDiffer(s, userId)
    ensures var t := Next(s, i);
            && userId in t.store.users && NewIdsDiffer(t, userId)
            && (t.store.users[userId].deleted <==> s.store.users[userId].deleted || OverwritesUser(s, i, userId))
            && BinsOf(t.store, userId) + Count(WillKeep(userId), t.tasks) ==
               BinsOf(s.store, userId) + Count(WillKeep(userId), s.tasks) +
               if ReadsUser(s, i, userId) && !s.store.users[userId].deleted then 1 else 0
  {
    AfterKeepsUser(s.store, s.tasks[i].r, s.tasks[i].phase, userId);
    CountUpdate(WillKeep(userId), s.tasks, i, Next(s, i).tasks[i]);
    hide After, BinsOf, Count;
  }

  lemma {:induction false} RunKeepsUser(s: State, picks: seq<nat>, t: State, userId: Id)
    requires Run(s, picks, t) && userId in s.store.users && NewIdsDiffer(s, userId)
    ensures BinsOf(t.store, userId) + Count(WillKeep(userId), t.tasks) ==
            BinsOf(s.store, userId) + Count(WillKeep(userId), s.tasks) +
            if s.store.users[userId].deleted then 0 else EarlyReads(s, picks, userId)
    decreases |picks|
  {
    hide BinsOf, Count, Next, NewIdsDiffer;
    if picks != [] {
      StepKeepsUser(s, picks[0], userId);
      RunKeepsUser(Next(s, picks[0]), picks[1..], t, userId);
    }
  }

  /**
   However deletions run side by side, those of a user make as many trashbins as read the user before the first of them
   overwrites it.
   */
  lemma {:induction false} TrashbinsAreTheEarlyReads(s: State, picks: seq<nat>, t: State, userId: Id)
    requires Run(s, picks, t) && AllAsked(s) && AllEnded(t)
    requires userId in s.store.users && !s.store.users[userId].deleted && NewIdsDiffer(s, userId)
    ensures BinsOf(t.store, userId) == BinsOf(s.store, userId) + EarlyReads(s, picks, userId)
  {
    RunKeepsUser(s, picks, t, userId);
    CountNone(WillKeep(userId), s.tasks);
    CountNone(WillKeep(userId), t.tasks);
    hide Run, BinsOf, EarlyReads, Count;
  }

  // ---- tombstone users ----

  /** Has seen that the school has no tombstone user, and is going to make one. */
  function WillMake(schoolId: Id): Task -> bool {
    (x: Task) => x.phase == SawNone(schoolId) && x.r.fault != AtMaking
  }

  /** The step looks for the tombstone user of the school, for a deletion that gets as far as making one. */
  predicate LooksAtSchool(s: State, i: nat, schoolId: Id)
    requires Enabled(s, i)
  {
    && s.tasks[i].phase.WithoutPins? && s.tasks[i].phase.user.schoolId == schoolId
    && s.tasks[i].r.fault != AtSchool && s.tasks[i].r.fault != AtMaking
  }

  predicate SetsTombstone(s: State, i: nat, schoolId: Id)
    requires Enabled(s, i)
  {
    s.tasks[i].phase.Made? && s.tasks[i].phase.schoolId == schoolId && CanSet(s.tasks[i].r, schoolId)
  }

  /** The deletions that look at the school before any of them sets its tombstone user. */
  function EarlyLooks(s: State, picks: seq<nat>, schoolId: Id): nat
    decreases |picks|
  {
    if picks == [] || !Enabled(s, picks[0]) || SetsTombstone(s, picks[0], schoolId) then 0
    else (if LooksAtSchool(s, picks[0], schoolId) then 1 else 0) + EarlyLooks(Next(s, picks[0]), picks[1..], schoolId)
  }

  lemma AfterKeepsSchool(s: Store, r: Request, p: Phase, schoolId: Id)
    requires !p.Ended? && schoolId in s.schools && s.tombstoneSchool.Some?
    ensures var (t, q) := After(s, r, p);
            && schoolId in t.schools && t.tombstoneSchool.Some?
            && (t.schools[schoolId].Some? <==> s.schools[schoolId].Some? || (p.Made? && p.schoolId == schoolId && CanSet(r, schoolId)))
            && TombstonesOf(t, schoolId) == TombstonesOf(s, schoolId) + (if WillMake(schoolId)(Task(r, p)) then 1 else 0)
            && (WillMake(schoolId)(Task(r, q)) <==>
                p.WithoutPins? && p.user.schoolId == schoolId && r.fault != AtSchool && r.fault != AtMaking && s.schools[schoolId].None?)
  {
    if p.SawNone? {
      FilterAppend(SchoolTest(schoolId), s.tombstones, [p.schoolId]);
      assert |Filter(SchoolTest(schoolId), [p.schoolId])| == if p.schoolId == schoolId then 1 else 0;
    }
    hide Filter, PinsLeft, WithoutFirst, SchoolTombstoneUser, Find, Tombstone;
  }

  lemma StepKeepsSchool(s: State, i: nat, schoolId: Id)
    requires Enabled(s, i) && schoolId in s.store.schools && s.store.tombstoneSchool.Some?
    ensures var t := Next(s, i);
            && schoolId in t.store.schools && t.store.tombstoneSchool.Some?
            && (t.store.schools[schoolId].Some? <==> s.store.schools[schoolId].Some? || SetsTombstone(s, i, schoolId))
            && TombstonesOf(t.store, schoolId) + Count(WillMake(schoolId), t.tasks) ==
               TombstonesOf(s.store, schoolId) + Count(WillMake(schoolId), s.tasks) +
               if LooksAtSchool(s, i, schoolId) && s.store.schools[schoolId].None? then 1 else 0
  {
    AfterKeepsSchool(s.store, s.tasks[i].r, s.tasks[i].phase, schoolId);
    CountUpdate(WillMake(schoolId), s.tasks, i, Next(s, i).tasks[i]);
    hide After, TombstonesOf, Count;
  }

  lemma {:induction false} RunKeepsSchool(s: State, picks: seq<nat>, t: State, schoolId: Id)
    requires Run(s, picks, t) && schoolId in s.store.schools && s.store.tombstoneSchool.Some?
    ensures TombstonesOf(t.store, schoolId) + Count(WillMake(schoolId), t.tasks) ==
            TombstonesOf(s.store, schoolId) + Count(WillMake(schoolId), s.tasks) +
            if s.store.schools[schoolId].Some? then 0 else EarlyLooks(s, picks, schoolId)
    decreases |picks|
  {
    hide TombstonesOf, Count, Next;
    if picks != [] {
      StepKeepsSchool(s, picks[0], schoolId);
      RunKeepsSchool(Next(s, picks[0]), picks[1..], t, schoolId);
    }
  }

  /**
   However deletions run side by side, a school without tombstone user gets as many as look at it before the first of
   them sets one.
   */
  lemma {:induction false} TombstonesAreTheEarlyLooks(s: State, picks: seq<nat>, t: State, schoolId: Id)
    requires Run(s, picks, t) && AllAsked(s) && AllEnded(t)
    requires schoolId in s.store.schools && s.store.schools[schoolId].None? && s.store.tombstoneSchool.Some?
    ensures TombstonesOf(t.store, schoolId) == TombstonesOf(s.store, schoolId) + EarlyLooks(s, picks, schoolId)
  {
    RunKeepsSchool(s, picks, t, schoolId);
    CountNone(WillMake(schoolId), s.tasks);
    CountNone(WillMake(schoolId), t.tasks);
    hide Run, TombstonesOf, EarlyLooks, Count;
  }

  // ---- two at once ----

  /** Both go on to their ends, one after the other. */
  lemma {:induction false} BothFinish(s: State) returns (picks: seq<nat>, t: State)
    requires |s.tasks| == 2
    ensures Run(s, picks, t) && AllEnded(t)
  {
    var first := AloneFinishes(s, 0);
    var (store, outcome) := Finished(s.store, s.tasks[0].r, s.tasks[0].phase);
    var middle := With(s, 0, store, Ended(outcome));
    var second := AloneFinishes(middle, 1);
    var (store1, outcome1) := Finished(middle.store, middle.tasks[1].r, middle.tasks[1].phase);
    t := With(middle, 1, store1, Ended(outcome1));
    RunConcat(s, first, middle, second, t);
    picks := first + second;
    hide Run, Finished;
  }

  /** Two requests for one user, both of which read it before either overwrites it, make two trashbins. */
  lemma {:induction false} TwoAtOnceMakeTwoTrashbins(s: State, userId: Id) returns (picks: seq<nat>, t: State)
    requires |s.tasks| == 2 && AllAsked(s) && forall x :: x in s.tasks ==> x.r.userId == userId && x.r.fault == NoFault
    requires userId in s.store.users && !s.store.users[userId].deleted && NewIdsDiffer(s, userId)
    ensures Run(s, picks, t) && AllEnded(t) && BinsOf(t.store, userId) >= BinsOf(s.store, userId) + 2
  {
    assert s.tasks[0] in s.tasks && s.tasks[1] in s.tasks;
    var one := Next(s, 0);
    var two := Next(one, 1);
    StepKeepsUser(s, 0, userId);
    StepKeepsUser(one, 1, userId);
    CountNone(WillKeep(userId), s.tasks);
    assert BinsOf(two.store, userId) + Count(WillKeep(userId), two.tasks) == BinsOf(s.store, userId) + 2;
    hide Next, Run, BinsOf, Count, NewIdsDiffer;
    picks, t := BothFinish(two);
    RunKeepsUser(two, picks, t, userId);
    CountNone(WillKeep(userId), t.tasks);
    RunFirst(one, 1, picks, t);
    RunFirst(s, 0, [1] + picks, t);
    picks := [0] + ([1] + picks);
  }

  /** On its way to the school, without a failure. */
  ghost predicate IsComing(s: Store, x: Task, schoolId: Id) {
    && x.r.fault == NoFault && CallsLeft(x.phase) >= 3
    && (if x.phase.Asked? then
          x.r.userId in s.users && !s.users[x.r.userId].deleted && s.users[x.r.userId].schoolId == schoolId
        else x.phase.user.schoolId == schoolId)
  }

  lemma StepComesCloser(s: Store, x: Task, schoolId: Id)
    requires IsComing(s, x, schoolId) && !x.phase.WithoutPins?
    ensures var (t, p) := After(s, x.r, x.phase);
            && IsComing(t, Task(x.r, p), schoolId) && CallsLeft(p) < CallsLeft(x.phase)
            && t.schools == s.schools && t.tombstoneSchool == s.tombstoneSchool && t.tombstones == s.tombstones
            && forall u :: u in s.users && u != x.r.userId ==> u in t.users && t.users[u] == s.users[u]
  {
    hide PinsLeft, WithoutFirst, Find, Tombstone;
  }

  lemma {:induction false} ComesToTheSchool(s: State, i: nat, schoolId: Id) returns (picks: seq<nat>, t: State)
    requires i < |s.tasks| && IsComing(s.store, s.tasks[i], schoolId)
    ensures Run(s, picks, t) && t.store.schools == s.store.schools
    ensures t.store.tombstoneSchool == s.store.tombstoneSchool && t.store.tombstones == s.store.tombstones
    ensures |t.tasks| == |s.tasks| && forall k :: 0 <= k < |s.tasks| && k != i ==> t.tasks[k] == s.tasks[k]
    ensures t.tasks[i].r == s.tasks[i].r && t.tasks[i].phase.WithoutPins? && t.tasks[i].phase.user.schoolId == schoolId
    ensures forall u :: u in s.store.users && u != s.tasks[i].r.userId ==> u in t.store.users && t.store.users[u] == s.store.users[u]
    decreases CallsLeft(s.tasks[i].phase)
  {
    if s.tasks[i].phase.WithoutPins? {
      picks, t := [], s;
    } else {
      StepComesCloser(s.store, s.tasks[i], schoolId);
      hide After, IsComing, Run;
      picks, t := ComesToTheSchool(Next(s, i), i, schoolId);
      RunFirst(s, i, picks, t);
      picks := [i] + picks;
    }
  }

  /** Both look at the school before either sets its tombstone user. */
  lemma BothLook(s: State, schoolId: Id) returns (t: State)
    requires |s.tasks| == 2 && schoolId in s.store.schools && s.store.schools[schoolId].None? && s.store.tombstoneSchool.Some?
    requires forall x :: x in s.tasks ==> x.r.fault == NoFault && x.phase.WithoutPins? && x.phase.user.schoolId == schoolId
    ensures Run(s, [0, 1], t) && |t.tasks| == 2
    ensures schoolId in t.store.schools && t.store.tombstoneSchool.Some?
    ensures TombstonesOf(t.store, schoolId) + Count(WillMake(schoolId), t.tasks) >= TombstonesOf(s.store, schoolId) + 2
  {
    assert s.tasks[0] in s.tasks && s.tasks[1] in s.tasks;
    var one := Next(s, 0);
    t := Next(one, 1);
    StepKeepsSchool(s, 0, schoolId);
    StepKeepsSchool(one, 1, schoolId);
    assert [0, 1][1..] == [1] && [1][1..] == [];
    assert Run(t, [], t);
    assert Run(one, [1], t);
    hide Next, TombstonesOf, Count;
  }

  /** Two requests for users of a school, none of which fails, make two tombstone users for it. */
  lemma {:induction false} TwoAtOnceMakeTwoTombstones(s: State, schoolId: Id) returns (picks: seq<nat>, t: State)
    requires |s.tasks| == 2 && s.tasks[0].r.userId != s.tasks[1].r.userId
    requires forall x :: x in s.tasks ==> x.phase == Asked && IsComing(s.store, x, schoolId)
    requires schoolId in s.store.schools && s.store.schools[schoolId].None? && s.store.tombstoneSchool.Some?
    ensures Run(s, picks, t) && AllEnded(t) && TombstonesOf(t.store, schoolId) >= TombstonesOf(s.store, schoolId) + 2
  {
    assert s.tasks[0] in s.tasks && s.tasks[1] in s.tasks;
    var first, one := ComesToTheSchool(s, 0, schoolId);
    assert IsComing(one.store, one.tasks[1], schoolId);
    var second, two := ComesToTheSchool(one, 1, schoolId);
    assert forall x :: x in two.tasks ==> x == two.tasks[0] || x == two.tasks[1];
    hide Run, Next, Count, IsComing;
    var three := BothLook(two, schoolId);
    var rest;
    rest, t := BothFinish(three);
    RunKeepsSchool(three, rest, t, schoolId);
    CountNone(WillMake(schoolId), t.tasks);
    RunConcat(s, first, one, second, two);
    RunConcat(s, first + second, two, [0, 1], three);
    RunConcat(s, first + second + [0, 1], three, rest, t);
    picks := first + second + [0, 1] + rest;
  }
}
