/** A full school sync, from the one message on the internal queue to everything on the external one. */
module MessengerSchoolSync {
  import opened Wrappers
  import opened Sequences
  import opened MessengerMessages
  import opened MessengerProducer
  import opened MessengerConsumer
  import opened MessengerDelivery

  /** Any queue can be drained without a failure of our own making, whatever state it is in. */
  lemma {:induction false} DrainingRunExists(db: Db, s: State) returns (events: seq<Event>, t: State)
    requires Steady(db, s)
    ensures DrainingRun(db, s, events, t, true) && Drained(t)
    decreases TotalWeight(s.items)
  {
    hide PlanFor, TotalWeight, Next, ItemInv;
    if i :| 0 <= i < |s.items| && s.items[i].status != Done {
      var it := s.items[i];
      var e := if it.status == Queued then Deliver(i)
               else if it.status == Begun && PlanFor(db, it.body) == Throw then Fail(i)
               else Proceed(db, i);
      StepStaysSteady(db, s, e);
      StepLosesWeight(s, e);
      var rest;
      rest, t := DrainingRunExists(db, Next(s, e));
      events := [e] + rest;
      assert events[1..] == rest;
    } else {
      events, t := [], s;
    }
  }

  ghost predicate UniqueIds(db: Db) {
    && (forall a, b :: a in db.users && b in db.users && a.id == b.id ==> a == b)
    && (forall a, b :: a in db.courses && b in db.courses && a.id == b.id ==> a == b)
    && (forall a, b :: a in db.schools && b in db.schools && a.id == b.id ==> a == b)
    && (forall u :: u in db.users ==> ValidId(u.id))
    && (forall c :: c in db.courses ==> ValidId(c.id))
  }

  /** A school that takes part in the messenger. */
  ghost predicate ActiveSchool(db: Db, school: School) {
    school in db.schools && ValidId(school.id) && MessengerIsActivated(Some(school))
  }

  function UserContent(u: User, school: School): Content {
    Compose(FullUserSync(u.id, true)).(user := Some(u), schoolId := Some(school.id), school := Some(school))
  }

  /** The two kinds of external messages a school sync is for, both of the lowest priority. */
  function AddUserFor(db: Db, school: School, u: User): Sent {
    Sent(AddUserMessage(db, UserContent(u, school), u, school), 0)
  }

  function RemoveRoomFor(c: Course): Sent {
    Sent(RemoveRoom(CourseRoom, c.id), 0)
  }

  function UserOutput(db: Db, school: School): seq<Sent> {
    Map((u: User) => AddUserFor(db, school, u), Take(USER_PAGE, UsersOfSchool(db, school.id)))
  }

  function CourseOutput(db: Db, school: School): seq<Sent> {
    Map((c: Course) => RemoveRoomFor(c), ArchivedCourses(db, school.id))
  }

  lemma UserLeaf(db: Db, school: School, u: User)
    requires UniqueIds(db) && ActiveSchool(db, school)
    requires u in db.users && u.schoolId == school.id
    ensures PlanFor(db, Json(Compose(FullUserSync(u.id, true)))) == Send(AddUserFor(db, school, u))
  {
    hide AddUserMessage;
    var c := Compose(FullUserSync(u.id, true));
    assert FindUser(db, u.id) == Some(u);
    assert FindSchool(db, school.id) == Some(school);
    assert Expanded(db, c) == UserContent(u, school);
  }

  lemma CourseLeaf(db: Db, school: School, c: Course)
    requires UniqueIds(db) && ActiveSchool(db, school)
    requires c in db.courses && c.schoolId == school.id
    ensures PlanFor(db, Json(Compose(CourseRemoval(c.id, c.schoolId, true)))) == Send(RemoveRoomFor(c))
  {
    var m := Compose(CourseRemoval(c.id, c.schoolId, true));
    assert FindCourse(db, c.id) == Some(c);
    assert FindSchool(db, school.id) == Some(school);
    assert Expanded(db, m) == m.(course := Some(c), school := Some(school));
  }

  lemma SchoolFansOut(db: Db, school: School)
    requires UniqueIds(db) && ActiveSchool(db, school)
    ensures PlanFor(db, Json(Compose(FullSchoolSync(school.id)))) == FanOut
  {
  }

  lemma {:induction false} OutputOfList(db: Db, contents: seq<Content>, outputs: seq<Sent>, x: Sent)
    requires |contents| == |outputs|
    requires forall i :: 0 <= i < |contents| ==> PlanFor(db, Json(contents[i])) == Send(outputs[i])
    ensures OutputOfAll(db, contents, x) == multiset(outputs)[x]
  {
    hide PlanFor;
    if contents == [] {
      assert outputs == [];
    } else {
      OutputOfList(db, contents[1..], outputs[1..], x);
      assert outputs == [outputs[0]] + outputs[1..];
    }
  }

  lemma {:induction false} UsersOwe(db: Db, school: School, x: Sent)
    requires UniqueIds(db) && ActiveSchool(db, school)
    ensures OutputOfAll(db, UserRequests(db, school.id, true), x) == multiset(UserOutput(db, school))[x]
  {
    hide PlanFor, AddUserFor, ActiveSchool, UniqueIds;
    var us, page := UserRequests(db, school.id, true), Take(USER_PAGE, UsersOfSchool(db, school.id));
    FilterMembers(UserAt(school.id), db.users);
    forall i | 0 <= i < |us| ensures PlanFor(db, Json(us[i])) == Send(UserOutput(db, school)[i]) {
      assert page[i] in page;
      UserLeaf(db, school, page[i]);
    }
    OutputOfList(db, us, UserOutput(db, school), x);
  }

  lemma {:induction false} CoursesOwe(db: Db, school: School, x: Sent)
    requires UniqueIds(db) && ActiveSchool(db, school)
    ensures OutputOfAll(db, RemovedRoomRequests(db, school.id, true), x) == multiset(CourseOutput(db, school))[x]
  {
    hide PlanFor, RemoveRoomFor, ActiveSchool, UniqueIds;
    var cs, archived := RemovedRoomRequests(db, school.id, true), ArchivedCourses(db, school.id);
    FilterMembers(CourseAt(school.id), db.courses);
    FilterMembers((c: Course) => c.archived, Take(COURSE_PAGE, CoursesOfSchool(db, school.id)));
    forall i | 0 <= i < |cs| ensures PlanFor(db, Json(cs[i])) == Send(CourseOutput(db, school)[i]) {
      assert archived[i] in archived;
      CourseLeaf(db, school, archived[i]);
    }
    OutputOfList(db, cs, CourseOutput(db, school), x);
  }

  function SchoolMessage(school: School): State {
    State([Fresh(Json(Compose(FullSchoolSync(school.id))))], [])
  }

  lemma SchoolMessageOwes(db: Db, school: School, x: Sent)
    requires UniqueIds(db) && ActiveSchool(db, school)
    ensures Total(db, SchoolMessage(school), x) ==
              multiset(UserOutput(db, school))[x] + multiset(CourseOutput(db, school))[x]
  {
    hide PlanFor, OutputOfAll, UserOutput, CourseOutput, UserRequests, RemovedRoomRequests, ValidId, UniqueIds;
    SchoolFansOut(db, school);
    ProducedMessagesPassValidation(FullSchoolSync(school.id));
    UsersOwe(db, school, x);
    CoursesOwe(db, school, x);
    var it := SchoolMessage(school).items[0];
    assert Sum(OwedBy(db, x), [it]) == Owed(db, it, x) + Sum(OwedBy(db, x), []);
  }

  /**
   Draining one school message of an activated school, in any interleaving: without failures the
   external queue receives exactly one addUser per user of the page and one removeRoom per archived
   course; when calls fail but no message fails twice, it receives at least these.
   */
  lemma {:induction false} SchoolSyncReachesEveryone(db: Db, school: School, events: seq<Event>, t: State, faultFree: bool)
    requires UniqueIds(db) && ActiveSchool(db, school)
    requires DrainingRun(db, SchoolMessage(school), events, t, faultFree) && Drained(t)
    ensures multiset(UserOutput(db, school)) + multiset(CourseOutput(db, school)) <= multiset(t.external)
    ensures faultFree ==>
              multiset(t.external) == multiset(UserOutput(db, school)) + multiset(CourseOutput(db, school))
  {
    hide UserOutput, CourseOutput, DrainingRun, UniqueIds, ActiveSchool;
    forall x: Sent
      ensures multiset(UserOutput(db, school))[x] + multiset(CourseOutput(db, school))[x] <= multiset(t.external)[x]
      ensures faultFree ==>
                multiset(UserOutput(db, school))[x] + multiset(CourseOutput(db, school))[x] == multiset(t.external)[x]
    {
      SchoolMessageOwes(db, school, x);
      DrainingConserves(db, SchoolMessage(school), events, t, faultFree, x);
      NothingOwedWhenDone(db, t.items, x);
    }
  }

  lemma SchoolMessageCaps(db: Db, school: School, x: Sent)
    requires UniqueIds(db) && ActiveSchool(db, school)
    ensures Limit(db, SchoolMessage(school), x) ==
              2 * multiset(UserOutput(db, school))[x] + multiset(CourseOutput(db, school))[x]
  {
    hide PlanFor, OutputOfAll, UserOutput, CourseOutput, UserRequests, RemovedRoomRequests, ValidId, UniqueIds;
    SchoolFansOut(db, school);
    ProducedMessagesPassValidation(FullSchoolSync(school.id));
    UsersOwe(db, school, x);
    CoursesOwe(db, school, x);
    var it := SchoolMessage(school).items[0];
    assert Sum(CapOf(db, x), [it]) == Cap(db, it, x) + Sum(CapOf(db, x), []);
  }

  lemma SchoolMessageIsSteady(db: Db, school: School)
    requires ActiveSchool(db, school)
    ensures Steady(db, SchoolMessage(school))
  {
  }

  /** Whatever fails, and however often: no addUser is sent more than twice, and no removeRoom more than once. */
  lemma {:induction false} SchoolSyncSendsAtMostTwice(db: Db, school: School, events: seq<Event>, t: State, x: Sent)
    requires UniqueIds(db) && ActiveSchool(db, school) && FailingRun(db, SchoolMessage(school), events, t)
    ensures multiset(t.external)[x] <= 2 * multiset(UserOutput(db, school))[x] + multiset(CourseOutput(db, school))[x]
  {
    hide UserOutput, CourseOutput, FailingRun, UniqueIds, ActiveSchool, Limit, Steady;
    SchoolMessageCaps(db, school, x);
    SchoolMessageIsSteady(db, school);
    FailingRunsStayWithin(db, SchoolMessage(school), events, t, x);
  }
}
