/** The producers: they put one message after the other on the internal queue. */
module MessengerProducer {
  import opened Wrappers
  import opened Sequences
  import opened MessengerMessages

  /** One thing a producer asks for. */
  datatype Request =
    | FullUserSync(userId: Id, schoolSync: bool)
    | UserSyncForTeam(userId: Id, team: Team)
    | UserSyncForCourse(userId: Id, course: Course)
    | UserRemoval(userId: Id, schoolId: Id)
    | TeamSync(teamId: Id)
    | TeamRemoval(teamId: Id, schoolId: Id)
    | CourseSync(courseId: Id)
    | CourseRemoval(courseId: Id, schoolId: Id, schoolSync: bool)
    | FullSchoolSync(schoolId: Id)

  function Compose(r: Request): Content {
    match r
    case FullUserSync(u, s) => EMPTY.(action := Some(SyncUser), userId := Some(u), fullSync := true, schoolSync := s)
    case UserSyncForTeam(u, t) => EMPTY.(action := Some(SyncUser), userId := Some(u), teams := Some([t]))
    case UserSyncForCourse(u, c) => EMPTY.(action := Some(SyncUser), userId := Some(u), courses := Some([c]))
    case UserRemoval(u, s) => EMPTY.(action := Some(DeleteUser), userId := Some(u), schoolId := Some(s))
    case TeamSync(t) => EMPTY.(action := Some(SyncTeam), teamId := Some(t))
    case TeamRemoval(t, s) => EMPTY.(action := Some(DeleteTeam), teamId := Some(t), schoolId := Some(s))
    case CourseSync(c) => EMPTY.(action := Some(SyncCourse), courseId := Some(c))
    case CourseRemoval(c, s, sync) =>
      EMPTY.(action := Some(DeleteCourse), courseId := Some(c), schoolId := Some(s), schoolSync := sync)
    case FullSchoolSync(s) => EMPTY.(action := Some(SyncSchool), schoolId := Some(s), fullSync := true)
  }

  /** The id the request is about. */
  function Subject(r: Request): Id {
    match r
    case FullUserSync(u, _) => u
    case UserSyncForTeam(u, _) => u
    case UserSyncForCourse(u, _) => u
    case UserRemoval(u, _) => u
    case TeamSync(t) => t
    case TeamRemoval(t, _) => t
    case CourseSync(c) => c
    case CourseRemoval(c, _, _) => c
    case FullSchoolSync(s) => s
  }

  /** A produced message passes validation exactly when the id it is about is well formed. */
  lemma ProducedMessagesPassValidation(r: Request)
    ensures ValidMessage(Compose(r)) <==> ValidId(Subject(r))
  {
  }

  function UserRequests(db: Db, schoolId: Id, schoolSync: bool): seq<Content> {
    Map((u: User) => Compose(FullUserSync(u.id, schoolSync)), Take(USER_PAGE, UsersOfSchool(db, schoolId)))
  }

  function ArchivedCourses(db: Db, schoolId: Id): seq<Course> {
    Filter((c: Course) => c.archived, Take(COURSE_PAGE, CoursesOfSchool(db, schoolId)))
  }

  function RemovedRoomRequests(db: Db, schoolId: Id, schoolSync: bool): seq<Content> {
    Map((c: Course) => Compose(CourseRemoval(c.id, c.schoolId, schoolSync)), ArchivedCourses(db, schoolId))
  }

  function CourseUserRequests(c: Course): seq<Content> {
    if c.archived then [Compose(CourseRemoval(c.id, c.schoolId, false))]
    else Map((u: Id) => Compose(UserSyncForCourse(u, c)), CourseMembers(c))
  }

  function TeamUserRequests(t: Team): seq<Content> {
    Map((m: TeamUser) => Compose(UserSyncForTeam(m.userId, t)), t.userIds)
  }

  class Producer {
    /** The messages handed to the internal queue so far. */
    var sent: seq<Content>

    constructor ()
      ensures sent == []
    {
      sent := [];
    }

    method SendMessage(message: Content)
      modifies this
      ensures sent == old(sent) + [message]
    {
      sent := sent + [message];
    }

    method RequestFullSyncForUser(userId: Id, schoolSync: bool)
      modifies this
      ensures sent == old(sent) + [Compose(FullUserSync(userId, schoolSync))]
    {
      SendMessage(Compose(FullUserSync(userId, schoolSync)));
    }

    method RequestCourseRemoval(c: Course, schoolSync: bool)
      modifies this
      ensures sent == old(sent) + [Compose(CourseRemoval(c.id, c.schoolId, schoolSync))]
    {
      SendMessage(Compose(CourseRemoval(c.id, c.schoolId, schoolSync)));
    }

    method RequestCourseSync(c: Course)
      modifies this
      ensures sent == old(sent) + [if c.archived then Compose(CourseRemoval(c.id, c.schoolId, false)) else Compose(CourseSync(c.id))]
    {
      if c.archived {
        RequestCourseRemoval(c, false);
      } else {
        SendMessage(Compose(CourseSync(c.id)));
      }
    }

    method RequestSyncForEachCourseUser(c: Course)
      modifies this
      ensures sent == old(sent) + CourseUserRequests(c)
    {
      if c.archived {
        RequestCourseRemoval(c, false);
      } else {
        var members := CourseMembers(c);
        for i := 0 to |members|
          invariant sent == old(sent) + CourseUserRequests(c)[..i]
        {
          SendMessage(Compose(UserSyncForCourse(members[i], c)));
        }
      }
    }

    /** A team event may carry only the id of the team, which is then loaded. */
    method RequestSyncForEachTeamUser(db: Db, teamId: Id, loaded: Option<Team>) returns (found: bool)
      modifies this
      ensures found == (loaded.Some? || FindTeam(db, teamId).Some?)
      ensures loaded.Some? ==> sent == old(sent) + TeamUserRequests(loaded.value)
      ensures loaded.None? && found ==> sent == old(sent) + TeamUserRequests(FindTeam(db, teamId).value)
      ensures !found ==> sent == old(sent)
    {
      var team := if loaded.Some? then loaded else FindTeam(db, teamId);
      if team.None? {
        return false;
      }
      var users := team.value.userIds;
      for i := 0 to |users|
        invariant sent == old(sent) + TeamUserRequests(team.value)[..i]
      {
        SendMessage(Compose(UserSyncForTeam(users[i].userId, team.value)));
      }
      return true;
    }

    method RequestSyncForEachSchoolUser(db: Db, schoolId: Id, schoolSync: bool)
      modifies this
      ensures sent == old(sent) + UserRequests(db, schoolId, schoolSync)
    {
      var page := Take(USER_PAGE, UsersOfSchool(db, schoolId));
      for i := 0 to |page|
        invariant sent == old(sent) + UserRequests(db, schoolId, schoolSync)[..i]
      {
        RequestFullSyncForUser(page[i].id, schoolSync);
      }
    }

    method RequestRemovalOfRemovedRooms(db: Db, schoolId: Id, schoolSync: bool)
      modifies this
      ensures sent == old(sent) + RemovedRoomRequests(db, schoolId, schoolSync)
    {
      var archived := ArchivedCourses(db, schoolId);
      for i := 0 to |archived|
        invariant sent == old(sent) + RemovedRoomRequests(db, schoolId, schoolSync)[..i]
      {
        RequestCourseRemoval(archived[i], schoolSync);
      }
    }
  }

  /** The fan-out of a school sync covers every user of the school exactly while the school fits one page. */
  lemma FanOutCoversSchoolIffItFitsOnePage(db: Db, schoolId: Id, schoolSync: bool)
    requires NoDuplicates(db.users)
    requires forall a, b :: a in db.users && b in db.users && a.id == b.id ==> a == b
    ensures (forall u :: u in db.users && u.schoolId == schoolId ==>
                 Compose(FullUserSync(u.id, schoolSync)) in UserRequests(db, schoolId, schoolSync))
        <==> |UsersOfSchool(db, schoolId)| <= 1000
  {
    var all := UsersOfSchool(db, schoolId);
    var requests := UserRequests(db, schoolId, schoolSync);
    FilterMembers(UserAt(schoolId), db.users);
    if |all| <= USER_PAGE {
      forall u | u in db.users && u.schoolId == schoolId
        ensures Compose(FullUserSync(u.id, schoolSync)) in requests
      {
        assert u in all;
        var i :| 0 <= i < |all| && all[i] == u;
        assert requests[i] == Compose(FullUserSync(u.id, schoolSync));
      }
    } else {
      FilterKeepsDistinct(UserAt(schoolId), db.users);
      var left := all[USER_PAGE];
      assert left in db.users && left.schoolId == schoolId;
      forall i | 0 <= i < |requests|
        ensures requests[i] != Compose(FullUserSync(left.id, schoolSync))
      {
        assert all[i] in all && all[i] != left;
      }
    }
  }

  /** Every archived course of the school is announced as removed exactly while none lies beyond the first page. */
  lemma RemovalCoversArchivedCoursesIffInFirstPage(db: Db, schoolId: Id, schoolSync: bool)
    requires NoDuplicates(db.courses)
    requires forall a, b :: a in db.courses && b in db.courses && a.id == b.id ==> a == b
    ensures (forall c :: c in db.courses && c.schoolId == schoolId && c.archived ==>
                 Compose(CourseRemoval(c.id, c.schoolId, schoolSync)) in RemovedRoomRequests(db, schoolId, schoolSync))
        <==> forall k :: 10000 <= k < |CoursesOfSchool(db, schoolId)| ==> !CoursesOfSchool(db, schoolId)[k].archived
  {
    var all := CoursesOfSchool(db, schoolId);
    FilterMembers(CourseAt(schoolId), db.courses);
    FilterKeepsDistinct(CourseAt(schoolId), db.courses);
    forall k | 0 <= k < |all| && all[k].archived
      ensures Compose(CourseRemoval(all[k].id, all[k].schoolId, schoolSync)) in RemovedRoomRequests(db, schoolId, schoolSync)
              <==> k < COURSE_PAGE
    {
      ArchivedCourseIsAnnouncedIff(db, schoolId, schoolSync, k);
    }
    forall k | 0 <= k < |all| ensures all[k] in db.courses && all[k].schoolId == schoolId {
      assert all[k] in all;
    }
    hide CoursesOfSchool, RemovedRoomRequests, Compose;
    forall c | c in db.courses && c.schoolId == schoolId ensures exists k :: 0 <= k < |all| && all[k] == c {
      assert c in all;
    }
  }

  lemma ArchivedCourseIsAnnouncedIff(db: Db, schoolId: Id, schoolSync: bool, k: nat)
    requires var all := CoursesOfSchool(db, schoolId);
             && NoDuplicates(all) && k < |all| && all[k].archived
             && forall a, b :: a in all && b in all && a.id == b.id ==> a == b
    ensures var c := CoursesOfSchool(db, schoolId)[k];
            Compose(CourseRemoval(c.id, c.schoolId, schoolSync)) in RemovedRoomRequests(db, schoolId, schoolSync) <==> k < 10000
  {
    var all := CoursesOfSchool(db, schoolId);
    var page, archived, requests := Take(COURSE_PAGE, all), ArchivedCourses(db, schoolId), RemovedRoomRequests(db, schoolId, schoolSync);
    FilterMembers((c: Course) => c.archived, page);
    hide CoursesOfSchool;
    if k < COURSE_PAGE {
      assert page[k] == all[k] && all[k] in archived;
      var i :| 0 <= i < |archived| && archived[i] == all[k];
      assert requests[i] == Compose(CourseRemoval(all[k].id, all[k].schoolId, schoolSync));
    } else {
      assert forall i :: 0 <= i < |page| ==> page[i] == all[i] && all[i] != all[k];
      forall i | 0 <= i < |requests| ensures requests[i] != Compose(CourseRemoval(all[k].id, all[k].schoolId, schoolSync)) {
        assert archived[i] in page && archived[i] in all && all[k] in all;
      }
    }
  }

  // ---- examples of schools that do not fit ----

  function Digit(d: nat): char
    requires d < 16
  {
    if d < 10 then ('0' as int + d) as char else ('a' as int + d - 10) as char
  }

  /** A number as an object id. */
  function HexId(n: nat): Id
    requires n < 0x1_0000
  {
    "00000000000000000000" + Digits(n)
  }

  function Digits(n: nat): string
    requires n < 0x1_0000
  {
    [Digit(n / 16 / 16 / 16), Digit(n / 16 / 16 % 16), Digit(n / 16 % 16), Digit(n % 16)]
  }

  lemma HexIdIsValid(n: nat)
    requires n < 0x1_0000
    ensures ValidId(HexId(n))
  {
    var id := HexId(n);
    forall i | 0 <= i < 24 ensures IsHexDigit(id[i]) {
      assert i >= 20 ==> id[i] == Digits(n)[i - 20];
    }
  }

  lemma DigitsDiffer(a: nat, b: nat)
    requires a < 16 && b < 16 && Digit(a) == Digit(b)
    ensures a == b
  {
  }

  lemma HexIdHasItsDigits(n: nat)
    requires n < 0x1_0000
    ensures HexId(n)[20] == Digit(n / 16 / 16 / 16) && HexId(n)[21] == Digit(n / 16 / 16 % 16)
    ensures HexId(n)[22] == Digit(n / 16 % 16) && HexId(n)[23] == Digit(n % 16)
  {
  }

  lemma LastDigitTells(a: nat, b: nat)
    requires a / 16 == b / 16 && a % 16 == b % 16
    ensures a == b
  {
  }

  lemma HexIdsDiffer(a: nat, b: nat)
    requires a < 0x1_0000 && b < 0x1_0000 && HexId(a) == HexId(b)
    ensures a == b
  {
    hide Digit, HexId;
    HexIdHasItsDigits(a);
    HexIdHasItsDigits(b);
    DigitsDiffer(a / 16 / 16 / 16, b / 16 / 16 / 16);
    DigitsDiffer(a / 16 / 16 % 16, b / 16 / 16 % 16);
    LastDigitTells(a / 16 / 16, b / 16 / 16);
    DigitsDiffer(a / 16 % 16, b / 16 % 16);
    LastDigitTells(a / 16, b / 16);
    DigitsDiffer(a % 16, b % 16);
    LastDigitTells(a, b);
  }

  /** An example: one user more than a page, with object ids. */
  function CrowdedSchool(db: Db, schoolId: Id): Db {
    db.(users := seq(USER_PAGE + 1, i requires 0 <= i < USER_PAGE + 1 => User(HexId(i), schoolId, [], "")))
  }

  lemma CrowdedSchoolHasIds(db: Db, schoolId: Id)
    ensures var users := CrowdedSchool(db, schoolId).users;
            && (forall u :: u in users ==> ValidId(u.id) && u.schoolId == schoolId)
            && (forall i, j :: 0 <= i < |users| && 0 <= j < |users| && users[i].id == users[j].id ==> i == j)
            && |users| == USER_PAGE + 1
  {
    var users := CrowdedSchool(db, schoolId).users;
    hide HexId;
    forall i | 0 <= i < |users| ensures ValidId(users[i].id) {
      HexIdIsValid(i);
    }
    forall i, j | 0 <= i < |users| && 0 <= j < |users| && users[i].id == users[j].id ensures i == j {
      HexIdsDiffer(i, j);
    }
  }

  lemma CrowdedSchoolIsNotCovered(db: Db, schoolId: Id, schoolSync: bool)
    ensures var crowded := CrowdedSchool(db, schoolId);
            && (forall u :: u in crowded.users ==> ValidId(u.id))
            && exists u :: u in crowded.users && u.schoolId == schoolId &&
                           Compose(FullUserSync(u.id, schoolSync)) !in UserRequests(crowded, schoolId, schoolSync)
  {
    var crowded := CrowdedSchool(db, schoolId);
    CrowdedSchoolHasIds(db, schoolId);
    hide UserRequests, Compose, CrowdedSchool, ValidId;
    FilterAll(UserAt(schoolId), crowded.users);
    FanOutCoversSchoolIffItFitsOnePage(crowded, schoolId, schoolSync);
  }

  /** An example: one course more than a page, all of them archived. */
  function OldSchool(db: Db, schoolId: Id): Db {
    db.(courses := seq(COURSE_PAGE + 1, i requires 0 <= i < COURSE_PAGE + 1 =>
      Course(HexId(i), schoolId, "", [], [], [], [], true)))
  }

  lemma OldSchoolHasIds(db: Db, schoolId: Id)
    ensures var courses := OldSchool(db, schoolId).courses;
            && (forall c :: c in courses ==> ValidId(c.id) && c.schoolId == schoolId && c.archived)
            && (forall i, j :: 0 <= i < |courses| && 0 <= j < |courses| && courses[i].id == courses[j].id ==> i == j)
            && |courses| == COURSE_PAGE + 1
  {
    var courses := OldSchool(db, schoolId).courses;
    hide HexId;
    forall i | 0 <= i < |courses| ensures ValidId(courses[i].id) {
      HexIdIsValid(i);
    }
    forall i, j | 0 <= i < |courses| && 0 <= j < |courses| && courses[i].id == courses[j].id ensures i == j {
      HexIdsDiffer(i, j);
    }
  }

  lemma OldSchoolIsNotCovered(db: Db, schoolId: Id, schoolSync: bool)
    ensures var school := OldSchool(db, schoolId);
            && (forall c :: c in school.courses ==> ValidId(c.id))
            && exists c :: c in school.courses && c.schoolId == schoolId && c.archived &&
                           Compose(CourseRemoval(c.id, c.schoolId, schoolSync)) !in RemovedRoomRequests(school, schoolId, schoolSync)
  {
    var school := OldSchool(db, schoolId);
    var courses := school.courses;
    OldSchoolHasIds(db, schoolId);
    hide RemovedRoomRequests, Compose, OldSchool, ValidId;
    FilterAll(CourseAt(schoolId), courses);
    assert CoursesOfSchool(school, schoolId) == courses && courses[COURSE_PAGE] in courses;
    hide CoursesOfSchool;
    RemovalCoversArchivedCoursesIffInFirstPage(school, schoolId, schoolSync);
  }
}
