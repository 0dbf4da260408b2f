/**
 The messages of the messenger synchronisation: what lies on the internal queue, what the
 consumer looks up, and what it puts on the external queue.
 */
module MessengerMessages {
  import opened Wrappers
  import opened Sequences

  type Id = string

  predicate IsHexDigit(c: char) {
    '0' <= c <= '9' || 'a' <= c <= 'f'
  }

  predicate ValidId(id: Id) {
    |id| == 24 && forall i :: 0 <= i < 24 ==> IsHexDigit(id[i])
  }

  /** An id compares equal only when the first one is well formed. */
  predicate SameId(a: Id, b: Id) {
    ValidId(a) && a == b
  }

  /** The action named by a message; `Other` is a text that names none. */
  datatype Action = SyncUser | SyncSchool | SyncTeam | SyncCourse | DeleteTeam | DeleteCourse | DeleteUser | Other(text: string)

  const FEATURE_MESSENGER := "messenger"
  const FEATURE_SCHOOL_ROOM := "messengerSchoolRoom"

  datatype User = User(id: Id, schoolId: Id, roles: seq<Id>, name: string)

  datatype Course = Course(
    id: Id, schoolId: Id, name: string,
    userIds: seq<Id>, teacherIds: seq<Id>, substitutionIds: seq<Id>,
    features: seq<string>, archived: bool)

  datatype TeamUser = TeamUser(userId: Id, role: Id, schoolId: Id)

  datatype Team = Team(id: Id, schoolId: Id, name: string, userIds: seq<TeamUser>, features: seq<string>)

  datatype School = School(id: Id, name: string, features: Option<seq<string>>)

  datatype Roles = Roles(teacher: Id, admin: Id, teamOwner: Id, teamAdmin: Id, teamLeader: Id)

  datatype Config = Config(
    serverName: string,
    welcomeAdmin: Option<string>, welcomeTeacher: Option<string>, welcomeStudent: Option<string>)

  /** The collections the consumer reads. */
  datatype Db = Db(
    users: seq<User>, courses: seq<Course>, teams: seq<Team>, schools: seq<School>,
    roles: Roles, config: Config)

  /** The page sizes the two services answer an internal query with. */
  const USER_PAGE := 1000
  const COURSE_PAGE := 10000

  /** The parsed content of a message; the last four fields are filled in by the consumer. */
  datatype Content = Content(
    action: Option<Action>,
    userId: Option<Id>, schoolId: Option<Id>, courseId: Option<Id>, teamId: Option<Id>,
    fullSync: bool, schoolSync: bool,
    courses: Option<seq<Course>>, teams: Option<seq<Team>>,
    user: Option<User>, course: Option<Course>, team: Option<Team>, school: Option<School>)

  const EMPTY := Content(None, None, None, None, None, false, false, None, None, None, None, None, None)

  datatype Body = Unparsable | Json(content: Content)

  /** A text field counts as set when it is present and not empty. */
  predicate Truthy(field: Option<string>) {
    field.Some? && field.value != ""
  }

  predicate HasValidId(field: Option<Id>) {
    Truthy(field) && ValidId(field.value)
  }

  predicate ValidMessage(c: Content) {
    c.action.Some? &&
    match c.action.value
    case SyncSchool => HasValidId(c.schoolId) && c.fullSync
    case SyncUser => HasValidId(c.userId) && (c.courses.Some? || c.teams.Some? || c.fullSync)
    case DeleteUser => HasValidId(c.userId)
    case SyncCourse => HasValidId(c.courseId)
    case DeleteCourse => HasValidId(c.courseId)
    case SyncTeam => HasValidId(c.teamId)
    case DeleteTeam => HasValidId(c.teamId)
    case Other(_) => false
  }

  // ---- look-ups ----

  function FindUser(db: Db, id: Id): Option<User> {
    Find((u: User) => u.id == id, db.users)
  }

  function FindCourse(db: Db, id: Id): Option<Course> {
    Find((c: Course) => c.id == id, db.courses)
  }

  function FindTeam(db: Db, id: Id): Option<Team> {
    Find((t: Team) => t.id == id, db.teams)
  }

  function FindSchool(db: Db, id: Id): Option<School> {
    Find((s: School) => s.id == id, db.schools)
  }

  function UserAt(schoolId: Id): User -> bool {
    (u: User) => u.schoolId == schoolId
  }

  function UsersOfSchool(db: Db, schoolId: Id): seq<User> {
    Filter(UserAt(schoolId), db.users)
  }

  function CourseAt(schoolId: Id): Course -> bool {
    (c: Course) => c.schoolId == schoolId
  }

  function CoursesOfSchool(db: Db, schoolId: Id): seq<Course> {
    Filter(CourseAt(schoolId), db.courses)
  }

  function CourseMembers(c: Course): seq<Id> {
    c.userIds + c.teacherIds + c.substitutionIds
  }

  function CoursesOfUser(db: Db, userId: Id): seq<Course> {
    Filter((c: Course) => userId in c.userIds || userId in c.teacherIds || userId in c.substitutionIds, db.courses)
  }

  predicate InTeam(userId: Id, members: seq<TeamUser>) {
    exists i :: 0 <= i < |members| && members[i].userId == userId
  }

  function TeamsOfUser(db: Db, userId: Id): seq<Team> {
    Filter((t: Team) => InTeam(userId, t.userIds), db.teams)
  }

  function SchoolOr(schoolId: Option<Id>, otherwise: Option<Id>): Option<Id> {
    if Truthy(schoolId) then schoolId else otherwise
  }

  function WithUser(db: Db, c: Content): Content {
    if c.user.None? && Truthy(c.userId) then
      var u := FindUser(db, c.userId.value);
      c.(user := u, schoolId := SchoolOr(c.schoolId, if u.Some? then Some(u.value.schoolId) else None))
    else c
  }

  function WithCourse(db: Db, c: Content): Content {
    if c.course.None? && Truthy(c.courseId) then
      var k := FindCourse(db, c.courseId.value);
      c.(course := k, schoolId := SchoolOr(c.schoolId, if k.Some? then Some(k.value.schoolId) else None))
    else c
  }

  function WithTeam(db: Db, c: Content): Content {
    if c.team.None? && Truthy(c.teamId) then
      var t := FindTeam(db, c.teamId.value);
      c.(team := t, schoolId := SchoolOr(c.schoolId, if t.Some? then Some(t.value.schoolId) else None))
    else c
  }

  function WithSchool(db: Db, c: Content): Content {
    if c.school.None? && Truthy(c.schoolId) then c.(school := FindSchool(db, c.schoolId.value)) else c
  }

  /** Two contents that ask for the same thing, whatever has been looked up so far. */
  predicate SameRequest(c: Content, e: Content) {
    && e == c.(schoolId := e.schoolId, user := e.user, course := e.course, team := e.team, school := e.school)
    && (Truthy(c.schoolId) ==> e.schoolId == c.schoolId)
  }

  /** What the content looks like once its ids have been looked up. */
  function Expanded(db: Db, c: Content): (e: Content)
    ensures SameRequest(c, e)
    ensures ValidMessage(c) ==> ValidMessage(e)
  {
    var c1 := WithUser(db, c);
    assert SameRequest(c, c1);
    var c2 := WithCourse(db, c1);
    assert SameRequest(c1, c2);
    var c3 := WithTeam(db, c2);
    assert SameRequest(c2, c3);
    WithSchool(db, c3)
  }

  predicate MessengerIsActivated(school: Option<School>) {
    school.Some? && school.value.features.Some? && FEATURE_MESSENGER in school.value.features.value
  }

  // ---- outgoing messages ----

  datatype RoomKind = CourseRoom | TeamRoom | NewsRoom | TeachersRoom

  datatype Room = Room(kind: RoomKind, id: Id, name: string, description: string, bidirectional: bool, isModerator: bool)

  datatype Member = Member(id: string, isModerator: bool)

  datatype OutMessage =
    | AddUser(userId: string, name: string, welcome: Option<string>, rooms: seq<Room>)
    | RemoveUser(userId: string)
    | AddRoom(room: Room, members: seq<Member>)
    | RemoveRoom(kind: RoomKind, id: Id)

  function MatrixUserId(db: Db, userId: Id): string {
    "@sso_" + userId + ":" + db.config.serverName
  }

  predicate IsCourseModerator(c: Course, userId: Option<Id>) {
    Truthy(userId) && exists i :: 0 <= i < |c.teacherIds + c.substitutionIds| &&
                                  SameId((c.teacherIds + c.substitutionIds)[i], userId.value)
  }

  predicate IsTeamModerator(t: Team, userId: Option<Id>, roles: Roles) {
    Truthy(userId) && exists i :: 0 <= i < |t.userIds| && SameId(t.userIds[i].userId, userId.value) &&
                                  t.userIds[i].role in [roles.teamAdmin, roles.teamLeader, roles.teamOwner]
  }

  function CourseRoomFor(c: Course, userId: Option<Id>): Room {
    Room(CourseRoom, c.id, c.name, "Kurs", FEATURE_MESSENGER in c.features, IsCourseModerator(c, userId))
  }

  function TeamRoomFor(t: Team, userId: Option<Id>, roles: Roles): Room {
    Room(TeamRoom, t.id, t.name, "Team", FEATURE_MESSENGER in t.features, IsTeamModerator(t, userId, roles))
  }

  predicate HasRole(u: User, role: Id) {
    exists i :: 0 <= i < |u.roles| && SameId(u.roles[i], role)
  }

  function WelcomeText(db: Db, isAdmin: bool, isTeacher: bool): Option<string> {
    if isAdmin && db.config.welcomeAdmin.Some? then db.config.welcomeAdmin
    else if isTeacher && db.config.welcomeTeacher.Some? then db.config.welcomeTeacher
    else db.config.welcomeStudent
  }

  /** The announcements of the school, and the room of its teachers. */
  function SchoolRooms(db: Db, user: User, school: School): seq<Room> {
    var isTeacher := HasRole(user, db.roles.teacher);
    var isAdmin := HasRole(user, db.roles.admin);
    (if school.features.Some? && FEATURE_SCHOOL_ROOM in school.features.value
     then [Room(NewsRoom, school.id, "Ankündigungen", school.name, false, isTeacher || isAdmin)] else []) +
    (if isTeacher || isAdmin
     then [Room(TeachersRoom, school.id, "Lehrerzimmer", school.name, true, isAdmin)] else [])
  }

  function CourseRooms(c: Content): seq<Room> {
    if c.courses.Some? then Map((k: Course) => CourseRoomFor(k, c.userId), c.courses.value) else []
  }

  function TeamRooms(db: Db, c: Content): seq<Room> {
    if c.teams.Some? then Map((t: Team) => TeamRoomFor(t, c.userId, db.roles), c.teams.value) else []
  }

  function Rooms(db: Db, c: Content, user: User, school: School): seq<Room> {
    CourseRooms(c) + TeamRooms(db, c) + SchoolRooms(db, user, school)
  }

  /** A full sync replaces the listed courses and teams by all of the user's. */
  function WithAllRooms(db: Db, c: Content): Content {
    if c.fullSync && c.userId.Some? then
      c.(courses := Some(CoursesOfUser(db, c.userId.value)), teams := Some(TeamsOfUser(db, c.userId.value)))
    else c
  }

  function AddUserMessage(db: Db, c: Content, user: User, school: School): OutMessage {
    AddUser(MatrixUserId(db, user.id), user.name,
            WelcomeText(db, HasRole(user, db.roles.admin), HasRole(user, db.roles.teacher)),
            Rooms(db, WithAllRooms(db, c), user, school))
  }

  predicate MayJoin(db: Db, t: Team, m: TeamUser) {
    SameId(m.schoolId, t.schoolId) || MessengerIsActivated(FindSchool(db, m.schoolId))
  }

  /** The outgoing message for expanded content; None where building it throws. */
  function Built(db: Db, c: Content): Option<OutMessage>
    requires ValidMessage(c) && !c.action.value.SyncSchool?
  {
    match c.action.value
    case SyncUser =>
      if c.user.Some? && c.school.Some? then Some(AddUserMessage(db, c, c.user.value, c.school.value)) else None
    case DeleteUser => Some(RemoveUser(MatrixUserId(db, c.userId.value)))
    case SyncCourse =>
      if c.course.None? then None
      else Some(AddRoom(CourseRoomFor(c.course.value, None),
                        Map((u: Id) => Member(MatrixUserId(db, u), IsCourseModerator(c.course.value, Some(u))),
                            CourseMembers(c.course.value))))
    case DeleteCourse => Some(RemoveRoom(CourseRoom, c.courseId.value))
    case SyncTeam =>
      if c.team.None? then None
      else Some(AddRoom(TeamRoomFor(c.team.value, None, db.roles),
                        Map((m: TeamUser) => Member(MatrixUserId(db, m.userId),
                                                    IsTeamModerator(c.team.value, Some(m.userId), db.roles)),
                            Filter((m: TeamUser) => MayJoin(db, c.team.value, m), c.team.value.userIds))))
    case DeleteTeam => Some(RemoveRoom(TeamRoom, c.teamId.value))
  }

  lemma FullSyncListsCourse(db: Db, k: Course, c: Content, u: User, s: School)
    requires k in db.courses && c.userId.Some? && c.userId.value in CourseMembers(k) && c.fullSync
    ensures CourseRoomFor(k, c.userId) in AddUserMessage(db, c, u, s).rooms
  {
    hide TeamRooms, SchoolRooms, CourseRoomFor;
    var userId := c.userId.value;
    FilterMembers((x: Course) => userId in x.userIds || userId in x.teacherIds || userId in x.substitutionIds, db.courses);
    var mine := CoursesOfUser(db, userId);
    var i :| 0 <= i < |mine| && mine[i] == k;
    assert Rooms(db, WithAllRooms(db, c), u, s)[i] == CourseRoomFor(k, c.userId);
  }

  /**
   The two ways a moderator is announced agree: a full sync tells the user of every course with the
   same flag the course's members are listed with.
   */
  lemma ModeratorFlagsAgree(db: Db, k: Course, c: Content, u: User, s: School, full: Content)
    requires k in db.courses && c.userId.Some? && c.userId.value in CourseMembers(k) && c.fullSync
    requires ValidMessage(full) && full.action == Some(SyncCourse) && full.course == Some(k)
    ensures exists isModerator ::
              && CourseRoomFor(k, None).(isModerator := isModerator) in AddUserMessage(db, c, u, s).rooms
              && Member(MatrixUserId(db, c.userId.value), isModerator) in Built(db, full).value.members
  {
    hide IsCourseModerator, IsTeamModerator, AddUserMessage, ValidId, MatrixUserId;
    FullSyncListsCourse(db, k, c, u, s);
    var isModerator := IsCourseModerator(k, c.userId);
    var j :| 0 <= j < |CourseMembers(k)| && CourseMembers(k)[j] == c.userId.value;
    assert Built(db, full).value.members[j] == Member(MatrixUserId(db, c.userId.value), isModerator);
  }
}
