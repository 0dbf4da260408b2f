/**
 What comes out of the consumer, said of the collections and of the message alone: which messages
 are executed, to which school they belong, and what is announced to whom.
 */
module MessengerOutcome {
  import opened Wrappers
  import opened Sequences
  import opened MessengerMessages
  import opened MessengerProducer
  import opened MessengerConsumer
  import opened MessengerDelivery
  import opened MessengerSchoolSync

  /** A message that asks for nothing. */
  const BLANK := Content(None, None, None, None, None, false, false, None, None, None, None, None, None)

  /** No call fails. */
  const WORKING := Faults(false, false, false, false)

  // ---- which messages are executed at all ----

  predicate IsObjectId(id: string) {
    |id| == 24 && forall c :: c in id ==> c in "0123456789abcdef"
  }

  /** The field in which an action looks for its id. */
  predicate IsAbout(c: Content, id: Id) {
    || (c.action == Some(SyncSchool) && c.schoolId == Some(id))
    || ((c.action == Some(SyncUser) || c.action == Some(DeleteUser)) && c.userId == Some(id))
    || ((c.action == Some(SyncCourse) || c.action == Some(DeleteCourse)) && c.courseId == Some(id))
    || ((c.action == Some(SyncTeam) || c.action == Some(DeleteTeam)) && c.teamId == Some(id))
  }

  ghost predicate WellFormed(c: Content) {
    && (exists id :: IsAbout(c, id) && IsObjectId(id))
    && (c.action == Some(SyncSchool) ==> c.fullSync)
    && (c.action == Some(SyncUser) ==> c.fullSync || c.courses.Some? || c.teams.Some?)
  }

  lemma HexDigitIff(c: char)
    ensures IsHexDigit(c) <==> c in "0123456789abcdef"
  {
  }

  lemma ObjectIdIff(id: Id)
    ensures ValidId(id) <==> IsObjectId(id)
  {
    forall i | 0 <= i < |id| ensures IsHexDigit(id[i]) <==> id[i] in "0123456789abcdef" {
      HexDigitIff(id[i]);
    }
    hide IsHexDigit;
  }

  lemma ValidIffWellFormed(c: Content)
    ensures ValidMessage(c) <==> WellFormed(c)
  {
    forall id ensures ValidId(id) <==> IsObjectId(id) {
      ObjectIdIff(id);
    }
    hide ValidId, IsObjectId;
    if ValidMessage(c) {
      var id := match c.action.value
        case SyncSchool => c.schoolId.value
        case SyncUser => c.userId.value
        case DeleteUser => c.userId.value
        case SyncCourse => c.courseId.value
        case DeleteCourse => c.courseId.value
        case SyncTeam => c.teamId.value
        case DeleteTeam => c.teamId.value;
      assert IsAbout(c, id);
    }
  }

  /** What cannot be parsed throws, and what is not well formed is dropped, whatever fails. */
  lemma IllFormedLeadsToNothing(db: Db, c: Content, faults: Faults, redelivered: bool)
    ensures EffectOf(db, Unparsable, faults) == Effect([], [], Threw)
    ensures !WellFormed(c) ==> EffectOf(db, Json(c), faults) == Effect([], [], Returned(false))
    ensures !WellFormed(c) ==> SettlementFor(EffectOf(db, Json(c), faults).execution, redelivered) == Dropped
  {
    ValidIffWellFormed(c);
    hide ValidMessage, WellFormed;
  }

  /** A failing call only cuts short what would have been done, and makes the handler throw. */
  lemma FailuresCutShort(db: Db, body: Body, faults: Faults)
    ensures var cut, whole := EffectOf(db, body, faults), EffectOf(db, body, WORKING);
            cut == whole || (cut.requests <= whole.requests && cut.sent == [] && cut.execution == Threw)
  {
    hide ValidMessage, Expanded, Built, UserRequests, RemovedRoomRequests, MessengerIsActivated;
  }

  /** An error is retried once, and a message is acknowledged exactly if it was executed. */
  lemma SettledByOutcome(execution: Execution, redelivered: bool)
    ensures SettlementFor(execution, redelivered) == Requeued <==> execution == Threw && !redelivered
    ensures SettlementFor(execution, redelivered) == Acked <==> execution == Returned(true)
  {
  }

  // ---- the school of a message ----

  ghost predicate HasMessenger(db: Db, schoolId: Id) {
    exists s :: s in db.schools && s.id == schoolId && s.features.Some? && "messenger" in s.features.value
  }

  /** The message names a user, a course, or a team of the school. */
  ghost predicate ViaUser(db: Db, c: Content, schoolId: Id) {
    c.user.None? && schoolId != "" && exists u :: u in db.users && u.id != "" && c.userId == Some(u.id) && u.schoolId == schoolId
  }

  ghost predicate ViaCourse(db: Db, c: Content, schoolId: Id) {
    c.course.None? && schoolId != "" && exists k :: k in db.courses && k.id != "" && c.courseId == Some(k.id) && k.schoolId == schoolId
  }

  ghost predicate ViaTeam(db: Db, c: Content, schoolId: Id) {
    c.team.None? && schoolId != "" && exists t :: t in db.teams && t.id != "" && c.teamId == Some(t.id) && t.schoolId == schoolId
  }

  /** The school id of the message: its own, or else one of the user, course or team it names. */
  ghost predicate BelongsTo(db: Db, c: Content, schoolId: Id) {
    if c.schoolId.Some? && c.schoolId.value != "" then schoolId == c.schoolId.value
    else ViaUser(db, c, schoolId) || ViaCourse(db, c, schoolId) || ViaTeam(db, c, schoolId)
  }

  lemma SchoolIsLookedUp(db: Db, c: Content)
    requires c.school.None? && Expanded(db, c).school.Some?
    ensures var s := Expanded(db, c).school.value;
            s in db.schools && BelongsTo(db, c, s.id)
  {
  }

  /** What a message brings is not looked up. */
  lemma WhatIsBroughtIsKept(db: Db, c: Content)
    ensures var e := Expanded(db, c);
            && (c.user.Some? ==> e.user == c.user) && (c.course.Some? ==> e.course == c.course)
            && (c.team.Some? ==> e.team == c.team) && (c.school.Some? ==> e.school == c.school)
            && (Truthy(c.schoolId) ==> e.schoolId == c.schoolId)
  {
    hide ValidMessage;
  }

  /** The school a message brings does not take part in the messenger, or, if it brings none, none of those it belongs to does. */
  ghost predicate IsSilent(db: Db, c: Content) {
    if c.school.Some? then c.school.value.features.None? || "messenger" !in c.school.value.features.value
    else forall id :: BelongsTo(db, c, id) ==> !HasMessenger(db, id)
  }

  /** Such a message leads to nothing, whatever fails; if its ids can be looked up it is rejected. */
  lemma NothingWithoutMessenger(db: Db, c: Content, faults: Faults)
    requires IsSilent(db, c)
    ensures EffectOf(db, Json(c), faults).requests == [] && EffectOf(db, Json(c), faults).sent == []
    ensures !faults.expand ==> EffectOf(db, Json(c), faults).execution == Returned(false)
  {
    var e := Expanded(db, c);
    if c.school.Some? {
      WhatIsBroughtIsKept(db, c);
    } else if e.school.Some? {
      SchoolIsLookedUp(db, c);
    }
    hide Expanded, Built;
  }

  ghost predicate WithoutMessenger(db: Db, body: Body) {
    body.Json? && IsSilent(db, body.content)
  }

  lemma StepWithoutMessenger(db: Db, it: Item, e: Event)
    requires WithoutMessenger(db, it.body) && it.status != UsersSent && ItemEnabled(it, e) && (e.Proceed? ==> e.db == db)
    ensures Requests(it, e) == [] && Output(it, e) == [] && After(it, e).status != UsersSent && After(it, e).body == it.body
  {
    hide Expanded, Built, ValidId, IsSilent;
    NothingWithoutMessenger(db, it.body.content, WORKING);
  }

  /**
   However a queue with such messages is drained, and whatever fails: they put nothing on either
   queue, so that a queue of nothing else stays as long as it was.
   */
  lemma {:induction false} NothingIsSentWithoutMessenger(db: Db, s: State, events: seq<Event>, t: State)
    requires FailingRun(db, s, events, t)
    requires forall i :: 0 <= i < |s.items| ==> WithoutMessenger(db, s.items[i].body) && s.items[i].status != UsersSent
    ensures t.external == s.external && |t.items| == |s.items|
    decreases |events|
  {
    hide WithoutMessenger, After, Requests, Output, ItemEnabled;
    if events != [] {
      var e := events[0];
      StepWithoutMessenger(db, s.items[e.i], e);
      NothingIsSentWithoutMessenger(db, Next(s, e), events[1..], t);
    }
  }

  /** The same in any queue: at whatever time such a message takes a step, it puts nothing on either queue. */
  lemma {:induction false} NoStepSendsWithoutMessenger(db: Db, s: State, events: seq<Event>, t: State, i: nat, e: Event)
    requires i < |s.items| && WithoutMessenger(db, s.items[i].body) && s.items[i].status != UsersSent
    requires FailingRun(db, s, events, t) && Draining(db, t, e) && e.i == i
    ensures Next(t, e).external == t.external && |Next(t, e).items| == |t.items|
    decreases |events|
  {
    hide WithoutMessenger, After, Requests, Output, ItemEnabled;
    if events == [] {
      StepWithoutMessenger(db, s.items[i], e);
    } else {
      if events[0].i == i {
        StepWithoutMessenger(db, s.items[i], events[0]);
      }
      NoStepSendsWithoutMessenger(db, Next(s, events[0]), events[1..], t, i, e);
    }
  }

  // ---- what is announced ----

  ghost predicate DistinctIds(db: Db) {
    && (forall a, b :: a in db.users && b in db.users && a.id == b.id ==> a == b)
    && (forall a, b :: a in db.courses && b in db.courses && a.id == b.id ==> a == b)
    && (forall a, b :: a in db.teams && b in db.teams && a.id == b.id ==> a == b)
    && (forall a, b :: a in db.schools && b in db.schools && a.id == b.id ==> a == b)
  }

  /** Nothing has been looked up yet, as in every message a producer sends. */
  predicate Raw(c: Content) {
    c.user.None? && c.course.None? && c.team.None? && c.school.None?
  }

  /** The message is well formed and leads to the school `s`, which takes part in the messenger. */
  ghost predicate Executed(db: Db, c: Content, s: School) {
    && Raw(c) && WellFormed(c)
    && s in db.schools && s.id != "" && s.features.Some? && "messenger" in s.features.value
    && if c.schoolId.Some? && c.schoolId.value != "" then s.id == c.schoolId.value
       else if exists id :: ViaUser(db, c, id) then ViaUser(db, c, s.id)
       else if exists id :: ViaCourse(db, c, id) then ViaCourse(db, c, s.id)
       else ViaTeam(db, c, s.id)
  }

  lemma UserIsFound(db: Db, c: Content)
    requires DistinctIds(db) && c.user.None?
    ensures var w := WithUser(db, c);
            && w == c.(user := w.user, schoolId := w.schoolId)
            && (w.user.Some? ==> w.user.value in db.users && c.userId == Some(w.user.value.id))
            && (w.user.None? && Truthy(c.userId) ==> forall u :: u in db.users ==> u.id != c.userId.value)
            && (Truthy(c.schoolId) ==> w.schoolId == c.schoolId)
            && (!Truthy(c.schoolId) ==> forall id :: id != "" ==> (ViaUser(db, c, id) <==> w.schoolId == Some(id)))
  {
  }

  lemma CourseIsFound(db: Db, c: Content)
    requires DistinctIds(db) && c.course.None?
    ensures var w := WithCourse(db, c);
            && w == c.(course := w.course, schoolId := w.schoolId)
            && (w.course.Some? ==> w.course.value in db.courses && c.courseId == Some(w.course.value.id))
            && (w.course.None? && Truthy(c.courseId) ==> forall k :: k in db.courses ==> k.id != c.courseId.value)
            && (Truthy(c.schoolId) ==> w.schoolId == c.schoolId)
            && (!Truthy(c.schoolId) ==> forall id :: id != "" ==> (ViaCourse(db, c, id) <==> w.schoolId == Some(id)))
  {
  }

  lemma TeamIsFound(db: Db, c: Content)
    requires DistinctIds(db) && c.team.None?
    ensures var w := WithTeam(db, c);
            && w == c.(team := w.team, schoolId := w.schoolId)
            && (w.team.Some? ==> w.team.value in db.teams && c.teamId == Some(w.team.value.id))
            && (w.team.None? && Truthy(c.teamId) ==> forall t :: t in db.teams ==> t.id != c.teamId.value)
            && (Truthy(c.schoolId) ==> w.schoolId == c.schoolId)
            && (!Truthy(c.schoolId) ==> forall id :: id != "" ==> (ViaTeam(db, c, id) <==> w.schoolId == Some(id)))
  {
  }

  lemma SchoolIdIsFound(db: Db, c: Content, s: School)
    requires DistinctIds(db) && Executed(db, c, s)
    ensures WithTeam(db, WithCourse(db, WithUser(db, c))).schoolId == Some(s.id)
  {
    UserIsFound(db, c);
    var c1 := WithUser(db, c);
    CourseIsFound(db, c1);
    var c2 := WithCourse(db, c1);
    TeamIsFound(db, c2);
    forall id ensures ViaCourse(db, c1, id) == ViaCourse(db, c, id) && ViaTeam(db, c2, id) == ViaTeam(db, c, id) {
    }
    hide WithUser, WithCourse, WithTeam, WellFormed, DistinctIds, ViaUser, ViaCourse, ViaTeam;
    if !Truthy(c.schoolId) {
      if Truthy(c1.schoolId) {
        assert ViaUser(db, c, c1.schoolId.value);
      } else if Truthy(c2.schoolId) {
        assert ViaCourse(db, c, c2.schoolId.value);
      }
    }
  }

  /** Whatever exists of what the message names. */
  ghost predicate FoundUser(db: Db, c: Content, e: Content) {
    if e.user.Some? then e.user.value in db.users && c.userId == Some(e.user.value.id)
    else Truthy(c.userId) ==> forall u :: u in db.users ==> u.id != c.userId.value
  }

  ghost predicate FoundCourse(db: Db, c: Content, e: Content) {
    if e.course.Some? then e.course.value in db.courses && c.courseId == Some(e.course.value.id)
    else Truthy(c.courseId) ==> forall k :: k in db.courses ==> k.id != c.courseId.value
  }

  ghost predicate FoundTeam(db: Db, c: Content, e: Content) {
    if e.team.Some? then e.team.value in db.teams && c.teamId == Some(e.team.value.id)
    else Truthy(c.teamId) ==> forall t :: t in db.teams ==> t.id != c.teamId.value
  }

  ghost predicate Found(db: Db, c: Content, e: Content) {
    FoundUser(db, c, e) && FoundCourse(db, c, e) && FoundTeam(db, c, e)
  }

  lemma UserIsLookedUp(db: Db, c: Content)
    requires c.user.None?
    ensures var w := WithUser(db, c); FoundUser(db, c, w) && SameRequest(c, w) && w == c.(user := w.user, schoolId := w.schoolId)
  {
  }

  lemma CourseIsLookedUp(db: Db, c: Content)
    requires c.course.None?
    ensures var w := WithCourse(db, c); FoundCourse(db, c, w) && SameRequest(c, w) && w == c.(course := w.course, schoolId := w.schoolId)
  {
  }

  lemma TeamIsLookedUp(db: Db, c: Content)
    requires c.team.None?
    ensures var w := WithTeam(db, c); FoundTeam(db, c, w) && SameRequest(c, w) && w == c.(team := w.team, schoolId := w.schoolId)
  {
  }

  lemma NamedOnesAreFound(db: Db, c: Content)
    requires c.user.None? && c.course.None? && c.team.None?
    ensures var w := WithTeam(db, WithCourse(db, WithUser(db, c)));
            Found(db, c, w) && SameRequest(c, w) && w.school == c.school
  {
    hide WithUser, WithCourse, WithTeam;
    var c1 := WithUser(db, c);
    var c2 := WithCourse(db, c1);
    UserIsLookedUp(db, c);
    CourseIsLookedUp(db, c1);
    TeamIsLookedUp(db, c2);
  }

  /** The school of an executed message is found, and so is whatever else exists. */
  lemma EverythingIsFound(db: Db, c: Content, s: School)
    requires DistinctIds(db) && Executed(db, c, s)
    ensures SameRequest(c, Expanded(db, c)) && Expanded(db, c).school == Some(s) && Found(db, c, Expanded(db, c))
  {
    SchoolIdIsFound(db, c, s);
    NamedOnesAreFound(db, c);
    hide WithUser, WithCourse, WithTeam, WellFormed, ViaUser, ViaCourse, ViaTeam, ValidMessage;
    assert FindSchool(db, s.id) == Some(s);
  }

  function PriorityOf(c: Content): nat {
    if c.schoolSync then 0 else 2
  }

  /** The account a user has at the messenger. */
  function Account(db: Db, userId: Id): string {
    "@sso_" + userId + ":" + db.config.serverName
  }

  /** What an executed message sends is decided by what has been found. */
  lemma ExecutedIsBuilt(db: Db, c: Content, s: School)
    requires DistinctIds(db) && Executed(db, c, s) && c.action != Some(SyncSchool)
    ensures var e, effect := Expanded(db, c), EffectOf(db, Json(c), WORKING);
            && ValidMessage(e) && effect.requests == []
            && (Built(db, e).Some? ==> effect.sent == [Sent(Built(db, e).value, PriorityOf(c))] && effect.execution == Returned(true))
            && (Built(db, e).None? ==> effect.sent == [] && effect.execution == Threw)
  {
    ValidIffWellFormed(c);
    EverythingIsFound(db, c, s);
    hide Expanded, Built, WellFormed, ValidMessage;
  }

  lemma RemovalsAreBuilt(db: Db, e: Content)
    requires ValidMessage(e)
    ensures e.action == Some(DeleteUser) ==> Built(db, e) == Some(RemoveUser(Account(db, e.userId.value)))
    ensures e.action == Some(DeleteCourse) ==> Built(db, e) == Some(RemoveRoom(CourseRoom, e.courseId.value))
    ensures e.action == Some(DeleteTeam) ==> Built(db, e) == Some(RemoveRoom(TeamRoom, e.teamId.value))
  {
    hide ValidId;
  }

  /** A removal is announced whether or not what is removed still exists. */
  lemma RemovalsAreAnnounced(db: Db, c: Content, s: School)
    requires DistinctIds(db) && Executed(db, c, s)
    ensures var sent := EffectOf(db, Json(c), WORKING).sent;
            && (c.action == Some(DeleteUser) ==> sent == [Sent(RemoveUser(Account(db, c.userId.value)), PriorityOf(c))])
            && (c.action == Some(DeleteCourse) ==> sent == [Sent(RemoveRoom(CourseRoom, c.courseId.value), PriorityOf(c))])
            && (c.action == Some(DeleteTeam) ==> sent == [Sent(RemoveRoom(TeamRoom, c.teamId.value), PriorityOf(c))])
  {
    if c.action == Some(DeleteUser) || c.action == Some(DeleteCourse) || c.action == Some(DeleteTeam) {
      ExecutedIsBuilt(db, c, s);
      RemovalsAreBuilt(db, Expanded(db, c));
      hide Expanded, Built, WellFormed, ValidMessage, EffectOf, DistinctIds, Executed, Account;
    }
  }

  /** A teacher or substitute of the course; ids that are not well formed are nobody's. */
  predicate Teaches(k: Course, userId: Id) {
    IsObjectId(userId) && (userId in k.teacherIds || userId in k.substitutionIds)
  }

  lemma TeachesIff(k: Course, userId: Id)
    ensures IsCourseModerator(k, Some(userId)) <==> Teaches(k, userId)
  {
    ObjectIdIff(userId);
    var all := k.teacherIds + k.substitutionIds;
    assert userId in all <==> userId in k.teacherIds || userId in k.substitutionIds;
    hide ValidId, IsObjectId;
  }

  /** The room of a course with its students, teachers and substitutes, in this order, the latter two as moderators. */
  predicate Presents(db: Db, k: Course, m: OutMessage) {
    && m.AddRoom?
    && m.room == Room(CourseRoom, k.id, k.name, "Kurs", "messenger" in k.features, false)
    && var ids := k.userIds + k.teacherIds + k.substitutionIds;
    && |m.members| == |ids|
    && forall i :: 0 <= i < |ids| ==> m.members[i] == Member(Account(db, ids[i]), Teaches(k, ids[i]))
  }

  lemma CourseIsPresented(db: Db, k: Course, e: Content)
    requires ValidMessage(e) && e.action == Some(SyncCourse) && e.course == Some(k)
    ensures Built(db, e).Some? && Presents(db, k, Built(db, e).value)
  {
    forall id: Id ensures IsCourseModerator(k, Some(id)) <==> Teaches(k, id) {
      TeachesIff(k, id);
    }
    assert !IsCourseModerator(k, None);
    hide IsCourseModerator, Teaches, ValidId;
  }

  /** A course that exists is announced; for one that does not exist nothing is sent and the handler throws. */
  lemma CourseIsAnnounced(db: Db, c: Content, s: School)
    requires DistinctIds(db) && Executed(db, c, s) && c.action == Some(SyncCourse)
    ensures var effect := EffectOf(db, Json(c), WORKING);
            && (forall k :: k in db.courses && c.courseId == Some(k.id) ==>
                  && effect.execution == Returned(true)
                  && |effect.sent| == 1 && effect.sent[0].priority == PriorityOf(c) && Presents(db, k, effect.sent[0].message))
            && ((forall k :: k in db.courses ==> c.courseId != Some(k.id)) ==> effect.sent == [] && effect.execution == Threw)
  {
    ExecutedIsBuilt(db, c, s);
    EverythingIsFound(db, c, s);
    var e := Expanded(db, c);
    if e.course.Some? {
      CourseIsPresented(db, e.course.value, e);
      hide Built;
    }
    hide Expanded, WellFormed, EffectOf, Presents, ValidId;
  }

  /** The member leads the team in one of the three roles. */
  predicate Leads(t: Team, userId: Id, roles: Roles) {
    IsObjectId(userId) &&
    exists m :: m in t.userIds && m.userId == userId && (m.role == roles.teamOwner || m.role == roles.teamAdmin || m.role == roles.teamLeader)
  }

  lemma LeadsIff(t: Team, userId: Id, roles: Roles)
    ensures IsTeamModerator(t, Some(userId), roles) <==> Leads(t, userId, roles)
  {
    ObjectIdIff(userId);
    assert IsObjectId(userId) ==> userId != "";
    hide ValidId, IsObjectId;
    if Leads(t, userId, roles) {
      var m :| m in t.userIds && m.userId == userId && (m.role == roles.teamOwner || m.role == roles.teamAdmin || m.role == roles.teamLeader);
      var i :| 0 <= i < |t.userIds| && t.userIds[i] == m;
    }
  }

  /** A member of the team's own school takes part, and so does one whose own school has the messenger. */
  ghost predicate TakesPart(db: Db, t: Team, m: TeamUser) {
    (m.schoolId == t.schoolId && IsObjectId(m.schoolId)) || HasMessenger(db, m.schoolId)
  }

  lemma TakesPartIff(db: Db, t: Team, m: TeamUser)
    requires DistinctIds(db)
    ensures MayJoin(db, t, m) <==> TakesPart(db, t, m)
  {
    ObjectIdIff(m.schoolId);
    hide ValidId, IsObjectId;
    if s :| s in db.schools && s.id == m.schoolId {
      assert FindSchool(db, m.schoolId) == Some(s);
    }
  }

  /** The members announced for a team: those who take part, the leading ones as moderators. */
  ghost predicate AreMembersOf(db: Db, t: Team, members: seq<Member>) {
    && |members| <= |t.userIds|
    && (forall m :: m in t.userIds && TakesPart(db, t, m) ==> Member(Account(db, m.userId), Leads(t, m.userId, db.roles)) in members)
    && forall x :: x in members ==>
         exists m :: m in t.userIds && TakesPart(db, t, m) && x == Member(Account(db, m.userId), Leads(t, m.userId, db.roles))
  }

  lemma MembersAreAnnounced(db: Db, t: Team, e: Content)
    requires DistinctIds(db) && ValidMessage(e) && e.action == Some(SyncTeam) && e.team == Some(t)
    ensures Built(db, e).Some? && var m := Built(db, e).value;
            && m.AddRoom?
            && m.room == Room(TeamRoom, t.id, t.name, "Team", "messenger" in t.features, false)
            && AreMembersOf(db, t, m.members)
  {
    var members := Built(db, e).value.members;
    var joins := (m: TeamUser) => MayJoin(db, t, m);
    var joining := Filter((m: TeamUser) => MayJoin(db, e.team.value, m), e.team.value.userIds);
    FilterMembers((m: TeamUser) => MayJoin(db, e.team.value, m), e.team.value.userIds);
    forall m: TeamUser ensures MayJoin(db, t, m) <==> TakesPart(db, t, m) {
      TakesPartIff(db, t, m);
    }
    forall id ensures IsTeamModerator(t, Some(id), db.roles) <==> Leads(t, id, db.roles) {
      LeadsIff(t, id, db.roles);
    }
    hide MayJoin, TakesPart, ValidId, Leads;
    forall m | m in t.userIds && TakesPart(db, t, m)
      ensures Member(Account(db, m.userId), Leads(t, m.userId, db.roles)) in members
    {
      var i :| 0 <= i < |joining| && joining[i] == m;
      assert members[i] == Member(Account(db, m.userId), Leads(t, m.userId, db.roles));
    }
    forall x | x in members
      ensures exists m :: m in t.userIds && TakesPart(db, t, m) && x == Member(Account(db, m.userId), Leads(t, m.userId, db.roles))
    {
      var i :| 0 <= i < |members| && members[i] == x;
      assert joining[i] in joining;
    }
  }

  /** A team that exists is announced as a room with the members that take part. */
  lemma TeamIsAnnounced(db: Db, c: Content, s: School)
    requires DistinctIds(db) && Executed(db, c, s) && c.action == Some(SyncTeam)
    ensures var effect := EffectOf(db, Json(c), WORKING);
            && (forall t :: t in db.teams && c.teamId == Some(t.id) ==>
                  && effect.execution == Returned(true) && |effect.sent| == 1 && effect.sent[0].priority == PriorityOf(c)
                  && var m := effect.sent[0].message;
                  && m.AddRoom?
                  && m.room == Room(TeamRoom, t.id, t.name, "Team", "messenger" in t.features, false)
                  && AreMembersOf(db, t, m.members))
            && ((forall t :: t in db.teams ==> c.teamId != Some(t.id)) ==> effect.sent == [] && effect.execution == Threw)
  {
    ExecutedIsBuilt(db, c, s);
    EverythingIsFound(db, c, s);
    var e := Expanded(db, c);
    if e.team.Some? {
      MembersAreAnnounced(db, e.team.value, e);
      hide Built;
    }
    hide Expanded, WellFormed, EffectOf, AreMembersOf, ValidId;
  }

  // ---- what a user is told ----

  /** The user holds the role. */
  predicate Holds(u: User, role: Id) {
    IsObjectId(role) && role in u.roles
  }

  lemma HoldsIff(u: User, role: Id)
    ensures HasRole(u, role) <==> Holds(u, role)
  {
    ObjectIdIff(role);
    hide ValidId, IsObjectId;
  }

  /** The courses and teams a user is told of: in a full sync all it belongs to, otherwise those of the message. */
  predicate ListsCourse(db: Db, c: Content, k: Course) {
    if c.fullSync then
      k in db.courses && c.userId.Some? &&
      (c.userId.value in k.userIds || c.userId.value in k.teacherIds || c.userId.value in k.substitutionIds)
    else c.courses.Some? && k in c.courses.value
  }

  predicate ListsTeam(db: Db, c: Content, t: Team) {
    if c.fullSync then t in db.teams && exists m :: m in t.userIds && c.userId == Some(m.userId)
    else c.teams.Some? && t in c.teams.value
  }

  /** The rooms of a course and of a team, as their member sees them. */
  function RoomOfCourse(k: Course, userId: Id): Room {
    Room(CourseRoom, k.id, k.name, "Kurs", "messenger" in k.features, Teaches(k, userId))
  }

  function RoomOfTeam(t: Team, userId: Id, roles: Roles): Room {
    Room(TeamRoom, t.id, t.name, "Team", "messenger" in t.features, Leads(t, userId, roles))
  }

  /** The announcements of the school, if it has them, and the staff room, which is for teachers and administrators only. */
  predicate IsSchoolRoom(db: Db, u: User, s: School, r: Room) {
    var teacher, admin := Holds(u, db.roles.teacher), Holds(u, db.roles.admin);
    || (s.features.Some? && "messengerSchoolRoom" in s.features.value
        && r == Room(NewsRoom, s.id, "Ankündigungen", s.name, false, teacher || admin))
    || ((teacher || admin) && r == Room(TeachersRoom, s.id, "Lehrerzimmer", s.name, true, admin))
  }

  /** `r` is a room the user `u` of the school `s` is told of. */
  ghost predicate IsRoomFor(db: Db, c: Content, u: User, s: School, r: Room) {
    || (exists k :: ListsCourse(db, c, k) && r == RoomOfCourse(k, u.id))
    || (exists t :: ListsTeam(db, c, t) && r == RoomOfTeam(t, u.id, db.roles))
    || IsSchoolRoom(db, u, s, r)
  }

  /** Administrators and teachers are greeted as such if there is a text for them, and everybody else as a student. */
  ghost predicate IsWelcome(db: Db, u: User, text: Option<string>) {
    if Holds(u, db.roles.admin) && db.config.welcomeAdmin.Some? then text == db.config.welcomeAdmin
    else if Holds(u, db.roles.teacher) && db.config.welcomeTeacher.Some? then text == db.config.welcomeTeacher
    else text == db.config.welcomeStudent
  }

  lemma ListedCourses(db: Db, c: Content)
    requires c.userId.Some?
    ensures var w := WithAllRooms(db, c);
            && w == c.(courses := w.courses, teams := w.teams)
            && (forall k :: ListsCourse(db, c, k) <==> w.courses.Some? && k in w.courses.value)
            && (forall t :: ListsTeam(db, c, t) <==> w.teams.Some? && t in w.teams.value)
  {
    var userId := c.userId.value;
    FilterMembers((k: Course) => userId in k.userIds || userId in k.teacherIds || userId in k.substitutionIds, db.courses);
    FilterMembers((t: Team) => InTeam(userId, t.userIds), db.teams);
    forall t: Team ensures InTeam(userId, t.userIds) <==> exists m :: m in t.userIds && c.userId == Some(m.userId) {
      if m :| m in t.userIds && c.userId == Some(m.userId) {
        var i :| 0 <= i < |t.userIds| && t.userIds[i] == m;
      }
    }
    hide InTeam;
  }

  lemma CourseRoomsIff(c: Content, r: Room)
    ensures r in CourseRooms(c) <==> c.courses.Some? && exists k :: k in c.courses.value && r == CourseRoomFor(k, c.userId)
  {
    hide CourseRoomFor;
    if c.courses.Some? {
      ImageMembers((k: Course) => CourseRoomFor(k, c.userId), c.courses.value, CourseRooms(c));
    }
  }

  lemma TeamRoomsIff(db: Db, c: Content, r: Room)
    ensures r in TeamRooms(db, c) <==> c.teams.Some? && exists t :: t in c.teams.value && r == TeamRoomFor(t, c.userId, db.roles)
  {
    hide TeamRoomFor;
    if c.teams.Some? {
      ImageMembers((t: Team) => TeamRoomFor(t, c.userId, db.roles), c.teams.value, TeamRooms(db, c));
    }
  }

  lemma SchoolRoomsIff(db: Db, u: User, s: School, r: Room)
    ensures r in SchoolRooms(db, u, s) <==> IsSchoolRoom(db, u, s, r)
  {
    HoldsIff(u, db.roles.teacher);
    HoldsIff(u, db.roles.admin);
    hide HasRole, Holds;
  }

  lemma CourseRoomIs(k: Course, userId: Id)
    ensures CourseRoomFor(k, Some(userId)) == RoomOfCourse(k, userId)
  {
    TeachesIff(k, userId);
    hide IsCourseModerator, Teaches;
  }

  lemma TeamRoomIs(t: Team, userId: Id, roles: Roles)
    ensures TeamRoomFor(t, Some(userId), roles) == RoomOfTeam(t, userId, roles)
  {
    LeadsIff(t, userId, roles);
    hide IsTeamModerator, Leads;
  }

  /** The rooms of an added user are exactly those it is to be told of. */
  lemma RoomsAreThose(db: Db, c: Content, u: User, s: School, r: Room)
    requires c.userId == Some(u.id)
    ensures r in Rooms(db, WithAllRooms(db, c), u, s) <==> IsRoomFor(db, c, u, s, r)
  {
    var w := WithAllRooms(db, c);
    ListedCourses(db, c);
    CourseRoomsIff(w, r);
    TeamRoomsIff(db, w, r);
    SchoolRoomsIff(db, u, s, r);
    hide CourseRooms, TeamRooms, WithAllRooms, ListsCourse, ListsTeam, SchoolRooms, IsSchoolRoom, CourseRoomFor, RoomOfCourse, TeamRoomFor, RoomOfTeam;
    forall k: Course ensures CourseRoomFor(k, Some(u.id)) == RoomOfCourse(k, u.id) {
      CourseRoomIs(k, u.id);
    }
    forall t: Team ensures TeamRoomFor(t, Some(u.id), db.roles) == RoomOfTeam(t, u.id, db.roles) {
      TeamRoomIs(t, u.id, db.roles);
    }
  }

  /** The kinds of rooms in the order in which they are listed. */
  function Rank(kind: RoomKind): nat {
    match kind
    case CourseRoom => 0
    case TeamRoom => 1
    case NewsRoom => 2
    case TeachersRoom => 3
  }

  /** Courses come first, then teams, the announcements and the staff room. */
  lemma RoomsAreInOrder(db: Db, c: Content, u: User, s: School)
    ensures var rooms := AddUserMessage(db, c, u, s).rooms;
            forall i, j :: 0 <= i < j < |rooms| ==> Rank(rooms[i].kind) <= Rank(rooms[j].kind)
  {
    var w := WithAllRooms(db, c);
    assert forall i :: 0 <= i < |CourseRooms(w)| ==> CourseRooms(w)[i].kind == CourseRoom;
    assert forall i :: 0 <= i < |TeamRooms(db, w)| ==> TeamRooms(db, w)[i].kind == TeamRoom;
    hide CourseRooms, TeamRooms, HasRole, MatrixUserId, WelcomeText, WithAllRooms;
  }

  /** The message tells `u` of its account, its name, its welcome, and of exactly its rooms. */
  ghost predicate Tells(db: Db, c: Content, u: User, s: School, m: OutMessage) {
    && m.AddUser? && m.userId == Account(db, u.id) && m.name == u.name && IsWelcome(db, u, m.welcome)
    && forall r :: r in m.rooms <==> IsRoomFor(db, c, u, s, r)
  }

  lemma UserIsTold(db: Db, c: Content, u: User, s: School)
    requires c.userId == Some(u.id)
    ensures Tells(db, c, u, s, AddUserMessage(db, c, u, s))
  {
    HoldsIff(u, db.roles.teacher);
    HoldsIff(u, db.roles.admin);
    hide Rooms, WithAllRooms, HasRole, Holds, IsRoomFor;
    forall r ensures r in Rooms(db, WithAllRooms(db, c), u, s) <==> IsRoomFor(db, c, u, s, r) {
      RoomsAreThose(db, c, u, s, r);
    }
  }

  /** A user that exists is announced with its rooms; for one that does not exist nothing is sent and the handler throws. */
  lemma UserIsAnnounced(db: Db, c: Content, s: School)
    requires DistinctIds(db) && Executed(db, c, s) && c.action == Some(SyncUser)
    ensures var effect := EffectOf(db, Json(c), WORKING);
            && (forall u :: u in db.users && c.userId == Some(u.id) ==>
                  && effect.execution == Returned(true)
                  && |effect.sent| == 1 && effect.sent[0].priority == PriorityOf(c) && Tells(db, c, u, s, effect.sent[0].message))
            && ((forall u :: u in db.users ==> c.userId != Some(u.id)) ==> effect.sent == [] && effect.execution == Threw)
  {
    ExecutedIsBuilt(db, c, s);
    EverythingIsFound(db, c, s);
    var e := Expanded(db, c);
    if e.user.Some? {
      var u := e.user.value;
      UserIsTold(db, e, u, s);
      SameTale(db, c, e, u, s, AddUserMessage(db, e, u, s));
    }
    hide Expanded, EffectOf, AddUserMessage, Tells, WellFormed, ValidMessage;
  }

  lemma SameTale(db: Db, c: Content, e: Content, u: User, s: School, m: OutMessage)
    requires e.userId == c.userId && e.fullSync == c.fullSync && e.courses == c.courses && e.teams == c.teams
    requires Tells(db, e, u, s, m)
    ensures Tells(db, c, u, s, m)
  {
    hide RoomOfCourse, RoomOfTeam, IsSchoolRoom, IsWelcome, Account;
    assert forall k :: ListsCourse(db, c, k) == ListsCourse(db, e, k);
    assert forall t :: ListsTeam(db, c, t) == ListsTeam(db, e, t);
    hide ListsCourse, ListsTeam;
  }

  /** A full sync of a user of the school, and the removal of the room of an archived course, both part of a school sync. */
  ghost predicate AsksForUser(db: Db, s: School, r: Content) {
    exists u :: u in db.users && u.schoolId == s.id &&
                r == BLANK.(action := Some(SyncUser), userId := Some(u.id), fullSync := true, schoolSync := true)
  }

  ghost predicate AsksForRemoval(db: Db, s: School, r: Content) {
    exists k :: k in db.courses && k.schoolId == s.id && k.archived &&
                r == BLANK.(action := Some(DeleteCourse), courseId := Some(k.id), schoolId := Some(s.id), schoolSync := true)
  }

  lemma UsersAreAskedFor(db: Db, s: School, r: Content)
    requires |UsersOfSchool(db, s.id)| <= 1000
    ensures r in UserRequests(db, s.id, true) <==> AsksForUser(db, s, r)
  {
    var all, requests := UsersOfSchool(db, s.id), UserRequests(db, s.id, true);
    FilterMembers(UserAt(s.id), db.users);
    assert Take(USER_PAGE, all) == all;
    ImageMembers((u: User) => Compose(FullUserSync(u.id, true)), all, requests);
    hide UsersOfSchool, UserRequests;
  }

  lemma RemovalSays(s: School)
    ensures forall id :: Compose(CourseRemoval(id, s.id, true)) ==
                         BLANK.(action := Some(DeleteCourse), courseId := Some(id), schoolId := Some(s.id), schoolSync := true)
  {
  }

  lemma ArchivedAreThose(db: Db, s: School)
    requires |CoursesOfSchool(db, s.id)| <= 10000
    ensures forall k :: k in ArchivedCourses(db, s.id) <==> k in db.courses && k.schoolId == s.id && k.archived
  {
    var all := CoursesOfSchool(db, s.id);
    FilterMembers(CourseAt(s.id), db.courses);
    assert Take(COURSE_PAGE, all) == all;
    FilterMembers((k: Course) => k.archived, all);
  }

  lemma RemovalsAreAskedFor(db: Db, s: School, r: Content)
    requires |CoursesOfSchool(db, s.id)| <= 10000
    ensures r in RemovedRoomRequests(db, s.id, true) <==> AsksForRemoval(db, s, r)
  {
    var archived, requests := ArchivedCourses(db, s.id), RemovedRoomRequests(db, s.id, true);
    ImageMembers((k: Course) => Compose(CourseRemoval(k.id, k.schoolId, true)), archived, requests);
    ArchivedAreThose(db, s);
    RemovalSays(s);
    hide CoursesOfSchool, ArchivedCourses, RemovedRoomRequests, Compose;
  }

  /** A school fans out: one full sync per user of the first page, and one removal per archived course of the first page. */
  lemma SchoolIsFannedOut(db: Db, c: Content, s: School)
    requires DistinctIds(db) && Executed(db, c, s) && c.action == Some(SyncSchool)
    requires |UsersOfSchool(db, s.id)| <= 1000 && |CoursesOfSchool(db, s.id)| <= 10000
    ensures var effect := EffectOf(db, Json(c), WORKING);
            && effect.sent == [] && effect.execution == Returned(true)
            && forall r :: r in effect.requests <==> AsksForUser(db, s, r) || AsksForRemoval(db, s, r)
  {
    ValidIffWellFormed(c);
    EverythingIsFound(db, c, s);
    hide Expanded, WellFormed, ValidMessage, UserRequests, RemovedRoomRequests;
    forall r ensures r in UserRequests(db, s.id, true) <==> AsksForUser(db, s, r) {
      UsersAreAskedFor(db, s, r);
    }
    forall r ensures r in RemovedRoomRequests(db, s.id, true) <==> AsksForRemoval(db, s, r) {
      RemovalsAreAskedFor(db, s, r);
    }
  }

  // ---- messages that bring what they are about ----

  /** What is brought is announced as it is, for a school that is brought and has the messenger. */
  lemma BroughtIsAnnounced(db: Db, c: Content)
    requires WellFormed(c) && DistinctIds(db)
    requires c.school.Some? && c.school.value.features.Some? && "messenger" in c.school.value.features.value
    ensures var effect := EffectOf(db, Json(c), WORKING);
            && (c.action == Some(SyncUser) && c.user.Some? && c.userId == Some(c.user.value.id) ==>
                  |effect.sent| == 1 && effect.sent[0].priority == PriorityOf(c) &&
                  Tells(db, c, c.user.value, c.school.value, effect.sent[0].message))
            && (c.action == Some(SyncCourse) && c.course.Some? ==>
                  |effect.sent| == 1 && effect.sent[0].priority == PriorityOf(c) && Presents(db, c.course.value, effect.sent[0].message))
            && (c.action == Some(SyncTeam) && c.team.Some? ==>
                  |effect.sent| == 1 && effect.sent[0].priority == PriorityOf(c) && effect.sent[0].message.AddRoom? &&
                  AreMembersOf(db, c.team.value, effect.sent[0].message.members))
            && (c.action != Some(SyncSchool) ==> effect.requests == [])
  {
    hide Built, AddUserMessage, Tells, Presents, AreMembersOf, WellFormed, ValidId;
    var e := Expanded(db, c);
    ValidIffWellFormed(c);
    assert c.action.Some?;
    WhatIsBroughtIsKept(db, c);
    assert SameRequest(c, e) && ValidMessage(e);
    hide Expanded, ValidMessage;
    if c.action == Some(SyncUser) && c.user.Some? && c.userId == Some(c.user.value.id) {
      BuiltForUser(db, e);
      UserIsTold(db, e, c.user.value, c.school.value);
      SameTale(db, c, e, c.user.value, c.school.value, AddUserMessage(db, e, c.user.value, c.school.value));
    } else if c.action == Some(SyncCourse) && c.course.Some? {
      CourseIsPresented(db, c.course.value, e);
    } else if c.action == Some(SyncTeam) && c.team.Some? {
      MembersAreAnnounced(db, c.team.value, e);
    }
  }

  lemma BuiltForUser(db: Db, e: Content)
    requires ValidMessage(e) && e.action == Some(SyncUser) && e.user.Some? && e.school.Some?
    ensures Built(db, e) == Some(AddUserMessage(db, e, e.user.value, e.school.value))
  {
    hide AddUserMessage, ValidId;
  }

  // ---- from the producer to the external queue ----

  /** An event of a team asks for one sync per member, of this team alone; one of a course likewise, or removes its room. */
  lemma MembersAreAskedFor(k: Course, t: Team)
    ensures |TeamUserRequests(t)| == |t.userIds|
    ensures forall i :: 0 <= i < |t.userIds| ==>
              TeamUserRequests(t)[i] == BLANK.(action := Some(SyncUser), userId := Some(t.userIds[i].userId), teams := Some([t]))
    ensures k.archived ==>
              CourseUserRequests(k) == [BLANK.(action := Some(DeleteCourse), courseId := Some(k.id), schoolId := Some(k.schoolId))]
    ensures !k.archived ==>
              var ids := k.userIds + k.teacherIds + k.substitutionIds;
              && |CourseUserRequests(k)| == |ids|
              && forall i :: 0 <= i < |ids| ==>
                   CourseUserRequests(k)[i] == BLANK.(action := Some(SyncUser), userId := Some(ids[i]), courses := Some([k]))
  {
  }

  /** A school that takes part in the messenger. */
  ghost predicate Takes(db: Db, s: School) {
    s in db.schools && IsObjectId(s.id) && s.features.Some? && "messenger" in s.features.value
  }

  /** A removal that is requested for a school with the messenger goes out under the id it was requested for. */
  lemma RequestedRemovalsGoOut(db: Db, s: School, id: Id, schoolSync: bool)
    requires DistinctIds(db) && Takes(db, s) && IsObjectId(id)
    ensures EffectOf(db, Json(Compose(UserRemoval(id, s.id))), WORKING).sent == [Sent(RemoveUser(Account(db, id)), 2)]
    ensures EffectOf(db, Json(Compose(TeamRemoval(id, s.id))), WORKING).sent == [Sent(RemoveRoom(TeamRoom, id), 2)]
    ensures EffectOf(db, Json(Compose(CourseRemoval(id, s.id, schoolSync))), WORKING).sent ==
              [Sent(RemoveRoom(CourseRoom, id), if schoolSync then 0 else 2)]
  {
    var user, team, course := Compose(UserRemoval(id, s.id)), Compose(TeamRemoval(id, s.id)), Compose(CourseRemoval(id, s.id, schoolSync));
    assert IsAbout(user, id) && IsAbout(team, id) && IsAbout(course, id);
    RemovalsAreAnnounced(db, user, s);
    RemovalsAreAnnounced(db, team, s);
    RemovalsAreAnnounced(db, course, s);
    hide EffectOf;
  }

  /** A requested course or team is announced as it is stored. */
  lemma RequestedRoomsGoOut(db: Db, s: School)
    requires DistinctIds(db) && Takes(db, s)
    ensures forall k :: k in db.courses && k.schoolId == s.id && IsObjectId(k.id) ==>
              var sent := EffectOf(db, Json(Compose(CourseSync(k.id))), WORKING).sent;
              |sent| == 1 && sent[0].priority == 2 && sent[0].message.AddRoom? && sent[0].message.room.id == k.id
              && sent[0].message.room.kind == CourseRoom
    ensures forall t :: t in db.teams && t.schoolId == s.id && IsObjectId(t.id) ==>
              var sent := EffectOf(db, Json(Compose(TeamSync(t.id))), WORKING).sent;
              |sent| == 1 && sent[0].priority == 2 && sent[0].message.AddRoom? && sent[0].message.room.id == t.id
              && sent[0].message.room.kind == TeamRoom
  {
    hide EffectOf;
    forall k | k in db.courses && k.schoolId == s.id && IsObjectId(k.id)
      ensures var sent := EffectOf(db, Json(Compose(CourseSync(k.id))), WORKING).sent;
              |sent| == 1 && sent[0].priority == 2 && sent[0].message.AddRoom? && sent[0].message.room.id == k.id
              && sent[0].message.room.kind == CourseRoom
    {
      var c := Compose(CourseSync(k.id));
      assert IsAbout(c, k.id) && ViaCourse(db, c, s.id);
      CourseIsAnnounced(db, c, s);
    }
    forall t | t in db.teams && t.schoolId == s.id && IsObjectId(t.id)
      ensures var sent := EffectOf(db, Json(Compose(TeamSync(t.id))), WORKING).sent;
              |sent| == 1 && sent[0].priority == 2 && sent[0].message.AddRoom? && sent[0].message.room.id == t.id
              && sent[0].message.room.kind == TeamRoom
    {
      var c := Compose(TeamSync(t.id));
      assert IsAbout(c, t.id) && ViaTeam(db, c, s.id);
      TeamIsAnnounced(db, c, s);
    }
  }

  /**
   A requested sync of a user goes out as one message to it: of all its rooms, or of the one course
   or team it was requested for.
   */
  lemma RequestedUsersGoOut(db: Db, s: School, u: User, k: Course, t: Team, schoolSync: bool)
    requires DistinctIds(db) && Takes(db, s) && u in db.users && u.schoolId == s.id && IsObjectId(u.id)
    ensures var sent := EffectOf(db, Json(Compose(FullUserSync(u.id, schoolSync))), WORKING).sent;
            |sent| == 1 && sent[0].priority == (if schoolSync then 0 else 2)
            && Tells(db, BLANK.(userId := Some(u.id), fullSync := true), u, s, sent[0].message)
    ensures var sent := EffectOf(db, Json(Compose(UserSyncForCourse(u.id, k))), WORKING).sent;
            |sent| == 1 && sent[0].priority == 2
            && Tells(db, BLANK.(userId := Some(u.id), courses := Some([k])), u, s, sent[0].message)
    ensures var sent := EffectOf(db, Json(Compose(UserSyncForTeam(u.id, t))), WORKING).sent;
            |sent| == 1 && sent[0].priority == 2
            && Tells(db, BLANK.(userId := Some(u.id), teams := Some([t])), u, s, sent[0].message)
  {
    hide EffectOf, Tells;
    RequestedUserGoesOut(db, s, u, Compose(FullUserSync(u.id, schoolSync)), BLANK.(userId := Some(u.id), fullSync := true));
    RequestedUserGoesOut(db, s, u, Compose(UserSyncForCourse(u.id, k)), BLANK.(userId := Some(u.id), courses := Some([k])));
    RequestedUserGoesOut(db, s, u, Compose(UserSyncForTeam(u.id, t)), BLANK.(userId := Some(u.id), teams := Some([t])));
  }

  lemma RequestedUserGoesOut(db: Db, s: School, u: User, c: Content, tale: Content)
    requires DistinctIds(db) && Takes(db, s) && u in db.users && u.schoolId == s.id && IsObjectId(u.id)
    requires Raw(c) && c.action == Some(SyncUser) && c.userId == Some(u.id) && c.schoolId.None?
    requires c.fullSync || c.courses.Some? || c.teams.Some?
    requires tale.userId == c.userId && tale.fullSync == c.fullSync && tale.courses == c.courses && tale.teams == c.teams
    ensures var sent := EffectOf(db, Json(c), WORKING).sent;
            |sent| == 1 && sent[0].priority == PriorityOf(c) && Tells(db, tale, u, s, sent[0].message)
  {
    assert IsAbout(c, u.id) && ViaUser(db, c, s.id);
    UserIsAnnounced(db, c, s);
    hide EffectOf, Tells;
    SameTale(db, tale, c, u, s, EffectOf(db, Json(c), WORKING).sent[0].message);
  }

  /** The message tells `u` of all its rooms. */
  ghost predicate TellsAll(db: Db, u: User, s: School, m: OutMessage) {
    Tells(db, BLANK.(userId := Some(u.id), fullSync := true), u, s, m)
  }

  lemma AddedUserIsTold(db: Db, u: User, s: School)
    ensures AddUserFor(db, s, u).priority == 0 && TellsAll(db, u, s, AddUserFor(db, s, u).message)
  {
    hide Tells, AddUserMessage;
    UserIsTold(db, UserContent(u, s), u, s);
    SameTale(db, BLANK.(userId := Some(u.id), fullSync := true), UserContent(u, s), u, s, AddUserFor(db, s, u).message);
  }

  lemma RemovalIs(k: Course)
    ensures RemoveRoomFor(k) == Sent(RemoveRoom(CourseRoom, k.id), 0)
  {
  }

  lemma SentUsers(db: Db, s: School)
    requires |UsersOfSchool(db, s.id)| <= 1000
    ensures forall u :: u in db.users && u.schoolId == s.id ==> AddUserFor(db, s, u) in UserOutput(db, s)
    ensures forall x :: x in UserOutput(db, s) ==> exists u :: u in db.users && u.schoolId == s.id && x == AddUserFor(db, s, u)
  {
    var all := UsersOfSchool(db, s.id);
    assert Take(USER_PAGE, all) == all;
    FilterMembers(UserAt(s.id), db.users);
    hide AddUserFor;
    ImageMembers((u: User) => AddUserFor(db, s, u), all, UserOutput(db, s));
  }

  lemma SentCourses(db: Db, s: School)
    requires |CoursesOfSchool(db, s.id)| <= 10000
    ensures forall k :: k in db.courses && k.schoolId == s.id && k.archived ==> RemoveRoomFor(k) in CourseOutput(db, s)
    ensures forall x :: x in CourseOutput(db, s) ==>
              exists k :: k in db.courses && k.schoolId == s.id && k.archived && x == RemoveRoomFor(k)
  {
    ArchivedAreThose(db, s);
    hide RemoveRoomFor, ArchivedCourses;
    ImageMembers((k: Course) => RemoveRoomFor(k), ArchivedCourses(db, s.id), CourseOutput(db, s));
  }

  lemma InBoth<T>(all: seq<T>, a: seq<T>, b: seq<T>, x: T)
    requires multiset(all) == multiset(a) + multiset(b)
    ensures x in all <==> x in a || x in b
  {
    assert x in all <==> x in multiset(all);
    assert x in a <==> x in multiset(a);
    assert x in b <==> x in multiset(b);
  }

  /**
   A school sync, drained in any interleaving without failures: everybody of the school is told of
   exactly its rooms, every archived course is announced as removed, nothing else is sent, and all of
   it with the lowest priority.
   */
  lemma {:induction false} SchoolSyncTellsEveryone(db: Db, s: School, events: seq<Event>, t: State)
    requires UniqueIds(db) && ActiveSchool(db, s) && DrainingRun(db, SchoolMessage(s), events, t, true) && Drained(t)
    requires |UsersOfSchool(db, s.id)| <= 1000 && |CoursesOfSchool(db, s.id)| <= 10000
    ensures forall u :: u in db.users && u.schoolId == s.id ==>
              exists x :: x in t.external && x.priority == 0 && TellsAll(db, u, s, x.message)
    ensures forall k :: k in db.courses && k.schoolId == s.id && k.archived ==> Sent(RemoveRoom(CourseRoom, k.id), 0) in t.external
    ensures forall x :: x in t.external ==>
              x.priority == 0 &&
              ((exists u :: u in db.users && u.schoolId == s.id && TellsAll(db, u, s, x.message)) ||
               (exists k :: k in db.courses && k.schoolId == s.id && k.archived && x.message == RemoveRoom(CourseRoom, k.id)))
  {
    SchoolSyncReachesEveryone(db, s, events, t, true);
    var users, courses := UserOutput(db, s), CourseOutput(db, s);
    SentUsers(db, s);
    SentCourses(db, s);
    forall x ensures x in t.external <==> x in users || x in courses {
      InBoth(t.external, users, courses, x);
    }
    hide UserOutput, CourseOutput, AddUserFor, RemoveRoomFor, DrainingRun, UsersOfSchool, CoursesOfSchool, Tells, UniqueIds, ActiveSchool;
    assert forall k :: RemoveRoomFor(k) == Sent(RemoveRoom(CourseRoom, k.id), 0) by {
      forall k: Course ensures RemoveRoomFor(k) == Sent(RemoveRoom(CourseRoom, k.id), 0) {
        RemovalIs(k);
      }
    }
    forall u | u in db.users && u.schoolId == s.id
      ensures AddUserFor(db, s, u) in t.external && AddUserFor(db, s, u).priority == 0 && TellsAll(db, u, s, AddUserFor(db, s, u).message)
    {
      AddedUserIsTold(db, u, s);
    }
  }
}
