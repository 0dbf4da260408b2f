/** Inviting people into a team by email or by id, accepting and withdrawing invitations. */
module Teams {
  import opened Wrappers
  import opened Sequences

  type Id = nat

  datatype Role = TeamExpert | TeamAdministrator | OtherRole(name: string)

  datatype User = User(id: Id, email: string, schoolId: Id)

  datatype TeamUser = TeamUser(userId: Id, role: Role, schoolId: Id)

  datatype Invited = Invited(email: string, role: Role)

  datatype Team = Team(userIds: seq<TeamUser>, invitedUserIds: seq<Invited>, schoolIds: seq<Id>)

  /** What does not change: the expert school, if there is exactly one, and the team roles that exist. */
  datatype Config = Config(expertSchool: Option<Id>, teamRoles: set<Role>)

  datatype State = State(users: seq<User>, nextId: Id, team: Team)

  datatype Data = Data(email: Option<string>, userId: Option<Id>, role: Option<Role>)

  /** The calls of the three services; a failing link or a failing patch of the team is the environment's choice. */
  datatype Call =
    | Add(data: Data, linkFails: bool, patchFails: bool)
    | Accept(sessionUserId: Id, patchFails: bool)
    | Remove(email: Option<string>, patchFails: bool)

  datatype Outcome = Done | Rejected | Swallowed

  /** `toLowerCase` on the letters of the ASCII range. */
  function Lower(s: string): string {
    seq(|s|, i requires 0 <= i < |s| => if 'A' <= s[i] <= 'Z' then (s[i] as int + 32) as char else s[i])
  }

  function ById(id: Id): User -> bool {
    (u: User) => u.id == id
  }

  function ByEmail(email: string): User -> bool {
    (u: User) => u.email == email
  }

  function InvitedAs(email: string): Invited -> bool {
    (i: Invited) => i.email == email
  }

  function InvitedOtherwise(email: string): Invited -> bool {
    (i: Invited) => i.email != email
  }

  predicate IsMember(us: seq<TeamUser>, id: Id) {
    exists m :: m in us && m.userId == id
  }

  predicate IsInvited(t: Team, email: string) {
    exists i :: i in t.invitedUserIds && i.email == email
  }

  // ---- what the calls are to do ----

  function UpdatedSchoolIds(schoolIds: seq<Id>, schoolId: Id): seq<Id> {
    if schoolId in schoolIds then schoolIds else schoolIds + [schoolId]
  }

  /** The first entry of each user. */
  function FirstEntries(us: seq<TeamUser>): (r: seq<TeamUser>)
    ensures forall m :: m in r ==> m in us
    ensures forall m :: m in us ==> IsMember(r, m.userId)
    ensures forall i, j :: 0 <= i < j < |r| ==> r[i].userId != r[j].userId
  {
    if us == [] then []
    else
      var rest, last := FirstEntries(us[..|us| - 1]), us[|us| - 1];
      assert us == us[..|us| - 1] + [last];
      if IsMember(rest, last.userId) then rest else rest + [last]
  }

  /** The user of every member exists. */
  predicate AllPopulated(s: State) {
    forall m :: m in s.team.userIds ==> MemberEmail(s.users, m.userId).Some?
  }

  function ImportById(c: Config, s: State, userId: Id, role: Role, patchFails: bool): (State, Outcome) {
    var user := Find(ById(userId), s.users);
    if user.None? || role !in c.teamRoles || !AllPopulated(s) || patchFails then (s, Rejected)
    else
      var entry := TeamUser(userId, role, user.value.schoolId);
      (s.(team := s.team.(userIds := FirstEntries(s.team.userIds + [entry]),
                          schoolIds := UpdatedSchoolIds(s.team.schoolIds, user.value.schoolId))), Done)
  }

  /** The role an invitation is for: the one given, or the one of an earlier invitation. */
  function InvitationRole(t: Team, email: string, role: Option<Role>): Option<Role> {
    if role.Some? then role
    else
      var i := Find(InvitedAs(email), t.invitedUserIds);
      if i.Some? then Some(i.value.role) else None
  }

  /** A member with the email, or a member whose user is gone. */
  predicate BlocksEmail(s: State, email: string) {
    exists m :: m in s.team.userIds && MemberEmail(s.users, m.userId) in {None, Some(email)}
  }

  function MemberEmail(users: seq<User>, id: Id): Option<string> {
    var u := Find(ById(id), users);
    if u.Some? then Some(u.value.email) else None
  }

  /** An expert without account is made a user, whatever becomes of the invitation. */
  function WithExpert(c: Config, s: State, email: string, role: Option<Role>): State {
    if c.expertSchool.Some? && role == Some(TeamExpert) && |Filter(ByEmail(email), s.users)| == 0
    then s.(users := s.users + [User(s.nextId, email, c.expertSchool.value)], nextId := s.nextId + 1)
    else s
  }

  /** Exactly one user has the email, perhaps an expert made for it, who is no member, and the invitation has a role. */
  predicate CanInvite(c: Config, s: State, email: string, role: Option<Role>) {
    var s1 := WithExpert(c, s, email, role);
    c.expertSchool.Some? && |Filter(ByEmail(email), s1.users)| == 1 && InvitationRole(s.team, email, role).Some? && !BlocksEmail(s1, email)
  }

  function ImportByEmail(c: Config, s: State, email: string, role: Option<Role>, linkFails: bool, patchFails: bool): (State, Outcome) {
    var s1 := WithExpert(c, s, email, role);
    var invitationRole := InvitationRole(s.team, email, role);
    if !CanInvite(c, s, email, role) || patchFails then (s1, Rejected)
    else
      var s2 := if IsInvited(s.team, email) then s1
                else s1.(team := s.team.(invitedUserIds := s.team.invitedUserIds + [Invited(email, invitationRole.value)]));
      (s2, if linkFails then Rejected else Done)
  }

  function AcceptInvitation(c: Config, s: State, userId: Id, patchFails: bool): (State, Outcome) {
    var user := Find(ById(userId), s.users);
    if user.None? then (s, Rejected)
    else
      var i := Find(InvitedAs(user.value.email), s.team.invitedUserIds);
      if i.None? || i.value.role !in c.teamRoles || !AllPopulated(s) || patchFails then (s, Rejected)
      else
        (s.(team := Team(
              s.team.userIds + [TeamUser(userId, i.value.role, user.value.schoolId)],
              Filter(InvitedOtherwise(user.value.email), s.team.invitedUserIds),
              UpdatedSchoolIds(s.team.schoolIds, user.value.schoolId))), Done)
  }

  function RemoveInvitation(s: State, email: Option<string>, patchFails: bool): (State, Outcome) {
    if email.None? || patchFails then (s, Rejected)
    else (s.(team := s.team.(invitedUserIds := Filter(InvitedOtherwise(email.value), s.team.invitedUserIds))), Done)
  }

  function Step(c: Config, s: State, call: Call): (State, Outcome) {
    match call
    case Add(data, linkFails, patchFails) =>
      if data.role.Some? && data.role.value !in {TeamExpert, TeamAdministrator} then (s, Swallowed)
      else if data.email.Some? && data.email.value != "" then
        ImportByEmail(c, s, Lower(data.email.value), data.role, linkFails, patchFails)
      else if data.userId.Some? && data.role.Some? then
        ImportById(c, s, data.userId.value, data.role.value, patchFails)
      else (s, Swallowed)
    case Accept(userId, patchFails) => AcceptInvitation(c, s, userId, patchFails)
    case Remove(email, patchFails) => RemoveInvitation(s, email, patchFails)
  }

  /** A request to add somebody that no import is started for. */
  predicate CannotStart(data: Data) {
    || (data.role.Some? && data.role.value !in {TeamExpert, TeamAdministrator})
    || ((data.email.None? || data.email.value == "") && (data.userId.None? || data.role.None?))
  }

  /** An error is answered with success exactly if it is raised before an import starts; nothing has happened then. */
  lemma SwallowedIff(c: Config, s: State, call: Call)
    ensures Step(c, s, call).1 == Swallowed <==> call.Add? && CannotStart(call.data)
    ensures Step(c, s, call).1 == Swallowed ==> Step(c, s, call).0 == s
  {
    hide CanInvite, WithExpert, FirstEntries, AllPopulated, Filter, Lower;
  }

  /** Any other success is one: who was asked for is invited or a member, or no longer invited. */
  lemma {:induction false} DoneIsDone(c: Config, s: State, call: Call)
    requires Step(c, s, call).1 == Done
    ensures var t := Step(c, s, call).0.team;
            match call
            case Add(data, _, _) =>
              if data.email.Some? && data.email.value != "" then IsInvited(t, Lower(data.email.value))
              else data.userId.Some? && IsMember(t.userIds, data.userId.value)
            case Accept(userId, _) => IsMember(t.userIds, userId)
            case Remove(email, _) => email.Some? && !IsInvited(t, email.value)
  {
    if call.Remove? && call.email.Some? {
      FilterMembers(InvitedOtherwise(call.email.value), s.team.invitedUserIds);
    }
    var us := s.team.userIds;
    forall m: TeamUser ensures IsMember(us + [m], m.userId) && IsMember(FirstEntries(us + [m]), m.userId) {
      assert m in us + [m];
    }
    forall i: Invited ensures i in s.team.invitedUserIds + [i] {
    }
    hide FirstEntries, Lower, WithExpert, AllPopulated, CanInvite, Filter;
  }

  /** Once the user of a member is gone, nothing but withdrawing invitations changes the team. */
  lemma {:induction false} GoneMemberFreezesTheTeam(c: Config, s: State, call: Call)
    requires !AllPopulated(s) && !call.Remove?
    ensures Step(c, s, call).0.team == s.team && Step(c, s, call).1 != Done
  {
    if call.Add? && call.data.email.Some? {
      GoneMemberBlocks(c, s, Lower(call.data.email.value), call.data.role);
    }
    hide BlocksEmail, WithExpert, FirstEntries, Filter, Lower, AllPopulated;
  }

  /** Reading its email throws, and an expert who is made a user with its id has the email of the invitation. */
  lemma GoneMemberBlocks(c: Config, s: State, email: string, role: Option<Role>)
    requires !AllPopulated(s)
    ensures !CanInvite(c, s, email, role)
  {
    var m :| m in s.team.userIds && MemberEmail(s.users, m.userId).None?;
  }

  // ---- the services ----

  method RemoveDuplicatedTeamUsers(teamUsers: seq<TeamUser>) returns (stack: seq<TeamUser>)
    ensures stack == FirstEntries(teamUsers)
  {
    stack := [];
    var foundId: seq<Id> := [];
    for i := 0 to |teamUsers|
      invariant stack == FirstEntries(teamUsers[..i])
      invariant forall id :: id in foundId <==> IsMember(stack, id)
    {
      assert teamUsers[..i + 1][..i] == teamUsers[..i];
      if teamUsers[i].userId !in foundId {
        ghost var before := stack;
        stack := stack + [teamUsers[i]];
        foundId := foundId + [teamUsers[i].userId];
        assert forall id :: IsMember(stack, id) <==> IsMember(before, id) || id == teamUsers[i].userId by {
          MemberAppend(before, teamUsers[i]);
        }
      }
    }
    assert teamUsers[..|teamUsers|] == teamUsers;
  }

  lemma MemberAppend(us: seq<TeamUser>, m: TeamUser)
    ensures forall id :: IsMember(us + [m], id) <==> IsMember(us, id) || id == m.userId
  {
  }

  class TeamServices {
    const config: Config
    var users: seq<User>
    var nextId: Id
    var team: Team

    function Contents(): State
      reads this
    {
      State(users, nextId, team)
    }

    constructor (config: Config, s: State)
      ensures this.config == config && Contents() == s
    {
      this.config, this.users, this.nextId, this.team := config, s.users, s.nextId, s.team;
    }

    /** Reading the id of a member whose user is gone, as the removal of duplicates does, throws. */
    method ThrowErrorIfNotPopulated() returns (throws: bool)
      ensures throws <==> !AllPopulated(Contents())
    {
      for i := 0 to |team.userIds|
        invariant forall m :: m in team.userIds[..i] ==> MemberEmail(users, m.userId).Some?
      {
        if MemberEmail(users, team.userIds[i].userId).None? {
          return true;
        }
      }
      return false;
    }

    /** The list that is patched holds null for a member whose user is gone, and a user is required. */
    method PatchesANullUser() returns (invalid: bool)
      ensures invalid <==> !AllPopulated(Contents())
    {
      invalid := ThrowErrorIfNotPopulated();
    }

    method UserImportById(userId: Id, role: Role, patchFails: bool) returns (outcome: Outcome)
      modifies this
      ensures (Contents(), outcome) == ImportById(config, old(Contents()), userId, role, patchFails)
    {
      var user := Find(ById(userId), users);
      if user.None? || role !in config.teamRoles {
        return Rejected;
      }
      var schoolIds := UpdatedSchoolIds(team.schoolIds, user.value.schoolId);
      var userIds := team.userIds + [TeamUser(userId, role, user.value.schoolId)];
      var throws := ThrowErrorIfNotPopulated();
      if throws {
        return Rejected;
      }
      userIds := RemoveDuplicatedTeamUsers(userIds);
      if patchFails {
        return Rejected;
      }
      team := team.(userIds := userIds, schoolIds := schoolIds);
      return Done;
    }

    /** Throws for a member with the email, and for a member that cannot be populated. */
    method ThrowErrorIfUserExistByEmail(email: string) returns (throws: bool)
      ensures throws <==> BlocksEmail(Contents(), email)
    {
      for i := 0 to |team.userIds|
        invariant forall m :: m in team.userIds[..i] ==> MemberEmail(users, m.userId) !in {None, Some(email)}
      {
        var memberEmail := MemberEmail(users, team.userIds[i].userId);
        if memberEmail == None || memberEmail == Some(email) {
          return true;
        }
      }
      return false;
    }

    method UserImportByEmail(email: string, role: Option<Role>, linkFails: bool, patchFails: bool) returns (outcome: Outcome)
      modifies this
      ensures (Contents(), outcome) == ImportByEmail(config, old(Contents()), email, role, linkFails, patchFails)
    {
      ghost var start := Contents();
      var found := |Filter(ByEmail(email), users)|;
      if config.expertSchool.None? || found > 1 {
        assert found != 0 ==> WithExpert(config, start, email, role) == start;
        return Rejected;
      }
      if found == 0 && role == Some(TeamExpert) {
        users := users + [User(nextId, email, config.expertSchool.value)];
        nextId := nextId + 1;
        FilterAppend(ByEmail(email), start.users, [users[|users| - 1]]);
        found := 1;
      }
      assert Contents() == WithExpert(config, start, email, role);
      var userRole := InvitationRole(team, email, role);
      if found == 0 || userRole.None? {
        return Rejected;
      }
      var throws := ThrowErrorIfUserExistByEmail(email);
      if throws || patchFails {
        return Rejected;
      }
      if !IsInvited(team, email) {
        team := team.(invitedUserIds := team.invitedUserIds + [Invited(email, userRole.value)]);
      }
      return if linkFails then Rejected else Done;
    }

    /** Errors raised before the import are swallowed. */
    method AddPatch(data: Data, linkFails: bool, patchFails: bool) returns (outcome: Outcome)
      modifies this
      ensures (Contents(), outcome) == Step(config, old(Contents()), Add(data, linkFails, patchFails))
    {
      if data.role.Some? && data.role.value !in {TeamExpert, TeamAdministrator} {
        return Swallowed;
      }
      if data.email.Some? && data.email.value != "" {
        outcome := UserImportByEmail(Lower(data.email.value), data.role, linkFails, patchFails);
      } else if data.userId.Some? && data.role.Some? {
        outcome := UserImportById(data.userId.value, data.role.value, patchFails);
      } else {
        return Swallowed;
      }
    }

    method AcceptGet(sessionUserId: Id, patchFails: bool) returns (outcome: Outcome)
      modifies this
      ensures (Contents(), outcome) == AcceptInvitation(config, old(Contents()), sessionUserId, patchFails)
    {
      var user := Find(ById(sessionUserId), users);
      if user.None? {
        return Rejected;
      }
      var email, schoolId := user.value.email, user.value.schoolId;
      var invitedUser := Find(InvitedAs(email), team.invitedUserIds);
      if invitedUser.None? || invitedUser.value.role !in config.teamRoles {
        return Rejected;
      }
      var userIds := team.userIds + [TeamUser(sessionUserId, invitedUser.value.role, schoolId)];
      var invitedUserIds := Filter(InvitedOtherwise(email), team.invitedUserIds);
      var schoolIds := UpdatedSchoolIds(team.schoolIds, schoolId);
      var invalid := PatchesANullUser();
      if invalid || patchFails {
        return Rejected;
      }
      team := Team(userIds, invitedUserIds, schoolIds);
      return Done;
    }

    method RemovePatch(email: Option<string>, patchFails: bool) returns (outcome: Outcome)
      modifies this
      ensures (Contents(), outcome) == RemoveInvitation(old(Contents()), email, patchFails)
    {
      if email.None? || patchFails {
        return Rejected;
      }
      team := team.(invitedUserIds := Filter(InvitedOtherwise(email.value), team.invitedUserIds));
      return Done;
    }
  }

  // ---- what every run keeps ----

  function Run(c: Config, s: State, calls: seq<Call>): State
    decreases |calls|
  {
    if calls == [] then s else Run(c, Step(c, s, calls[0]).0, calls[1..])
  }

  ghost predicate DistinctEmails(invited: seq<Invited>) {
    forall i, j :: 0 <= i < j < |invited| ==> invited[i].email != invited[j].email
  }

  ghost predicate DistinctUsers(us: seq<TeamUser>) {
    forall i, j :: 0 <= i < j < |us| ==> us[i].userId != us[j].userId
  }

  ghost predicate WellFormed(t: Team) {
    && DistinctEmails(t.invitedUserIds)
    && NoDuplicates(t.schoolIds)
    && forall m :: m in t.userIds ==> m.schoolId in t.schoolIds
  }

  /** The entry that counts for a user. */
  function Entry(us: seq<TeamUser>, id: Id): Option<TeamUser> {
    Find((m: TeamUser) => m.userId == id, us)
  }

  lemma {:induction false} EntryAppend(us: seq<TeamUser>, m: TeamUser, id: Id)
    ensures Entry(us + [m], id) == if Entry(us, id).Some? then Entry(us, id) else if m.userId == id then Some(m) else None
  {
    if us == [] {
      assert us + [m] == [m];
    } else {
      assert (us + [m])[1..] == us[1..] + [m];
      EntryAppend(us[1..], m, id);
    }
  }

  lemma {:induction false} FirstEntriesKeepEntries(us: seq<TeamUser>, id: Id)
    ensures Entry(FirstEntries(us), id) == Entry(us, id)
    decreases |us|
  {
    if us != [] {
      var rest, last := us[..|us| - 1], us[|us| - 1];
      assert us == rest + [last];
      FirstEntriesKeepEntries(rest, id);
      EntryAppend(rest, last, id);
      EntryAppend(FirstEntries(rest), last, id);
    }
  }

  lemma {:induction false} FilterKeepsDistinctEmails(email: string, invited: seq<Invited>)
    requires DistinctEmails(invited)
    ensures DistinctEmails(Filter(InvitedOtherwise(email), invited))
  {
    if invited != [] {
      FilterKeepsDistinctEmails(email, invited[1..]);
      FilterMembers(InvitedOtherwise(email), invited[1..]);
      assert forall i :: i in invited[1..] ==> i.email != invited[0].email;
    }
  }

  lemma NewSchoolIsCovered(us: seq<TeamUser>, m: TeamUser, schoolIds: seq<Id>)
    requires NoDuplicates(schoolIds) && forall x :: x in us ==> x.schoolId in schoolIds
    ensures NoDuplicates(UpdatedSchoolIds(schoolIds, m.schoolId))
    ensures forall x :: x in us + [m] ==> x.schoolId in UpdatedSchoolIds(schoolIds, m.schoolId)
  {
  }

  lemma StepKeepsWellFormed(c: Config, s: State, call: Call)
    requires WellFormed(s.team)
    ensures WellFormed(Step(c, s, call).0.team)
  {
    hide Filter;
    match call
    case Add(data, linkFails, patchFails) =>
      if data.userId.Some? && data.role.Some? {
        var user := Find(ById(data.userId.value), s.users);
        if user.Some? {
          NewSchoolIsCovered(s.team.userIds, TeamUser(data.userId.value, data.role.value, user.value.schoolId), s.team.schoolIds);
        }
      }
    case Accept(userId, patchFails) =>
      var user := Find(ById(userId), s.users);
      if user.Some? {
        NewSchoolIsCovered(s.team.userIds, TeamUser(userId, TeamExpert, user.value.schoolId), s.team.schoolIds);
        FilterKeepsDistinctEmails(user.value.email, s.team.invitedUserIds);
      }
    case Remove(email, patchFails) =>
      if email.Some? {
        FilterKeepsDistinctEmails(email.value, s.team.invitedUserIds);
      }
  }

  lemma ImportByIdKeepsEntries(c: Config, s: State, userId: Id, role: Role, patchFails: bool, id: Id)
    ensures Entry(s.team.userIds, id).Some? ==>
              Entry(ImportById(c, s, userId, role, patchFails).0.team.userIds, id) == Entry(s.team.userIds, id)
  {
    var user := Find(ById(userId), s.users);
    if user.Some? {
      var entry := TeamUser(userId, role, user.value.schoolId);
      EntryAppend(s.team.userIds, entry, id);
      FirstEntriesKeepEntries(s.team.userIds + [entry], id);
    }
  }

  lemma AcceptKeepsEntries(c: Config, s: State, userId: Id, patchFails: bool, id: Id)
    ensures Entry(s.team.userIds, id).Some? ==>
              Entry(AcceptInvitation(c, s, userId, patchFails).0.team.userIds, id) == Entry(s.team.userIds, id)
  {
    var user := Find(ById(userId), s.users);
    if user.Some? {
      var i := Find(InvitedAs(user.value.email), s.team.invitedUserIds);
      if i.Some? {
        EntryAppend(s.team.userIds, TeamUser(userId, i.value.role, user.value.schoolId), id);
      }
    }
  }

  /** A member stays with the school and the role it came with. */
  lemma StepKeepsMembers(c: Config, s: State, call: Call, id: Id)
    requires Entry(s.team.userIds, id).Some?
    ensures Entry(Step(c, s, call).0.team.userIds, id) == Entry(s.team.userIds, id)
  {
    hide Entry, ImportById, AcceptInvitation;
    match call
    case Add(data, linkFails, patchFails) =>
      if data.userId.Some? && data.role.Some? {
        ImportByIdKeepsEntries(c, s, data.userId.value, data.role.value, patchFails, id);
      }
    case Accept(userId, patchFails) =>
      AcceptKeepsEntries(c, s, userId, patchFails, id);
    case Remove(email, patchFails) =>
  }

  /** In every run the team stays well-formed, and no member is lost or changed. */
  lemma {:induction false} RunKeepsTeam(c: Config, s: State, calls: seq<Call>)
    requires WellFormed(s.team)
    ensures WellFormed(Run(c, s, calls).team)
    ensures forall id :: Entry(s.team.userIds, id).Some? ==> Entry(Run(c, s, calls).team.userIds, id) == Entry(s.team.userIds, id)
    decreases |calls|
  {
    hide Step, WellFormed, Entry;
    if calls != [] {
      var next := Step(c, s, calls[0]).0;
      StepKeepsWellFormed(c, s, calls[0]);
      RunKeepsTeam(c, next, calls[1..]);
      forall id | Entry(s.team.userIds, id).Some?
        ensures Entry(Run(c, s, calls).team.userIds, id) == Entry(s.team.userIds, id)
      {
        StepKeepsMembers(c, s, calls[0], id);
      }
    }
  }

  // ---- what a successful call has done ----

  /** Whatever an invitation leads to, it changes no more than the open invitations, by at most one; success leaves one open. */
  lemma InvitingOpensOne(c: Config, s: State, email: string, role: Option<Role>, linkFails: bool, patchFails: bool)
    ensures var (t, outcome) := ImportByEmail(c, s, email, role, linkFails, patchFails);
            var invited, before := t.team.invitedUserIds, s.team.invitedUserIds;
            && t.team == s.team.(invitedUserIds := invited)
            && (invited == before || (exists r :: invited == before + [Invited(email, r)] && (role.Some? ==> role.value == r)))
            && (outcome.Done? ==> IsInvited(t.team, email) && !BlocksEmail(t, email) && exists u :: u in t.users && u.email == email)
            && (s.users <= t.users && |t.users| <= |s.users| + 1)
  {
    var (t, outcome) := ImportByEmail(c, s, email, role, linkFails, patchFails);
    FilterMembers(ByEmail(email), t.users);
    if outcome.Done? {
      assert Filter(ByEmail(email), t.users)[0] in Filter(ByEmail(email), t.users);
      if t.team.invitedUserIds != s.team.invitedUserIds {
        assert t.team.invitedUserIds[|s.team.invitedUserIds|].email == email;
      }
    }
  }

  /** Who accepts becomes a member in the invited role under its own school, and is no longer invited. */
  lemma AcceptingFulfilsTheInvitation(c: Config, s: State, userId: Id, patchFails: bool)
    requires AcceptInvitation(c, s, userId, patchFails).1.Done?
    ensures var t := AcceptInvitation(c, s, userId, patchFails).0;
            exists u, i :: u in s.users && u.id == userId && i in s.team.invitedUserIds && i.email == u.email
              && t.team.userIds == s.team.userIds + [TeamUser(userId, i.role, u.schoolId)]
              && u.schoolId in t.team.schoolIds
              && (forall email :: IsInvited(t.team, email) <==> IsInvited(s.team, email) && email != u.email)
  {
    var t := AcceptInvitation(c, s, userId, patchFails).0;
    var u := Find(ById(userId), s.users).value;
    var i := Find(InvitedAs(u.email), s.team.invitedUserIds).value;
    forall email ensures IsInvited(t.team, email) <==> IsInvited(s.team, email) && email != u.email {
      FilteredInvitations(s.team, u.email, email);
    }
    hide IsInvited, UpdatedSchoolIds, Filter;
    assert u in s.users && i in s.team.invitedUserIds;
  }

  // ---- invitations are conserved ----

  function Count(b: bool): nat {
    if b then 1 else 0
  }

  predicate IsInvitationFor(call: Call, email: string) {
    call.Add? && call.data.email.Some? && Lower(call.data.email.value) == email
  }

  /** The call makes an invitation for the email; one that is there already is not made again. */
  predicate Makes(c: Config, s: State, call: Call, email: string) {
    && IsInvitationFor(call, email) && call.data.email != Some("") && !call.patchFails
    && (call.data.role.None? || call.data.role.value in {TeamExpert, TeamAdministrator})
    && CanInvite(c, s, email, call.data.role) && !IsInvited(s.team, email)
  }

  /** An invitation of the user is open, and accepting it does not fail. */
  predicate CanAccept(c: Config, s: State, call: Call) {
    && call.Accept? && !call.patchFails
    && var user := Find(ById(call.sessionUserId), s.users);
    && user.Some?
    && var i := Find(InvitedAs(user.value.email), s.team.invitedUserIds);
    && i.Some? && i.value.role in c.teamRoles && AllPopulated(s)
  }

  /** Somebody with the email accepts. */
  predicate Accepts(c: Config, s: State, call: Call, email: string) {
    CanAccept(c, s, call) && MemberEmail(s.users, call.sessionUserId) == Some(email)
  }

  predicate Withdraws(c: Config, s: State, call: Call, email: string) {
    call == Remove(Some(email), false) && IsInvited(s.team, email)
  }

  function Invitations(c: Config, s: State, calls: seq<Call>, email: string): nat
    decreases |calls|
  {
    if calls == [] then 0
    else Count(Makes(c, s, calls[0], email)) + Invitations(c, Step(c, s, calls[0]).0, calls[1..], email)
  }

  function Acceptances(c: Config, s: State, calls: seq<Call>, email: string): nat
    decreases |calls|
  {
    if calls == [] then 0
    else Count(Accepts(c, s, calls[0], email)) + Acceptances(c, Step(c, s, calls[0]).0, calls[1..], email)
  }

  function Withdrawals(c: Config, s: State, calls: seq<Call>, email: string): nat
    decreases |calls|
  {
    if calls == [] then 0
    else Count(Withdraws(c, s, calls[0], email)) + Withdrawals(c, Step(c, s, calls[0]).0, calls[1..], email)
  }

  function InvitationCalls(calls: seq<Call>, email: string): nat {
    if calls == [] then 0 else Count(IsInvitationFor(calls[0], email)) + InvitationCalls(calls[1..], email)
  }

  lemma FilteredInvitations(t: Team, removed: string, email: string)
    ensures (exists i :: i in Filter(InvitedOtherwise(removed), t.invitedUserIds) && i.email == email) <==>
            IsInvited(t, email) && email != removed
  {
    FilterMembers(InvitedOtherwise(removed), t.invitedUserIds);
  }

  lemma StepConservesInvitations(c: Config, s: State, call: Call, email: string)
    ensures Count(IsInvited(s.team, email)) + Count(Makes(c, s, call, email)) ==
            Count(IsInvited(Step(c, s, call).0.team, email)) + Count(Accepts(c, s, call, email)) + Count(Withdraws(c, s, call, email))
  {
    match call
    case Add(data, linkFails, patchFails) =>
      if data.email.Some? {
        ImportInvitesOne(c, s, Lower(data.email.value), data.role, linkFails, patchFails, email);
      }
    case Accept(userId, patchFails) =>
      var user := Find(ById(userId), s.users);
      if user.Some? {
        FilteredInvitations(s.team, user.value.email, email);
      }
    case Remove(removed, patchFails) =>
      if removed.Some? {
        FilteredInvitations(s.team, removed.value, email);
      }
  }

  lemma ImportInvitesOne(c: Config, s: State, email: string, role: Option<Role>, linkFails: bool, patchFails: bool, other: string)
    ensures IsInvited(s.team, other) ==> IsInvited(ImportByEmail(c, s, email, role, linkFails, patchFails).0.team, other)
    ensures IsInvited(ImportByEmail(c, s, email, role, linkFails, patchFails).0.team, other) ==> IsInvited(s.team, other) || other == email
  {
  }

  /**
   What was invited at first or made since is still invited, accepted or withdrawn.  So nobody is accepted more often
   than they were invited.
   */
  lemma {:induction false} InvitationsAreConserved(c: Config, s: State, calls: seq<Call>, email: string)
    ensures Count(IsInvited(s.team, email)) + Invitations(c, s, calls, email) ==
            Count(IsInvited(Run(c, s, calls).team, email)) + Acceptances(c, s, calls, email) + Withdrawals(c, s, calls, email)
    ensures Invitations(c, s, calls, email) <= InvitationCalls(calls, email)
    ensures Acceptances(c, s, calls, email) <= Count(IsInvited(s.team, email)) + InvitationCalls(calls, email)
    decreases |calls|
  {
    if calls != [] {
      StepConservesInvitations(c, s, calls[0], email);
      hide Step, Accepts, Withdraws, IsInvited;
      InvitationsAreConserved(c, Step(c, s, calls[0]).0, calls[1..], email);
    }
  }

  // ---- when a member is listed twice ----

  ghost predicate Known(s: State) {
    && AllPopulated(s)
    && (forall u :: u in s.users ==> u.id < s.nextId)
  }

  /** No member has an open invitation. */
  ghost predicate NoMemberInvited(s: State) {
    forall m :: m in s.team.userIds ==> forall i :: i in s.team.invitedUserIds ==> MemberEmail(s.users, m.userId) != Some(i.email)
  }

  predicate AddsById(call: Call) {
    call.Add? && (call.data.email.None? || call.data.email == Some("")) && call.data.userId.Some?
  }

  /** The call adds somebody by id who has an open invitation. */
  predicate AddsInvited(s: State, call: Call) {
    AddsById(call) && exists i :: i in s.team.invitedUserIds && MemberEmail(s.users, call.data.userId.value) == Some(i.email)
  }

  /** A member accepts an invitation. */
  predicate DoublesMember(c: Config, s: State, call: Call) {
    CanAccept(c, s, call) && IsMember(s.team.userIds, call.sessionUserId)
  }

  /** Somebody is added by id, which removes the duplicates of all. */
  predicate RemovesDuplicates(c: Config, s: State, call: Call) {
    && AddsById(call) && !call.patchFails && AllPopulated(s)
    && call.data.role.Some? && call.data.role.value in {TeamExpert, TeamAdministrator} && call.data.role.value in c.teamRoles
    && Find(ById(call.data.userId.value), s.users).Some?
  }

  lemma AcceptedIsDistinctIff(us: seq<TeamUser>, m: TeamUser)
    ensures DistinctUsers(us + [m]) <==> DistinctUsers(us) && !IsMember(us, m.userId)
  {
    var next := us + [m];
    if IsMember(us, m.userId) {
      var k :| 0 <= k < |us| && us[k].userId == m.userId;
      assert next[k].userId == next[|us|].userId;
    }
    if DistinctUsers(next) {
      forall i, j | 0 <= i < j < |us| ensures us[i].userId != us[j].userId {
        assert next[i].userId != next[j].userId;
      }
    }
  }

  /** Whom a call leaves listed twice can be told before it: nobody when somebody is added by id, and else a member who accepts. */
  lemma DoubleEntryIffMemberAccepts(c: Config, s: State, call: Call)
    ensures DistinctUsers(Step(c, s, call).0.team.userIds) <==>
              RemovesDuplicates(c, s, call) || (DistinctUsers(s.team.userIds) && !DoublesMember(c, s, call))
  {
    if CanAccept(c, s, call) {
      var user := Find(ById(call.sessionUserId), s.users).value;
      var i := Find(InvitedAs(user.email), s.team.invitedUserIds).value;
      AcceptedIsDistinctIff(s.team.userIds, TeamUser(call.sessionUserId, i.role, user.schoolId));
    }
    hide IsMember, Find, Filter, BlocksEmail, WithExpert;
  }

  lemma {:induction false} RunLast(c: Config, s: State, calls: seq<Call>)
    requires calls != []
    ensures Run(c, s, calls) == Step(c, Run(c, s, calls[..|calls| - 1]), calls[|calls| - 1]).0
    decreases |calls|
  {
    hide Step;
    if |calls| > 1 {
      RunLast(c, Step(c, s, calls[0]).0, calls[1..]);
      assert calls[1..][..|calls| - 2] == calls[..|calls| - 1][1..];
    } else {
      assert calls[1..] == [] && calls[..0] == [];
    }
  }

  /** What holds of the call at a place of the run, and of the team it meets. */
  predicate DoublesAt(c: Config, s: State, calls: seq<Call>, i: nat) {
    i < |calls| && DoublesMember(c, Run(c, s, calls[..i]), calls[i])
  }

  predicate RemovesAt(c: Config, s: State, calls: seq<Call>, i: nat) {
    i < |calls| && RemovesDuplicates(c, Run(c, s, calls[..i]), calls[i])
  }

  /** Every member who accepts is followed by somebody who is added by id. */
  ghost predicate DoublesAreRemoved(c: Config, s: State, calls: seq<Call>) {
    forall i: nat :: DoublesAt(c, s, calls, i) ==> exists j: nat :: i < j && RemovesAt(c, s, calls, j)
  }

  lemma EarlierCalls(c: Config, s: State, calls: seq<Call>, i: nat)
    requires i + 1 < |calls|
    ensures var init := calls[..|calls| - 1];
            (DoublesAt(c, s, init, i) <==> DoublesAt(c, s, calls, i)) && (RemovesAt(c, s, init, i) <==> RemovesAt(c, s, calls, i))
  {
    assert calls[..|calls| - 1][..i] == calls[..i];
  }

  /** One more call at the end of a run. */
  lemma DoublesAreRemovedUntilLast(c: Config, s: State, calls: seq<Call>)
    requires calls != []
    ensures DoublesAreRemoved(c, s, calls) <==>
              RemovesAt(c, s, calls, |calls| - 1) ||
              (DoublesAreRemoved(c, s, calls[..|calls| - 1]) && !DoublesAt(c, s, calls, |calls| - 1))
  {
    var n, init := |calls| - 1, calls[..|calls| - 1];
    forall i: nat | i < n
      ensures DoublesAt(c, s, init, i) <==> DoublesAt(c, s, calls, i)
      ensures RemovesAt(c, s, init, i) <==> RemovesAt(c, s, calls, i)
    {
      EarlierCalls(c, s, calls, i);
    }
    assert RemovesAt(c, s, calls, n) ==> !DoublesAt(c, s, calls, n);
    assert forall i: nat :: DoublesAt(c, s, calls, i) || RemovesAt(c, s, calls, i) ==> i <= n;
    assert forall i: nat :: DoublesAt(c, s, init, i) || RemovesAt(c, s, init, i) ==> i < n;
    hide DoublesAt, RemovesAt;
  }

  /**
   At the end of a run from a team without duplicates nobody is listed twice, exactly when after every member who
   accepted an invitation somebody was added by id.
   */
  lemma {:induction false} RunIsDistinctIff(c: Config, s: State, calls: seq<Call>)
    requires DistinctUsers(s.team.userIds)
    ensures DistinctUsers(Run(c, s, calls).team.userIds) <==> DoublesAreRemoved(c, s, calls)
    decreases |calls|
  {
    if calls != [] {
      var n, init := |calls| - 1, calls[..|calls| - 1];
      RunIsDistinctIff(c, s, init);
      RunLast(c, s, calls);
      DoubleEntryIffMemberAccepts(c, Run(c, s, init), calls[n]);
      DoublesAreRemovedUntilLast(c, s, calls);
      hide DistinctUsers, Run, Step, DoublesMember, RemovesDuplicates, DoublesAreRemoved;
    }
  }

  lemma {:induction false} EmailAppend(users: seq<User>, u: User, id: Id)
    ensures MemberEmail(users + [u], id) ==
              if MemberEmail(users, id).Some? then MemberEmail(users, id) else if u.id == id then Some(u.email) else None
  {
    if users == [] {
      assert users + [u] == [u];
    } else {
      assert (users + [u])[1..] == users[1..] + [u];
      EmailAppend(users[1..], u, id);
    }
  }

  /** No member is listed twice, none has an open invitation, and all their users exist. */
  ghost predicate Apart(s: State) {
    Known(s) && NoMemberInvited(s) && DistinctUsers(s.team.userIds)
  }

  lemma ImportByEmailKeepsApart(c: Config, s: State, email: string, role: Option<Role>, linkFails: bool, patchFails: bool)
    requires Apart(s)
    ensures Apart(ImportByEmail(c, s, email, role, linkFails, patchFails).0)
  {
    hide DistinctUsers;
    var s1 := WithExpert(c, s, email, role);
    forall m | m in s.team.userIds ensures MemberEmail(s1.users, m.userId) == MemberEmail(s.users, m.userId) {
      if c.expertSchool.Some? {
        EmailAppend(s.users, User(s.nextId, email, c.expertSchool.value), m.userId);
      }
    }
    assert Known(s1) && NoMemberInvited(s1);
  }

  lemma ImportByIdKeepsApart(c: Config, s: State, userId: Id, role: Role, patchFails: bool)
    requires Apart(s) && forall i :: i in s.team.invitedUserIds ==> MemberEmail(s.users, userId) != Some(i.email)
    ensures Apart(ImportById(c, s, userId, role, patchFails).0)
  {
  }

  lemma AcceptKeepsApart(c: Config, s: State, userId: Id, patchFails: bool)
    requires Apart(s)
    ensures Apart(AcceptInvitation(c, s, userId, patchFails).0)
  {
    var r := AcceptInvitation(c, s, userId, patchFails);
    if r.1.Done? {
      var email := Find(ById(userId), s.users).value.email;
      FilterMembers(InvitedOtherwise(email), s.team.invitedUserIds);
      assert forall i :: i in r.0.team.invitedUserIds ==> i in s.team.invitedUserIds && i.email != email;
      assert !IsMember(s.team.userIds, userId);
    }
  }

  lemma RemoveKeepsApart(s: State, email: Option<string>, patchFails: bool)
    requires Apart(s)
    ensures Apart(RemoveInvitation(s, email, patchFails).0)
  {
    if email.Some? {
      FilterMembers(InvitedOtherwise(email.value), s.team.invitedUserIds);
    }
  }

  ghost predicate NeverAddsInvited(c: Config, s: State, calls: seq<Call>)
    decreases |calls|
  {
    calls != [] ==> !AddsInvited(s, calls[0]) && NeverAddsInvited(c, Step(c, s, calls[0]).0, calls[1..])
  }

  /** As long as nobody with an open invitation is added by id, no run lists a member twice. */
  lemma {:induction false} MembersStayApart(c: Config, s: State, calls: seq<Call>)
    requires Apart(s) && NeverAddsInvited(c, s, calls)
    ensures Apart(Run(c, s, calls))
    decreases |calls|
  {
    hide Apart, ImportByEmail, ImportById, AcceptInvitation, RemoveInvitation;
    if calls != [] {
      match calls[0] {
        case Add(data, linkFails, patchFails) =>
          if data.email.Some? && data.email.value != "" {
            ImportByEmailKeepsApart(c, s, Lower(data.email.value), data.role, linkFails, patchFails);
          } else if data.userId.Some? && data.role.Some? {
            ImportByIdKeepsApart(c, s, data.userId.value, data.role.value, patchFails);
          }
        case Accept(userId, patchFails) => AcceptKeepsApart(c, s, userId, patchFails);
        case Remove(email, patchFails) => RemoveKeepsApart(s, email, patchFails);
      }
      MembersStayApart(c, Step(c, s, calls[0]).0, calls[1..]);
    }
  }

  lemma {:induction false} RunTwo(c: Config, s: State, first: Call, second: Call)
    ensures Run(c, s, [first, second]) == Step(c, Step(c, s, first).0, second).0
  {
    hide Step;
    assert [first, second][1..] == [second] && [second][1..] == [];
    assert Run(c, s, [first, second]) == Run(c, Step(c, s, first).0, [second]);
    assert Run(c, Step(c, s, first).0, [second]) == Run(c, Step(c, Step(c, s, first).0, second).0, []);
  }

  /** Somebody with an open invitation who is added by id can still accept it, and is then listed twice. */
  lemma {:induction false} AddedAndAcceptedIsListedTwice(c: Config, s: State, userId: Id, role: Role)
    requires role in {TeamExpert, TeamAdministrator} && role in c.teamRoles
    requires AllPopulated(s) && Find(ById(userId), s.users).Some?
    requires var i := Find(InvitedAs(Find(ById(userId), s.users).value.email), s.team.invitedUserIds);
             i.Some? && i.value.role in c.teamRoles
    ensures !DistinctUsers(Run(c, s, [Add(Data(None, Some(userId), Some(role)), false, false), Accept(userId, false)]).team.userIds)
  {
    var add, accept := Add(Data(None, Some(userId), Some(role)), false, false), Accept(userId, false);
    var s1 := Step(c, s, add).0;
    var entry := TeamUser(userId, role, Find(ById(userId), s.users).value.schoolId);
    assert entry in s.team.userIds + [entry] && s1.team.userIds == FirstEntries(s.team.userIds + [entry]);
    DoubleEntryIffMemberAccepts(c, s1, accept);
    RunTwo(c, s, add, accept);
  }
}
