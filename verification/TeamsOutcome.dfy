/**
 What every call to the team services ends with and changes, said of the users, the team and the call alone.
 */
module TeamsOutcome {
  import opened Wrappers
  import opened Sequences
  import opened Teams

  predicate IsUser(s: State, u: User, id: Id) {
    u in s.users && u.id == id
  }

  ghost predicate Exists(s: State, id: Id) {
    exists u :: IsUser(s, u, id)
  }

  /** Every member of the team still exists. */
  ghost predicate NobodyIsGone(s: State) {
    forall m :: m in s.team.userIds ==> Exists(s, m.userId)
  }

  lemma FoundIff(s: State, id: Id)
    ensures Find(ById(id), s.users).Some? <==> Exists(s, id)
    ensures Find(ById(id), s.users).Some? ==> IsUser(s, Find(ById(id), s.users).value, id)
  {
    if u :| IsUser(s, u, id) {
      assert ById(id)(u);
    }
    hide Find;
    var found := Find(ById(id), s.users);
    if found.Some? {
      assert IsUser(s, found.value, id);
    }
  }

  lemma NobodyIsGoneIff(s: State)
    ensures AllPopulated(s) <==> NobodyIsGone(s)
  {
    forall m | m in s.team.userIds ensures MemberEmail(s.users, m.userId).Some? <==> Exists(s, m.userId) {
      FoundIff(s, m.userId);
    }
    hide MemberEmail, Exists;
  }

  /** The same schools, and the one given. */
  ghost predicate Covers(before: seq<Id>, after: seq<Id>, schoolId: Id) {
    before <= after && |after| <= |before| + 1 && forall x :: x in after <==> x in before || x == schoolId
  }

  // ---- adding by id ----

  /** Somebody is asked for by id, in a role that may be given. */
  predicate AsksById(call: Call, userId: Id, role: Role) {
    && call.Add? && (call.data.email == None || call.data.email == Some(""))
    && call.data.userId == Some(userId) && call.data.role == Some(role)
    && (role == TeamExpert || role == TeamAdministrator)
  }

  /** `u` is entered in the role and with its school, unless it is a member already; nobody else is entered or lost. */
  ghost predicate Entered(before: Team, after: Team, u: User, role: Role) {
    && Entry(after.userIds, u.id) == (if Entry(before.userIds, u.id).Some? then Entry(before.userIds, u.id)
                                      else Some(TeamUser(u.id, role, u.schoolId)))
    && (forall id :: id != u.id ==> Entry(after.userIds, id) == Entry(before.userIds, id))
    && DistinctUsers(after.userIds)
    && (DistinctUsers(before.userIds) ==>
          after.userIds == before.userIds + if IsMember(before.userIds, u.id) then [] else [TeamUser(u.id, role, u.schoolId)])
    && after.invitedUserIds == before.invitedUserIds
    && Covers(before.schoolIds, after.schoolIds, u.schoolId)
  }

  lemma NewEntryIsEntered(s: State, u: User, role: Role, id: Id)
    ensures Entry(FirstEntries(s.team.userIds + [TeamUser(u.id, role, u.schoolId)]), id) ==
            if Entry(s.team.userIds, id).Some? then Entry(s.team.userIds, id)
            else if id == u.id then Some(TeamUser(u.id, role, u.schoolId)) else None
  {
    var entry := TeamUser(u.id, role, u.schoolId);
    hide Entry, FirstEntries;
    EntryAppend(s.team.userIds, entry, id);
    FirstEntriesKeepEntries(s.team.userIds + [entry], id);
  }

  lemma LastIsNew(rest: seq<TeamUser>, last: TeamUser)
    requires DistinctUsers(rest + [last])
    ensures DistinctUsers(rest) && !IsMember(rest, last.userId)
  {
    var us := rest + [last];
    assert forall i :: 0 <= i < |rest| ==> us[i] == rest[i];
    forall m | m in rest ensures m.userId != last.userId {
      var i :| 0 <= i < |rest| && rest[i] == m;
      assert us[i].userId != us[|rest|].userId;
    }
  }

  /** A list without duplicates is left as it is. */
  lemma {:induction false} DistinctAreKept(us: seq<TeamUser>)
    requires DistinctUsers(us)
    ensures FirstEntries(us) == us
    decreases |us|
  {
    hide IsMember, DistinctUsers;
    if us != [] {
      var rest, last := us[..|us| - 1], us[|us| - 1];
      assert us == rest + [last];
      LastIsNew(rest, last);
      DistinctAreKept(rest);
    }
  }

  lemma {:induction false} DistinctGrowsByOne(us: seq<TeamUser>, m: TeamUser)
    requires DistinctUsers(us)
    ensures FirstEntries(us + [m]) == us + if IsMember(us, m.userId) then [] else [m]
  {
    DistinctAreKept(us);
    assert (us + [m])[..|us|] == us;
    hide IsMember;
  }

  /** A user who is entered as the last of the list, which then loses its duplicates. */
  lemma ImportedIsEntered(s: State, t: Team, u: User, role: Role)
    requires t.userIds == FirstEntries(s.team.userIds + [TeamUser(u.id, role, u.schoolId)])
    requires t.invitedUserIds == s.team.invitedUserIds && t.schoolIds == UpdatedSchoolIds(s.team.schoolIds, u.schoolId)
    ensures Entered(s.team, t, u, role)
  {
    hide Entry, Find, IsMember;
    var m := TeamUser(u.id, role, u.schoolId);
    assert DistinctUsers(FirstEntries(s.team.userIds + [m]));
    if DistinctUsers(s.team.userIds) {
      DistinctGrowsByOne(s.team.userIds, m);
    }
    forall id
      ensures Entry(t.userIds, id) ==
              if Entry(s.team.userIds, id).Some? then Entry(s.team.userIds, id) else if id == u.id then Some(m) else None
    {
      NewEntryIsEntered(s, u, role, id);
    }
    hide FirstEntries, DistinctUsers;
  }

  lemma ImportedIff(c: Config, s: State, userId: Id, role: Role, patchFails: bool)
    ensures var (t, outcome) := ImportById(c, s, userId, role, patchFails);
            && (outcome == Done <==> Exists(s, userId) && role in c.teamRoles && NobodyIsGone(s) && !patchFails)
            && (outcome == Done ==> t == s.(team := t.team) && exists u :: IsUser(s, u, userId) && Entered(s.team, t.team, u, role))
            && (outcome != Done ==> outcome == Rejected && t == s)
  {
    hide Find, AllPopulated, NobodyIsGone, Exists, Entered, FirstEntries, UpdatedSchoolIds;
    NobodyIsGoneIff(s);
    FoundIff(s, userId);
    var (t, outcome) := ImportById(c, s, userId, role, patchFails);
    if outcome == Done {
      ImportedIsEntered(s, t.team, Find(ById(userId), s.users).value, role);
    }
  }

  lemma AddingById(c: Config, s: State, call: Call, userId: Id, role: Role)
    requires AsksById(call, userId, role)
    ensures var (t, outcome) := Step(c, s, call);
            && (outcome == Done <==> Exists(s, userId) && role in c.teamRoles && NobodyIsGone(s) && !call.patchFails)
            && (outcome == Done ==> t == s.(team := t.team) && exists u :: IsUser(s, u, userId) && Entered(s.team, t.team, u, role))
            && (outcome != Done ==> outcome == Rejected && t == s)
  {
    hide ImportById, ImportByEmail, NobodyIsGone, Exists, Entered, IsUser;
    ImportedIff(c, s, userId, role, call.patchFails);
  }

  // ---- inviting by email ----

  /** Two letters are the same, or the small form of a capital one. */
  predicate SmallOf(a: char, b: char) {
    if 'A' <= a <= 'Z' then b as int == a as int + 32 else b == a
  }

  /** Somebody is asked for by an email that reads so in small letters. */
  predicate AsksByEmail(call: Call, email: string) {
    && call.Add? && call.data.email.Some? && call.data.email.value != ""
    && |email| == |call.data.email.value| && (forall i :: 0 <= i < |email| ==> SmallOf(call.data.email.value[i], email[i]))
    && (call.data.role == None || call.data.role == Some(TeamExpert) || call.data.role == Some(TeamAdministrator))
  }

  ghost predicate IsTheOne(s: State, email: string, i: nat) {
    i < |s.users| && s.users[i].email == email && forall j :: 0 <= j < |s.users| && s.users[j].email == email ==> j == i
  }

  ghost predicate OneUserHas(s: State, email: string) {
    exists i: nat :: IsTheOne(s, email, i)
  }

  ghost predicate NobodyHas(s: State, email: string) {
    forall u :: u in s.users ==> u.email != email
  }

  /** The expert user an invitation makes first. */
  ghost predicate MakesExpert(c: Config, s: State, email: string, role: Option<Role>) {
    c.expertSchool.Some? && NobodyHas(s, email) && role == Some(TeamExpert)
  }

  /** Every member exists, and none has the email. */
  ghost predicate IsNoMember(s: State, email: string) {
    forall m :: m in s.team.userIds ==> exists other :: MemberEmail(s.users, m.userId) == Some(other) && other != email
  }

  lemma OneHasIff(s: State, email: string)
    ensures |Filter(ByEmail(email), s.users)| == 0 <==> NobodyHas(s, email)
    ensures |Filter(ByEmail(email), s.users)| == 1 <==> OneUserHas(s, email)
  {
    OneIsKeptIff(ByEmail(email), s.users);
    FilterMembers(ByEmail(email), s.users);
    var found := Filter(ByEmail(email), s.users);
    hide Filter;
    assert forall i: nat :: IsTheOne(s, email, i) <==> IsOnlyPlace(ByEmail(email), s.users, i);
    if found != [] {
      assert found[0] in found;
    }
  }

  lemma LowerIsSmall(text: string, email: string)
    ensures Lower(text) == email <==> |email| == |text| && forall i :: 0 <= i < |email| ==> SmallOf(text[i], email[i])
  {
    if |email| == |text| && forall i :: 0 <= i < |email| ==> SmallOf(text[i], email[i]) {
      forall i | 0 <= i < |email| ensures Lower(text)[i] == email[i] {
        assert SmallOf(text[i], email[i]);
      }
    }
  }

  lemma BlocksIff(s: State, email: string)
    ensures BlocksEmail(s, email) <==> !IsNoMember(s, email)
  {
    hide MemberEmail;
  }

  /** The users before the invitation itself: with the expert, if one is made. */
  ghost predicate ExpertIsMade(c: Config, s: State, t: State, email: string, role: Option<Role>) {
    if MakesExpert(c, s, email, role) then t.users == s.users + [User(s.nextId, email, c.expertSchool.value)] && t.nextId == s.nextId + 1
    else t.users == s.users && t.nextId == s.nextId
  }

  /** The invitation is possible: there is the expert school, a single user with the email who is no member, and a role. */
  ghost predicate MayBeInvited(c: Config, s: State, t: State, email: string, role: Option<Role>) {
    && c.expertSchool.Some?
    && (OneUserHas(s, email) || MakesExpert(c, s, email, role))
    && (role.Some? || IsInvited(s.team, email))
    && IsNoMember(t, email)
  }

  /**
   Inviting somebody by email: the expert is made whatever happens later, the team gets the invitation unless it has one,
   and it stands even though the link fails.
   */
  lemma InvitingByEmail(c: Config, s: State, call: Call, email: string)
    requires AsksByEmail(call, email)
    ensures var (t, outcome) := Step(c, s, call);
            var role := call.data.role;
            && ExpertIsMade(c, s, t, email, role)
            && t.team == s.team.(invitedUserIds := t.team.invitedUserIds)
            && (if MayBeInvited(c, s, t, email, role) && !call.patchFails then
                  && (if IsInvited(s.team, email) then t.team == s.team
                      else t.team.invitedUserIds == s.team.invitedUserIds + [Invited(email, role.value)])
                  && outcome == (if call.linkFails then Rejected else Done)
                else t.team == s.team && outcome == Rejected)
  {
    var role := call.data.role;
    var s1 := WithExpert(c, s, email, role);
    var t := Step(c, s, call).0;
    LowerIsSmall(call.data.email.value, email);
    OneHasIff(s, email);
    if MakesExpert(c, s, email, role) {
      FilterAppend(ByEmail(email), s.users, [User(s.nextId, email, c.expertSchool.value)]);
    }
    assert ExpertIsMade(c, s, s1, email, role) && s1.team == s.team;
    hide Lower, Filter, OneUserHas, NobodyHas;
    BlocksIff(s1, email);
    InvitedIff(s.team, email);
    hide BlocksEmail, IsNoMember, IsInvited;
    assert t.users == s1.users;
    SameMembers(s1, t, email);
  }

  lemma InvitedIff(t: Team, email: string)
    ensures Find(InvitedAs(email), t.invitedUserIds).Some? <==> IsInvited(t, email)
  {
    if i :| i in t.invitedUserIds && i.email == email {
      assert InvitedAs(email)(i);
    }
    hide Find;
  }

  lemma SameMembers(s: State, t: State, email: string)
    requires s.users == t.users && s.team.userIds == t.team.userIds
    ensures IsNoMember(s, email) <==> IsNoMember(t, email)
  {
  }

  // ---- accepting and withdrawing ----

  /** The first open invitation of the email. */
  predicate IsFirstInvitation(t: Team, email: string, i: nat) {
    i < |t.invitedUserIds| && t.invitedUserIds[i].email == email && forall j :: 0 <= j < i ==> t.invitedUserIds[j].email != email
  }

  lemma {:induction false} FirstIsFound(invited: seq<Invited>, email: string, i: nat)
    requires i < |invited| && invited[i].email == email && forall j :: 0 <= j < i ==> invited[j].email != email
    ensures Find(InvitedAs(email), invited) == Some(invited[i])
  {
    if i > 0 {
      FirstIsFound(invited[1..], email, i - 1);
    }
  }

  ghost predicate DistinctUserIds(s: State) {
    forall a, b :: a in s.users && b in s.users && a.id == b.id ==> a == b
  }

  /** The email of a member is that of its user. */
  lemma MemberEmailIs(s: State, id: Id)
    requires DistinctUserIds(s)
    ensures forall email :: MemberEmail(s.users, id) == Some(email) <==> exists u :: IsUser(s, u, id) && u.email == email
  {
    FoundIff(s, id);
    hide Find;
  }

  /** Who may accept: an existing user with an open invitation to an existing role, of a team from which nobody is gone. */
  lemma AcceptingIff(c: Config, s: State, u: User, i: nat, patchFails: bool)
    requires DistinctUserIds(s) && u in s.users && IsFirstInvitation(s.team, u.email, i)
    ensures var (t, outcome) := Step(c, s, Accept(u.id, patchFails));
            && (outcome == Done <==> s.team.invitedUserIds[i].role in c.teamRoles && NobodyIsGone(s) && !patchFails)
            && (outcome == Done ==>
                  && t == s.(team := t.team)
                  && t.team.userIds == s.team.userIds + [TeamUser(u.id, s.team.invitedUserIds[i].role, u.schoolId)]
                  && (forall x :: x in t.team.invitedUserIds <==> x in s.team.invitedUserIds && x.email != u.email)
                  && Covers(s.team.schoolIds, t.team.schoolIds, u.schoolId))
            && (outcome != Done ==> outcome == Rejected && t == s)
  {
    NobodyIsGoneIff(s);
    FoundIff(s, u.id);
    assert IsUser(s, u, u.id);
    FirstIsFound(s.team.invitedUserIds, u.email, i);
    FilterMembers(InvitedOtherwise(u.email), s.team.invitedUserIds);
    hide Filter, Find, AllPopulated, NobodyIsGone;
  }

  /** Nobody else can: without a user or without an invitation accepting changes nothing. */
  lemma NobodyElseAccepts(c: Config, s: State, userId: Id, patchFails: bool)
    requires forall u, i: nat :: IsUser(s, u, userId) ==> !IsFirstInvitation(s.team, u.email, i)
    ensures Step(c, s, Accept(userId, patchFails)) == (s, Rejected)
  {
    FoundIff(s, userId);
    var found := Find(ById(userId), s.users);
    if found.Some? {
      var email := found.value.email;
      NobodyInvited(s.team, email, 0);
      hide Find;
    }
  }

  lemma NobodyInvited(t: Team, email: string, k: nat)
    requires k <= |t.invitedUserIds| && forall i: nat :: !IsFirstInvitation(t, email, i)
    requires forall j :: 0 <= j < k ==> t.invitedUserIds[j].email != email
    ensures Find(InvitedAs(email), t.invitedUserIds) == None
    decreases |t.invitedUserIds| - k
  {
    if k < |t.invitedUserIds| {
      assert !IsFirstInvitation(t, email, k);
      NobodyInvited(t, email, k + 1);
    } else {
      InvitedIff(t, email);
    }
  }

  /** Withdrawing takes back the invitations of the email and no other; without an email or when the patch fails, none. */
  lemma Withdrawing(c: Config, s: State, email: Option<string>, patchFails: bool)
    ensures var (t, outcome) := Step(c, s, Remove(email, patchFails));
            && (outcome == Done <==> email.Some? && !patchFails)
            && t == s.(team := s.team.(invitedUserIds := t.team.invitedUserIds))
            && (forall x :: x in t.team.invitedUserIds <==> x in s.team.invitedUserIds && (outcome == Done ==> x.email != email.value))
            && (outcome != Done ==> outcome == Rejected && t == s)
  {
    if email.Some? {
      FilterMembers(InvitedOtherwise(email.value), s.team.invitedUserIds);
    }
    hide Filter;
  }
}
