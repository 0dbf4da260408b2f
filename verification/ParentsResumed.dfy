/** Repeating the migration of parent users after it stopped halfway. */
module ParentsResumed {
  import opened Wrappers
  import opened Sequences
  import opened ParentsToStudents

  function NotOneOf(people: seq<Person>): Person -> bool {
    (x: Person) => x.id !in IdsOf(people)
  }

  /** The parents of both runs: those the first has begun with, then the others as the second processed them. */
  function Overall(stop: Stop, order: seq<Person>): seq<Person> {
    Begun(stop) + Filter(NotOneOf(Begun(stop)), order)
  }

  /** The children of the parent a run stopped in, as far as no other parent was processed before. */
  predicate IsHalfway(stop: Stop, u: User) {
    stop.begun.Some? && RefersTo(u, stop.begun.value.id) && FirstParent(stop.deleted + stop.processed, u).None?
  }

  predicate NamesAParent(u: User) {
    u.parentConsents.Some? && exists c :: c in u.parentConsents.value && c.parentId.Some?
  }

  /** What the consents of some children should have lost, and have not. */
  predicate IsMissed(stop: Stop, u: User) {
    IsHalfway(stop, u) && NamesAParent(u)
  }

  /** What both runs make of a user. */
  function Resumed(stop: Stop, order: seq<Person>, u: User): User {
    if IsHalfway(stop, u) then u.(parents := People([stop.begun.value.contact])) else Migrated(Overall(stop, order), u)
  }

  function ResumedUsers(stop: Stop, order: seq<Person>, users: seq<User>): (r: seq<User>)
    ensures |r| == |users|
    ensures forall i :: 0 <= i < |users| ==> r[i] == Resumed(stop, order, users[i])
  {
    seq(|users|, i requires 0 <= i < |users| => Resumed(stop, order, users[i]))
  }

  // ---- one user ----

  lemma {:induction false} FirstParentConcat(a: seq<Person>, b: seq<Person>, u: User)
    ensures FirstParent(a + b, u) == if FirstParent(a, u).Some? then FirstParent(a, u) else FirstParent(b, u)
  {
    if a == [] {
      assert a + b == b;
    } else {
      assert (a + b)[1..] == a[1..] + b;
      FirstParentConcat(a[1..], b, u);
    }
  }

  lemma {:induction false} FirstParentOfOthers(people: seq<Person>, order: seq<Person>, u: User)
    requires forall x :: x in people ==> !RefersTo(u, x.id)
    ensures FirstParent(Filter(NotOneOf(people), order), u) == FirstParent(order, u)
  {
    if order != [] {
      FirstParentOfOthers(people, order[1..], u);
      var rest := Filter(NotOneOf(people), order[1..]);
      if NotOneOf(people)(order[0]) {
        assert Filter(NotOneOf(people), order) == [order[0]] + rest;
        assert ([order[0]] + rest)[1..] == rest;
      } else {
        var k :| 0 <= k < |people| && people[k].id == order[0].id;
        assert people[k] in people;
        assert Filter(NotOneOf(people), order) == rest;
      }
    }
  }

  lemma NobodyReferredTo(order: seq<Person>, u: User)
    requires u.parents.People?
    ensures Migrated(order, u) == u
  {
  }

  /** A second run finishes what the first has left of a user. */
  lemma ResumedUser(stop: Stop, order: seq<Person>, u: User)
    ensures Migrated(order, Halfway(stop.begun, Migrated(stop.deleted + stop.processed, u))) == Resumed(stop, order, u)
  {
    var done := stop.deleted + stop.processed;
    var begun := if stop.begun.Some? then [stop.begun.value] else [];
    FirstParentConcat(Begun(stop), Filter(NotOneOf(Begun(stop)), order), u);
    FirstParentConcat(done, begun, u);
    if FirstParent(done, u).Some? {
      NobodyReferredTo(order, Migrated(done, u));
    } else if IsHalfway(stop, u) {
      NobodyReferredTo(order, Halfway(stop.begun, u));
    } else {
      FirstParentOfOthers(Begun(stop), order, u);
    }
  }

  lemma ClearedIffNamesNobody(u: User)
    ensures WithParentId(u.parentConsents, None) == u.parentConsents <==> !NamesAParent(u)
  {
    if u.parentConsents.Some? {
      var consents := u.parentConsents.value;
      var cleared := WithParentId(u.parentConsents, None).value;
      if NamesAParent(u) {
        var c :| c in consents && c.parentId.Some?;
        var k :| 0 <= k < |consents| && consents[k] == c;
        assert cleared[k] != consents[k];
      } else {
        forall k | 0 <= k < |consents| ensures cleared[k] == consents[k] {
          assert consents[k] in consents;
        }
        assert cleared == consents;
      }
    }
  }

  /** Both runs do to a user what one complete run would have done, except when its consents were missed. */
  lemma ResumedIsMigratedIff(stop: Stop, order: seq<Person>, u: User)
    ensures Resumed(stop, order, u) == Migrated(Overall(stop, order), u) <==> !IsMissed(stop, u)
  {
    if IsHalfway(stop, u) {
      ClearedIffNamesNobody(u);
      FirstParentConcat(Begun(stop), Filter(NotOneOf(Begun(stop)), order), u);
      FirstParentConcat(stop.deleted + stop.processed, [stop.begun.value], u);
      assert FirstParent([stop.begun.value], u) == stop.begun;
    }
  }

  // ---- all users ----

  lemma {:induction false} FilterOfMapped(keep: User -> bool, f: User -> User, users: seq<User>)
    requires forall u :: u in users ==> keep(f(u)) == keep(u)
    ensures Filter(keep, Map(f, users)) == Map(f, Filter(keep, users))
  {
    if users != [] {
      var rest := Filter(keep, users[1..]);
      FilterOfMapped(keep, f, users[1..]);
      assert Map(f, users)[1..] == Map(f, users[1..]);
      if keep(users[0]) {
        assert Filter(keep, users) == [users[0]] + rest;
        assert Map(f, [users[0]] + rest) == [f(users[0])] + Map(f, rest);
      } else {
        assert Filter(keep, users) == rest;
      }
    }
  }

  function Left(stop: Stop): User -> User {
    (u: User) => Halfway(stop.begun, Migrated(stop.deleted + stop.processed, u))
  }

  lemma {:induction false} StoppedUsers(before: seq<User>, role: Id, stop: Stop, users: seq<User>)
    requires Stopped(before, role, stop, users)
    ensures users == Map(Left(stop), Filter(NotIn(IdsOf(stop.deleted)), before))
  {
  }

  /** A parent that was begun with is one of the parent users. */
  lemma BegunHaveTheRole(before: seq<User>, role: Id, stop: Stop, users: seq<User>, u: User)
    requires UniqueIds(before) && Stopped(before, role, stop, users) && u in before && u.id in IdsOf(Begun(stop))
    ensures role in u.roles && PersonOf(u) in Begun(stop)
  {
    var k :| 0 <= k < |Begun(stop)| && Begun(stop)[k].id == u.id;
    assert Begun(stop)[k] in Begun(stop);
    var v :| v in before && role in v.roles && PersonOf(v) == Begun(stop)[k];
    SameIdSameUser(before, u, v);
  }

  lemma DeletedAreBegun(stop: Stop, id: Id)
    requires id in IdsOf(stop.deleted)
    ensures id in IdsOf(Begun(stop))
  {
    var k :| 0 <= k < |stop.deleted| && IdsOf(stop.deleted)[k] == id;
    assert IdsOf(Begun(stop))[k] == id;
  }

  lemma {:induction false} OthersAfterStop(before: seq<User>, role: Id, stop: Stop, users: seq<User>)
    requires UniqueIds(before) && Stopped(before, role, stop, users)
    ensures Filter(WithoutRole(role), users) == Map(Left(stop), Filter(WithoutRole(role), before))
  {
    var base := Filter(NotIn(IdsOf(stop.deleted)), before);
    StoppedUsers(before, role, stop, users);
    FilterOfMapped(WithoutRole(role), Left(stop), base);
    forall u | u in before ensures WithoutRole(role)(u) == (NotIn(IdsOf(stop.deleted))(u) && WithoutRole(role)(u)) {
      if u.id in IdsOf(stop.deleted) {
        DeletedAreBegun(stop, u.id);
        BegunHaveTheRole(before, role, stop, users, u);
      }
    }
    FilterFilter(NotIn(IdsOf(stop.deleted)), WithoutRole(role), WithoutRole(role), before);
  }

  lemma {:induction false} OthersAreDistinct(people: seq<Person>, order: seq<Person>)
    requires NoDuplicates(IdsOf(order))
    ensures NoDuplicates(IdsOf(Filter(NotOneOf(people), order)))
  {
    if order != [] {
      var rest := Filter(NotOneOf(people), order[1..]);
      assert IdsOf(order)[1..] == IdsOf(order[1..]);
      OthersAreDistinct(people, order[1..]);
      FilterMembers(NotOneOf(people), order[1..]);
      if NotOneOf(people)(order[0]) {
        assert Filter(NotOneOf(people), order) == [order[0]] + rest;
        forall k | 0 <= k < |rest| ensures rest[k].id != order[0].id {
          assert rest[k] in order[1..];
          var j :| 0 <= j < |order| - 1 && order[1..][j] == rest[k];
          assert IdsOf(order)[j + 1] == rest[k].id;
        }
      } else {
        assert Filter(NotOneOf(people), order) == rest;
      }
    }
  }

  lemma {:induction false} OverallIsDistinct(people: seq<Person>, order: seq<Person>)
    requires NoDuplicates(IdsOf(people)) && NoDuplicates(IdsOf(order))
    ensures NoDuplicates(IdsOf(people + Filter(NotOneOf(people), order)))
  {
    var others := Filter(NotOneOf(people), order);
    OthersAreDistinct(people, order);
    FilterMembers(NotOneOf(people), order);
    hide Filter;
    assert IdsOf(people + others) == IdsOf(people) + IdsOf(others);
    forall k | 0 <= k < |others| ensures IdsOf(others)[k] !in IdsOf(people) {
      assert others[k] in others;
    }
  }

  lemma LeftKeepsIdentity(stop: Stop, u: User)
    ensures Left(stop)(u).roles == u.roles && PersonOf(Left(stop)(u)) == PersonOf(u)
  {
  }

  /** A user that is left by the first run, as it was before. */
  lemma UserBefore(before: seq<User>, role: Id, stop: Stop, users: seq<User>, v: User) returns (u: User)
    requires Stopped(before, role, stop, users) && v in users
    ensures u in before && u.roles == v.roles && PersonOf(u) == PersonOf(v)
  {
    var base := Filter(NotIn(IdsOf(stop.deleted)), before);
    StoppedUsers(before, role, stop, users);
    FilterMembers(NotIn(IdsOf(stop.deleted)), before);
    hide Filter, Left, Stopped, Begun;
    var k :| 0 <= k < |users| && users[k] == v;
    u := base[k];
    LeftKeepsIdentity(stop, u);
  }

  /** A user that has not been deleted, as the first run has left it. */
  lemma UserAfter(before: seq<User>, role: Id, stop: Stop, users: seq<User>, u: User) returns (v: User)
    requires Stopped(before, role, stop, users) && u in before && u.id !in IdsOf(stop.deleted)
    ensures v in users && u.roles == v.roles && PersonOf(u) == PersonOf(v)
  {
    var base := Filter(NotIn(IdsOf(stop.deleted)), before);
    StoppedUsers(before, role, stop, users);
    FilterMembers(NotIn(IdsOf(stop.deleted)), before);
    assert NotIn(IdsOf(stop.deleted))(u);
    hide Filter, Left, Stopped, Begun, NotIn;
    var k :| 0 <= k < |base| && base[k] == u;
    v := users[k];
    LeftKeepsIdentity(stop, u);
  }

  /** A parent user is processed in one of the runs. */
  lemma IsProcessed(before: seq<User>, role: Id, stop: Stop, users: seq<User>, order: seq<Person>, u: User)
    requires UniqueIds(before) && Stopped(before, role, stop, users) && Lists(order, users, role)
    requires u in before && role in u.roles
    ensures PersonOf(u) in Overall(stop, order)
  {
    hide UniqueIds, Stopped, Filter, Begun;
    if u.id in IdsOf(Begun(stop)) {
      BegunHaveTheRole(before, role, stop, users, u);
    } else {
      if u.id in IdsOf(stop.deleted) {
        DeletedAreBegun(stop, u.id);
      }
      var v := UserAfter(before, role, stop, users, u);
      FilterMembers(NotOneOf(Begun(stop)), order);
      assert PersonOf(u) in order && NotOneOf(Begun(stop))(PersonOf(u));
    }
  }

  lemma WasAParent(before: seq<User>, role: Id, stop: Stop, users: seq<User>, x: Person)
    requires Stopped(before, role, stop, users)
    requires exists v :: v in users && role in v.roles && PersonOf(v) == x
    ensures exists u :: u in before && role in u.roles && PersonOf(u) == x
  {
    var v :| v in users && role in v.roles && PersonOf(v) == x;
    var u := UserBefore(before, role, stop, users, v);
  }

  /** Both runs together process every parent user once. */
  lemma OverallLists(before: seq<User>, role: Id, stop: Stop, users: seq<User>, order: seq<Person>)
    requires UniqueIds(before) && Stopped(before, role, stop, users) && Lists(order, users, role)
    ensures Lists(Overall(stop, order), before, role)
  {
    FilterMembers(NotOneOf(Begun(stop)), order);
    OverallIsDistinct(Begun(stop), order);
    hide Filter, NoDuplicates, Begun, UniqueIds;
    forall u | u in before && role in u.roles ensures PersonOf(u) in Overall(stop, order) {
      IsProcessed(before, role, stop, users, order, u);
    }
    forall x | x in Overall(stop, order) ensures exists u :: u in before && role in u.roles && PersonOf(u) == x {
      if x !in Begun(stop) {
        WasAParent(before, role, stop, users, x);
      }
    }
  }

  // ---- the result of both runs ----

  lemma BothRuns(stop: Stop, order: seq<Person>, users: seq<User>)
    ensures MigratedUsers(order, Map(Left(stop), users)) == ResumedUsers(stop, order, users)
  {
    forall k | 0 <= k < |users| ensures Migrated(order, Left(stop)(users[k])) == Resumed(stop, order, users[k]) {
      ResumedUser(stop, order, users[k]);
    }
  }

  lemma ResumedUsersIff(stop: Stop, order: seq<Person>, users: seq<User>)
    ensures ResumedUsers(stop, order, users) == MigratedUsers(Overall(stop, order), users) <==>
            forall u :: u in users ==> !IsMissed(stop, u)
  {
    var all := Overall(stop, order);
    forall k | 0 <= k < |users|
      ensures ResumedUsers(stop, order, users)[k] == MigratedUsers(all, users)[k] <==> !IsMissed(stop, users[k])
    {
      ResumedIsMigratedIff(stop, order, users[k]);
    }
    hide Resumed, Migrated, Overall, IsMissed;
    if u :| u in users && IsMissed(stop, u) {
      var k :| 0 <= k < |users| && users[k] == u;
      assert ResumedUsers(stop, order, users)[k] != MigratedUsers(all, users)[k];
    }
  }

  /** In whatever order it processes the parents, no complete run leaves a missed child as the two runs do. */
  lemma MissedIsNotMoved(
      before: seq<User>, role: Id, stop: Stop, users: seq<User>, order: seq<Person>, whole: seq<Person>, others: seq<User>, u: User)
    requires UniqueIds(before) && Stopped(before, role, stop, users) && Lists(whole, before, role)
    requires u in others && IsMissed(stop, u)
    ensures ResumedUsers(stop, order, others) != MigratedUsers(whole, others)
  {
  }

  /** What a stopped run and a complete second one make of the other users. */
  lemma {:induction false} BothRunsMake(before: seq<User>, role: Id, stop: Stop, users: seq<User>, order: seq<Person>, after: seq<User>)
    requires UniqueIds(before) && Stopped(before, role, stop, users) && Moves(users, role, order, after)
    ensures after == ResumedUsers(stop, order, Filter(WithoutRole(role), before))
  {
    hide Stopped, Resumed, Migrated, UniqueIds, Filter, Lists;
    OthersAfterStop(before, role, stop, users);
    BothRuns(stop, order, Filter(WithoutRole(role), before));
  }

  /**
   A run that stopped anywhere and a complete second one delete the parent users and give every other user the
   parents one complete run would have given it.  The result is that of one complete run, in some order, exactly when
   the first run did not stop between the two updates of a parent with a child whose consents name a parent: the
   second run no longer finds such a child, so its consents are never cleared.
   */
  lemma {:induction false} ResumedRunMovesIff(before: seq<User>, role: Id, stop: Stop, users: seq<User>, order: seq<Person>, after: seq<User>)
    requires UniqueIds(before) && Stopped(before, role, stop, users) && Moves(users, role, order, after)
    ensures after == ResumedUsers(stop, order, Filter(WithoutRole(role), before))
    ensures (exists whole :: Moves(before, role, whole, after)) <==>
            forall u :: u in before && role !in u.roles ==> !IsMissed(stop, u)
  {
    BothRunsMake(before, role, stop, users, order, after);
    OverallLists(before, role, stop, users, order);
    var others := Filter(WithoutRole(role), before);
    ResumedUsersIff(stop, order, others);
    FilterMembers(WithoutRole(role), before);
    assert forall u :: u in others <==> u in before && role !in u.roles;
    hide Lists, Overall, IsMissed, MigratedUsers, ResumedUsers, Filter, Stopped, UniqueIds, WithoutRole;
    if forall u :: u in others ==> !IsMissed(stop, u) {
      assert Moves(before, role, Overall(stop, order), after);
    } else {
      var u :| u in others && IsMissed(stop, u);
      if whole :| Moves(before, role, whole, after) {
        MissedIsNotMoved(before, role, stop, users, order, whole, others, u);
      }
    }
  }

  // ---- several stops before the complete run ----

  /** Runs that all stopped: the stops, and the users before the first and after each. */
  ghost predicate StoppedAt(role: Id, stops: seq<Stop>, states: seq<seq<User>>) {
    |states| == |stops| + 1 && forall k :: 0 <= k < |stops| ==> Stopped(states[k], role, stops[k], states[k + 1])
  }

  /** What the stopped runs have left of a user. */
  function LeftByAll(stops: seq<Stop>, u: User): User {
    if stops == [] then u else LeftByAll(stops[1..], Left(stops[0])(u))
  }

  /** One of the runs has missed the consents of the user. */
  predicate IsMissedByOne(stops: seq<Stop>, u: User) {
    stops != [] && (IsMissed(stops[0], u) || IsMissedByOne(stops[1..], Left(stops[0])(u)))
  }

  function FinalUsers(stops: seq<Stop>, order: seq<Person>, users: seq<User>): (r: seq<User>)
    ensures |r| == |users|
    ensures forall i :: 0 <= i < |users| ==> r[i] == Migrated(order, LeftByAll(stops, users[i]))
  {
    seq(|users|, i requires 0 <= i < |users| => Migrated(order, LeftByAll(stops, users[i])))
  }

  lemma {:induction false} StopKeepsUniqueIds(before: seq<User>, role: Id, stop: Stop, users: seq<User>)
    requires UniqueIds(before) && Stopped(before, role, stop, users)
    ensures UniqueIds(users)
  {
    StoppedUsers(before, role, stop, users);
    FilterKeepsUniqueIds(NotIn(IdsOf(stop.deleted)), before);
    var base := Filter(NotIn(IdsOf(stop.deleted)), before);
    forall i | 0 <= i < |base| ensures users[i].id == base[i].id {
      LeftKeepsIdentity(stop, base[i]);
    }
    hide Filter, Left, Stopped;
  }

  /** What all the runs together make of the other users. */
  lemma {:induction false} AllRunsMake(role: Id, stops: seq<Stop>, states: seq<seq<User>>, order: seq<Person>, after: seq<User>)
    requires StoppedAt(role, stops, states) && UniqueIds(states[0]) && Moves(states[|stops|], role, order, after)
    ensures after == FinalUsers(stops, order, Filter(WithoutRole(role), states[0]))
    decreases |stops|
  {
    hide Stopped, UniqueIds, Filter, Left, Migrated, Lists;
    if stops != [] {
      assert Stopped(states[0], role, stops[0], states[1]);
      StopKeepsUniqueIds(states[0], role, stops[0], states[1]);
      AllRunsMake(role, stops[1..], states[1..], order, after);
      OthersAfterStop(states[0], role, stops[0], states[1]);
    }
  }

  lemma LeftRefersOrStays(stop: Stop, u: User)
    ensures Left(stop)(u).parents.Refs? || u.parents.People? ==> Left(stop)(u) == u
    ensures IsMissed(stop, u) ==> u.parents.Refs? && NamesAParent(u) && Left(stop)(u).parents.People? &&
                                  Left(stop)(u).parentConsents == u.parentConsents
  {
  }

  lemma {:induction false} PeopleStay(stops: seq<Stop>, u: User)
    requires u.parents.People?
    ensures LeftByAll(stops, u) == u
  {
    hide Left;
    if stops != [] {
      LeftRefersOrStays(stops[0], u);
      PeopleStay(stops[1..], u);
    }
  }

  /** Whoever is missed once stays missed. */
  lemma {:induction false} MissedStays(stops: seq<Stop>, order: seq<Person>, u: User)
    requires IsMissedByOne(stops, u)
    ensures u.parents.Refs? && NamesAParent(u)
    ensures var end := Migrated(order, LeftByAll(stops, u)); end.parents.People? && end.parentConsents == u.parentConsents
    decreases |stops|
  {
    hide IsMissed, Left, Migrated, NamesAParent;
    var left := Left(stops[0])(u);
    LeftRefersOrStays(stops[0], u);
    if IsMissed(stops[0], u) {
      PeopleStay(stops[1..], left);
      NobodyReferredTo(order, left);
    } else {
      MissedStays(stops[1..], order, left);
    }
  }

  lemma {:induction false} MissedIsNotMigrated(stops: seq<Stop>, order: seq<Person>, whole: seq<Person>, u: User)
    requires IsMissedByOne(stops, u)
    ensures Migrated(whole, u) != Migrated(order, LeftByAll(stops, u))
  {
    MissedStays(stops, order, u);
    ClearedIffNamesNobody(u);
    hide LeftByAll, NamesAParent, WithParentId;
  }

  lemma {:induction false} LaterRunsMissNobody(role: Id, stops: seq<Stop>, before: seq<User>, mid: seq<User>)
    requires stops != [] && UniqueIds(before) && Stopped(before, role, stops[0], mid)
    requires forall u :: u in before && role !in u.roles ==> !IsMissedByOne(stops, u)
    ensures forall v :: v in mid && role !in v.roles ==> !IsMissedByOne(stops[1..], v)
  {
    hide Stopped, UniqueIds, Left, IsMissed;
    forall v | v in mid && role !in v.roles ensures !IsMissedByOne(stops[1..], v) {
      var u := OtherBefore(before, role, stops[0], mid, v);
    }
  }

  lemma {:induction false} MissedIsNeverMoved(role: Id, stops: seq<Stop>, before: seq<User>, order: seq<Person>, after: seq<User>, u: User)
    requires after == FinalUsers(stops, order, Filter(WithoutRole(role), before))
    requires u in before && role !in u.roles && IsMissedByOne(stops, u)
    ensures !exists whole :: Moves(before, role, whole, after)
  {
    var others := Filter(WithoutRole(role), before);
    FilterMembers(WithoutRole(role), before);
    assert WithoutRole(role)(u);
    var k :| 0 <= k < |others| && others[k] == u;
    assert after[k] == Migrated(order, LeftByAll(stops, u));
    hide Filter, Migrated, IsMissedByOne, LeftByAll, Lists, FinalUsers, MigratedUsers, WithoutRole;
    if whole :| Moves(before, role, whole, after) {
      assert after[k] == Migrated(whole, u);
      MissedIsNotMigrated(stops, order, whole, u);
    }
  }

  /** A user without the role that a stopped run has left, as it was before. */
  lemma {:induction false} OtherBefore(before: seq<User>, role: Id, stop: Stop, users: seq<User>, v: User) returns (u: User)
    requires UniqueIds(before) && Stopped(before, role, stop, users) && v in users && role !in v.roles
    ensures u in before && role !in u.roles && Left(stop)(u) == v
  {
    var others := Filter(WithoutRole(role), before);
    OthersAfterStop(before, role, stop, users);
    FilterMembers(WithoutRole(role), users);
    FilterMembers(WithoutRole(role), before);
    assert WithoutRole(role)(v);
    hide Filter, Left, Stopped, UniqueIds;
    var k :| 0 <= k < |others| && Map(Left(stop), others)[k] == v;
    u := others[k];
    assert u in others;
  }

  lemma {:induction false} UnmissedAreMoved(role: Id, stops: seq<Stop>, states: seq<seq<User>>, order: seq<Person>, after: seq<User>)
    returns (whole: seq<Person>)
    requires StoppedAt(role, stops, states) && UniqueIds(states[0]) && Moves(states[|stops|], role, order, after)
    requires forall u :: u in states[0] && role !in u.roles ==> !IsMissedByOne(stops, u)
    ensures Moves(states[0], role, whole, after)
    decreases |stops|
  {
    hide Stopped, UniqueIds, IsMissed, Moves, Left;
    if stops == [] {
      whole := order;
    } else {
      assert Stopped(states[0], role, stops[0], states[1]);
      LaterRunsMissNobody(role, stops, states[0], states[1]);
      StopKeepsUniqueIds(states[0], role, stops[0], states[1]);
      var rest := UnmissedAreMoved(role, stops[1..], states[1..], order, after);
      ResumedRunMovesIff(states[0], role, stops[0], states[1], rest, after);
      whole :| Moves(states[0], role, whole, after);
    }
  }

  /**
   However often the migration stops before a complete run: the result is that of one complete run, in some order,
   exactly when no run has missed the consents of a child.
   */
  lemma {:induction false} StoppedRunsMoveIff(
      role: Id, stops: seq<Stop>, states: seq<seq<User>>, order: seq<Person>, after: seq<User>)
    requires StoppedAt(role, stops, states) && UniqueIds(states[0]) && Moves(states[|stops|], role, order, after)
    ensures after == FinalUsers(stops, order, Filter(WithoutRole(role), states[0]))
    ensures (exists whole :: Moves(states[0], role, whole, after)) <==>
            forall u :: u in states[0] && role !in u.roles ==> !IsMissedByOne(stops, u)
  {
    AllRunsMake(role, stops, states, order, after);
    hide Stopped, UniqueIds, Filter, Moves, FinalUsers, IsMissedByOne, WithoutRole;
    if u :| u in states[0] && role !in u.roles && IsMissedByOne(stops, u) {
      MissedIsNeverMoved(role, stops, states[0], order, after, u);
    } else {
      var whole := UnmissedAreMoved(role, stops, states, order, after);
    }
  }

  /** A child that is missed: its consents name the parent it no longer refers to. */
  lemma ConsentsKeepADeletedParent(parent: User, child: User)
    requires parent.id != child.id && parent.roles == [7] && child.roles == []
    requires child.parents == Refs([parent.id]) && child.parentConsents == Some([ParentConsent(Some(parent.id), "analog")])
    ensures var stop := Stop([], [], Some(PersonOf(parent)));
            var left := child.(parents := People([parent.contact]));
            && Stopped([parent, child], 7, stop, HalfwayUsers(stop.begun, [parent, child])) && IsMissed(stop, child)
            && Halfway(stop.begun, child) == left && forall order :: Migrated(order, left) == left
  {
  }
}
