/**
 What a deletion ends with and what it leaves, said of the request and of the collections alone.
 */
module DeletionOutcome {
  import opened Wrappers
  import opened Sequences
  import opened UserDeletion

  // ---- registration pins ----

  /** The pin belongs to the user, or to a parent whose pins can be deleted, and the user's own could be. */
  predicate IsDeletedPin(user: User, failures: set<string>, pin: string) {
    user.email !in failures && (pin == user.email || (pin in user.parentEmails && pin !in failures))
  }

  lemma {:induction false} FilterCounts<T>(keep: T -> bool, s: seq<T>, x: T)
    ensures multiset(Filter(keep, s))[x] == if keep(x) then multiset(s)[x] else 0
  {
    if s != [] {
      FilterCounts(keep, s[1..], x);
      assert s == [s[0]] + s[1..];
    }
  }

  /** Exactly these pins are gone, and every other one is there as often as before. */
  lemma PinsLeftAre(pins: seq<string>, user: User, failures: set<string>, pin: string)
    ensures multiset(PinsLeft(pins, user, failures))[pin] ==
              if IsDeletedPin(user, failures, pin) then 0 else multiset(pins)[pin]
  {
    var parents := Filter(Working(failures), user.parentEmails);
    FilterMembers(Working(failures), user.parentEmails);
    FilterCounts(EmailTest([user.email] + parents), pins, pin);
    assert pin in [user.email] + parents <==> pin == user.email || pin in parents;
    hide Filter;
  }

  // ---- the account ----

  /** `i` is the place of the first account of the user. */
  predicate IsFirstAccount(accounts: seq<Account>, userId: Id, i: nat) {
    i < |accounts| && accounts[i].userId == userId && forall k :: 0 <= k < i ==> accounts[k].userId != userId
  }

  lemma {:induction false} FirstAccountIsTaken(accounts: seq<Account>, userId: Id, i: nat)
    requires IsFirstAccount(accounts, userId, i)
    ensures WithoutFirst(accounts, userId) == accounts[..i] + accounts[i + 1..]
    ensures Find(AccountTest(userId), accounts) == Some(accounts[i])
  {
    if i > 0 {
      FirstAccountIsTaken(accounts[1..], userId, i - 1);
    }
  }

  predicate HasNoAccount(accounts: seq<Account>, userId: Id) {
    forall i :: 0 <= i < |accounts| ==> accounts[i].userId != userId
  }

  lemma {:induction false} NoAccountIsTaken(accounts: seq<Account>, userId: Id)
    requires HasNoAccount(accounts, userId)
    ensures WithoutFirst(accounts, userId) == accounts
    ensures Find(AccountTest(userId), accounts) == None
  {
    if accounts != [] {
      assert forall i :: 0 <= i < |accounts[1..]| ==> accounts[1..][i] == accounts[i + 1];
      NoAccountIsTaken(accounts[1..], userId);
    }
  }

  // ---- the whole deletion ----

  /** The record that takes the place of a deleted user. */
  predicate IsTombstone(u: User, uid: string, schoolId: Id) {
    && u.firstName == "DELETED" && u.lastName == "USER" && u.email == uid + "@deleted"
    && u.schoolId == schoolId && u.parentEmails == [] && u.deleted
  }

  /** The user that stands in for all deleted users of a school. */
  predicate IsSchoolTombstone(u: User, schoolId: Id, tombstoneSchool: Id) {
    && u.firstName == "Gelöschter" && u.lastName == "Benutzer" && u.email == "tombstone-" + schoolId + "@hpi-schul-cloud.de"
    && u.schoolId == tombstoneSchool && u.parentEmails == [] && !u.deleted
  }

  /** The trashbin holds the user and its first account, if it has one. */
  ghost predicate HoldsUserAndAccount(s: Store, userId: Id, bin: Trashbin)
    requires userId in s.users
  {
    && bin.userId == userId && |bin.data| == 2 && bin.data[0] == UserData(s.users[userId])
    && (forall i: nat :: IsFirstAccount(s.accounts, userId, i) ==> bin.data[1] == AccountData(Some(s.accounts[i])))
    && (HasNoAccount(s.accounts, userId) ==> bin.data[1] == AccountData(None))
  }

  lemma NewBinHolds(s: Store, r: Request)
    requires r.userId in s.users
    ensures HoldsUserAndAccount(s, r.userId, NewBin(s, r))
  {
    forall i: nat | IsFirstAccount(s.accounts, r.userId, i) ensures Find(AccountTest(r.userId), s.accounts) == Some(s.accounts[i]) {
      FirstAccountIsTaken(s.accounts, r.userId, i);
    }
    if HasNoAccount(s.accounts, r.userId) {
      NoAccountIsTaken(s.accounts, r.userId);
    }
  }

  /** The accounts without the first one of the user. */
  ghost predicate AccountIsGone(before: seq<Account>, after: seq<Account>, userId: Id) {
    && (forall i: nat :: IsFirstAccount(before, userId, i) ==> after == before[..i] + before[i + 1..])
    && (HasNoAccount(before, userId) ==> after == before)
  }

  lemma {:induction false} WithoutFirstIsGone(accounts: seq<Account>, userId: Id)
    ensures AccountIsGone(accounts, WithoutFirst(accounts, userId), userId)
  {
    forall i: nat | IsFirstAccount(accounts, userId, i)
      ensures WithoutFirst(accounts, userId) == accounts[..i] + accounts[i + 1..]
    {
      FirstAccountIsTaken(accounts, userId, i);
    }
    if HasNoAccount(accounts, userId) {
      NoAccountIsTaken(accounts, userId);
    }
  }

  /** The user is found, is live, and its data can be put into a trashbin. */
  predicate Begins(s: Store, r: Request) {
    r.fault != AtReading && r.userId in s.users && !s.users[r.userId].deleted && r.fault != AtTrashbin
  }

  /** How a deletion ends that does not get as far as writing. */
  lemma RefusedDeletion(s: Store, r: Request)
    requires !Begins(s, r)
    ensures Delete(s, r).0 == s
    ensures Delete(s, r).1 == if r.fault == AtReading then Failed(AtReading)
                              else if r.userId !in s.users then NotFound
                              else if s.users[r.userId].deleted then AlreadyDeleted
                              else Failed(AtTrashbin)
  {
  }

  /** What a deletion has left of the user when it stops at overwriting it, at its account, or not before the tombstone user. */
  lemma DeletionLeaves(s: Store, r: Request)
    requires Begins(s, r) && r.newUserId !in s.users
    ensures var (t, outcome) := Delete(s, r);
            && |t.trashbins| == |s.trashbins| + 1 && t.trashbins[..|s.trashbins|] == s.trashbins
            && HoldsUserAndAccount(s, r.userId, t.trashbins[|s.trashbins|])
            && r.userId in t.users
            && (if r.fault == AtOverwriting then t.users[r.userId] == s.users[r.userId]
                else IsTombstone(t.users[r.userId], r.uid, s.users[r.userId].schoolId))
            && (if r.fault == AtOverwriting || r.fault == AtAccount then
                  t.users.Keys == s.users.Keys && t.accounts == s.accounts && t.pins == s.pins && t.schools == s.schools && outcome == Failed(r.fault)
                else
                  && AccountIsGone(s.accounts, t.accounts, r.userId)
                  && forall pin :: multiset(t.pins)[pin] ==
                       if IsDeletedPin(s.users[r.userId], r.pinFailures, pin) then 0 else multiset(s.pins)[pin])
  {
    hide Replaced, WithTombstone, NewBin, PinsLeft, WithoutFirst, Tombstone, IsDeletedPin, HoldsUserAndAccount, AccountIsGone, IsTombstone;
    var user := s.users[r.userId];
    NewBinHolds(s, r);
    WithoutFirstIsGone(s.accounts, r.userId);
    TombstoneIs(r.uid, user.schoolId);
    forall pin ensures multiset(PinsLeft(s.pins, user, r.pinFailures))[pin] ==
                       if IsDeletedPin(user, r.pinFailures, pin) then 0 else multiset(s.pins)[pin]
    {
      PinsLeftAre(s.pins, user, r.pinFailures, pin);
    }
    ReplacedLeaves(s, r);
    TombstonePartLeavesTheRest(Replaced(s, r).0, user.schoolId, r);
    TombstonePartKeepsPins(Replaced(s, r).0, user.schoolId, r);
  }

  lemma TombstoneIs(uid: string, schoolId: Id)
    ensures IsTombstone(Tombstone(uid, schoolId), uid, schoolId)
  {
  }

  lemma TombstonePartKeepsPins(s: Store, schoolId: Id, r: Request)
    ensures WithTombstone(s, schoolId, r).0.pins == s.pins
  {
    hide SchoolTombstoneUser;
  }

  /** The store before the tombstone user is looked up. */
  lemma ReplacedLeaves(s: Store, r: Request)
    requires Begins(s, r)
    ensures var (t, found, outcome) := Replaced(s, r);
            var user := s.users[r.userId];
            && t.trashbins == s.trashbins + [NewBin(s, r)] && t.schools == s.schools
            && t.users == (if r.fault == AtOverwriting then s.users else s.users[r.userId := Tombstone(r.uid, user.schoolId)])
            && (if r.fault == AtOverwriting || r.fault == AtAccount then
                  found.None? && outcome == Failed(r.fault) && t.accounts == s.accounts && t.pins == s.pins
                else
                  && found == Some(user) && t.accounts == WithoutFirst(s.accounts, r.userId)
                  && t.pins == PinsLeft(s.pins, user, r.pinFailures))
  {
    hide NewBin, PinsLeft, WithoutFirst, Tombstone;
  }

  /** The tombstone user of the school: found, not to be had, or made, and then set if the caller may and can. */
  lemma TombstoneIsFoundOrMade(s: Store, r: Request)
    requires Begins(s, r) && r.newUserId !in s.users && r.fault != AtOverwriting && r.fault != AtAccount
    ensures var (t, outcome) := Delete(s, r);
            var schoolId := s.users[r.userId].schoolId;
            if r.fault == AtSchool || schoolId !in s.schools || s.schools[schoolId].Some? || s.tombstoneSchool.None? || r.fault == AtMaking then
              && t.users.Keys == s.users.Keys && t.schools == s.schools && t.tombstones == s.tombstones
              && outcome == (if r.fault == AtSchool then Failed(AtSchool)
                             else if schoolId !in s.schools then SchoolMissing
                             else if s.schools[schoolId].Some? then Deleted(TombstoneId(s.schools[schoolId].value))
                             else if s.tombstoneSchool.None? then Deleted(NoTombstone)
                             else Failed(AtMaking))
            else
              && t.users.Keys == s.users.Keys + {r.newUserId} && t.tombstones == s.tombstones + [schoolId]
              && IsSchoolTombstone(t.users[r.newUserId], schoolId, s.tombstoneSchool.value)
              && if !(r.caller.schoolId == schoolId || r.caller.superhero) then t.schools == s.schools && outcome == Forbidden
                 else if r.fault == AtSetting then t.schools == s.schools && outcome == Failed(AtSetting)
                 else
                   && t.schools == s.schools[schoolId := Some(r.newUserId)]
                   && outcome == Deleted(TombstoneUser(r.newUserId, t.users[r.newUserId]))
  {
    hide NewBin, PinsLeft, WithoutFirst, Tombstone;
    assert Replaced(s, r).1 == Some(s.users[r.userId]);
    assert Replaced(s, r).0.users == s.users[r.userId := Tombstone(r.uid, s.users[r.userId].schoolId)];
    assert Replaced(s, r).0.users.Keys == s.users.Keys;
  }
}
