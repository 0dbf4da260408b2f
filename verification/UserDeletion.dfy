/** Deleting a user: what leaves the live collections is kept in a trashbin. */
module UserDeletion {
  import opened Wrappers
  import opened Sequences

  type Id = string

  datatype User = User(firstName: string, lastName: string, email: string, schoolId: Id, parentEmails: seq<string>, deleted: bool)

  datatype Account = Account(userId: Id, username: string)

  datatype Entry =
    | UserData(user: User)
    | AccountData(account: Option<Account>)
    | Related(scope: string, data: string)
    | Error(facade: string, deleteFn: string, error: string)

  /** Trashbins are listed in the order of their creation. */
  datatype Trashbin = Trashbin(userId: Id, data: seq<Entry>)

  /** `tombstones` lists, for every tombstone user made, the school it was made for. */
  datatype Store = Store(
    users: map<Id, User>, accounts: seq<Account>, trashbins: seq<Trashbin>, pins: seq<string>,
    schools: map<Id, Option<Id>>, tombstoneSchool: Option<Id>, tombstones: seq<Id>)

  /**
   The awaited step that is rejected, if any; nothing after it runs.  The removal of the account stands for everything
   between the overwriting of the user and its end, such as reading the overwritten user back.
   */
  datatype Fault = NoFault | AtReading | AtTrashbin | AtOverwriting | AtAccount | AtSchool | AtMaking | AtSetting

  /** Who asks for the deletion. */
  datatype Caller = Caller(schoolId: Id, superhero: bool)

  /** One call: what the environment supplies, the step that fails, and the emails whose pins cannot be deleted. */
  datatype Request = Request(userId: Id, uid: string, newUserId: Id, caller: Caller, fault: Fault, pinFailures: set<string>)

  /** The first deletion at a school hands on the whole user, every later one only its id. */
  datatype TombstoneRef = NoTombstone | TombstoneId(id: Id) | TombstoneUser(userId: Id, user: User)

  /** Only a deletion that ends well goes on to the related data. */
  datatype Outcome = NotFound | AlreadyDeleted | SchoolMissing | Forbidden | Failed(at: Fault) | Deleted(tombstone: TombstoneRef)

  /** The permission to set the tombstone user of a school. */
  predicate Grants(c: Caller, schoolId: Id) {
    c.schoolId == schoolId || c.superhero
  }

  function Tombstone(uid: string, schoolId: Id): User {
    User("DELETED", "USER", uid + "@deleted", schoolId, [], true)
  }

  function SchoolTombstoneUser(schoolId: Id, tombstoneSchool: Id): User {
    User("Gelöschter", "Benutzer", "tombstone-" + schoolId + "@hpi-schul-cloud.de", tombstoneSchool, [], false)
  }

  function AccountTest(userId: Id): Account -> bool {
    (a: Account) => a.userId == userId
  }

  /** `findOneAndRemove` takes the first match only. */
  function WithoutFirst(accounts: seq<Account>, userId: Id): seq<Account> {
    if accounts == [] then []
    else if accounts[0].userId == userId then accounts[1..]
    else [accounts[0]] + WithoutFirst(accounts[1..], userId)
  }

  function EmailTest(emails: seq<string>): string -> bool {
    (pin: string) => pin !in emails
  }

  function Working(failures: set<string>): string -> bool {
    (email: string) => email !in failures
  }

  /** The pins of the parents are deleted side by side, once those of the user are gone. */
  function PinsLeft(pins: seq<string>, user: User, failures: set<string>): seq<string> {
    if user.email in failures then pins
    else Filter(EmailTest([user.email] + Filter(Working(failures), user.parentEmails)), pins)
  }

  /** The trashbin a deletion makes. */
  function NewBin(s: Store, r: Request): Trashbin
    requires r.userId in s.users
  {
    Trashbin(r.userId, [UserData(s.users[r.userId]), AccountData(Find(AccountTest(r.userId), s.accounts))])
  }

  /** Everything up to the deletion of the pins; None when an error is thrown before it. */
  function Replaced(s: Store, r: Request): (Store, Option<User>, Outcome) {
    if r.fault == AtReading then (s, None, Failed(AtReading))
    else if r.userId !in s.users then (s, None, NotFound)
    else if s.users[r.userId].deleted then (s, None, AlreadyDeleted)
    else if r.fault == AtTrashbin then (s, None, Failed(AtTrashbin))
    else
      var user := s.users[r.userId];
      var s1 := s.(trashbins := s.trashbins + [NewBin(s, r)]);
      if r.fault == AtOverwriting then (s1, None, Failed(AtOverwriting))
      else
        var s2 := s1.(users := s.users[r.userId := Tombstone(r.uid, user.schoolId)]);
        if r.fault == AtAccount then (s2, None, Failed(AtAccount))
        else
          (s2.(accounts := WithoutFirst(s.accounts, r.userId), pins := PinsLeft(s.pins, user, r.pinFailures)),
           Some(user), Deleted(NoTombstone))
  }

  /** The tombstone user of a school is looked up or made. */
  function WithTombstone(s: Store, schoolId: Id, r: Request): (Store, Outcome) {
    if r.fault == AtSchool then (s, Failed(AtSchool))
    else if schoolId !in s.schools then (s, SchoolMissing)
    else if s.schools[schoolId].Some? then (s, Deleted(TombstoneId(s.schools[schoolId].value)))
    else if s.tombstoneSchool.None? then (s, Deleted(NoTombstone))
    else if r.fault == AtMaking then (s, Failed(AtMaking))
    else
      var user := SchoolTombstoneUser(schoolId, s.tombstoneSchool.value);
      var s1 := s.(users := s.users[r.newUserId := user], tombstones := s.tombstones + [schoolId]);
      if !Grants(r.caller, schoolId) then (s1, Forbidden)
      else if r.fault == AtSetting then (s1, Failed(AtSetting))
      else (s1.(schools := s.schools[schoolId := Some(r.newUserId)]), Deleted(TombstoneUser(r.newUserId, user)))
  }

  function Delete(s: Store, r: Request): (Store, Outcome) {
    var (s1, user, outcome) := Replaced(s, r);
    if user.None? then (s1, outcome) else WithTombstone(s1, user.value.schoolId, r)
  }

  // ---- the trashbin ----

  /** The newest trashbin of a user. */
  function Newest(trashbins: seq<Trashbin>, userId: Id): (r: Option<nat>)
    ensures r.Some? ==> r.value < |trashbins| && trashbins[r.value].userId == userId
    ensures r.Some? ==> forall i :: r.value < i < |trashbins| ==> trashbins[i].userId != userId
    ensures r.None? ==> forall i :: 0 <= i < |trashbins| ==> trashbins[i].userId != userId
  {
    if trashbins == [] then None
    else
      var last := |trashbins| - 1;
      if trashbins[last].userId == userId then Some(last) else Newest(trashbins[..last], userId)
  }

  function Pushed(trashbins: seq<Trashbin>, userId: Id, entries: seq<Entry>): seq<Trashbin> {
    var i := Newest(trashbins, userId);
    if i.None? then trashbins else trashbins[i.value := trashbins[i.value].(data := trashbins[i.value].data + entries)]
  }

  lemma {:induction false} NewestAfterPush(trashbins: seq<Trashbin>, userId: Id, entries: seq<Entry>)
    ensures Newest(Pushed(trashbins, userId, entries), userId) == Newest(trashbins, userId)
  {
    var after := Pushed(trashbins, userId, entries);
    assert forall i :: 0 <= i < |after| ==> after[i].userId == trashbins[i].userId;
  }

  lemma PushedTwice(trashbins: seq<Trashbin>, userId: Id, a: seq<Entry>, b: seq<Entry>)
    ensures Pushed(Pushed(trashbins, userId, a), userId, b) == Pushed(trashbins, userId, a + b)
  {
    NewestAfterPush(trashbins, userId, a);
    var i := Newest(trashbins, userId);
    if i.Some? {
      assert (trashbins[i.value].data + a) + b == trashbins[i.value].data + (a + b);
    }
  }

  /** A delete function of a facade and what calling it leads to. */
  datatype FnResult = Returned(scope: string, data: string) | Threw(error: string)

  datatype DeleteFn = DeleteFn(name: string, result: FnResult)

  function EntryOf(facade: string, fn: DeleteFn): Entry {
    match fn.result
    case Returned(scope, data) => Related(scope, data)
    case Threw(error) => Error(facade, fn.name, error)
  }

  function EntriesOf(facade: string, fns: seq<DeleteFn>): seq<Entry> {
    Map((fn: DeleteFn) => EntryOf(facade, fn), fns)
  }

  /** One entry per delete function, in order, up to the first facade that is not registered. */
  function EntriesFor(facades: seq<string>, registered: map<string, seq<DeleteFn>>): seq<Entry> {
    if facades == [] || facades[0] !in registered then []
    else EntriesOf(facades[0], registered[facades[0]]) + EntriesFor(facades[1..], registered)
  }

  function FunctionCount(facades: seq<string>, registered: map<string, seq<DeleteFn>>): nat
    requires forall f :: f in facades ==> f in registered
  {
    if facades == [] then 0 else |registered[facades[0]]| + FunctionCount(facades[1..], registered)
  }

  lemma {:induction false} OneEntryPerFunction(facades: seq<string>, registered: map<string, seq<DeleteFn>>)
    requires forall f :: f in facades ==> f in registered
    ensures |EntriesFor(facades, registered)| == FunctionCount(facades, registered)
  {
    if facades != [] {
      OneEntryPerFunction(facades[1..], registered);
    }
  }

  // ---- what is kept of the related data ----

  /** Trashbin `n` is the newest one of the user. */
  predicate IsNewest(trashbins: seq<Trashbin>, userId: Id, n: nat) {
    n < |trashbins| && trashbins[n].userId == userId && forall i :: n < i < |trashbins| ==> trashbins[i].userId != userId
  }

  /** The facades are called up to the first one that is not registered. */
  predicate StopsAt(facades: seq<string>, registered: map<string, seq<DeleteFn>>, k: nat) {
    k <= |facades| && (forall i :: 0 <= i < k ==> facades[i] in registered) && (k < |facades| ==> facades[k] !in registered)
  }

  /** The entry holds exactly what the function has returned, or which one threw what. */
  predicate Tells(entry: Entry, facade: string, fn: DeleteFn) {
    if fn.result.Returned? then entry == Related(fn.result.scope, fn.result.data)
    else entry == Error(facade, fn.name, fn.result.error)
  }

  /** The entry of function `j` of facade `i` stands behind those of all functions before it. */
  predicate TellsAt(entries: seq<Entry>, facades: seq<string>, registered: map<string, seq<DeleteFn>>, i: nat, j: nat)
    requires forall f :: f in facades ==> f in registered
  {
    i < |facades| && j < |registered[facades[i]]| ==>
      var at := FunctionCount(facades[..i], registered) + j;
      at < |entries| && Tells(entries[at], facades[i], registered[facades[i]][j])
  }

  /** One entry per function in the order of the calls. */
  ghost predicate TellOf(entries: seq<Entry>, facades: seq<string>, registered: map<string, seq<DeleteFn>>)
    requires forall f :: f in facades ==> f in registered
  {
    |entries| == FunctionCount(facades, registered) && forall i: nat, j: nat :: TellsAt(entries, facades, registered, i, j)
  }

  /** Trashbin `n` has got the entries at its end, and nothing else has changed. */
  ghost predicate Recorded(
      before: seq<Trashbin>, after: seq<Trashbin>, n: nat, facades: seq<string>, registered: map<string, seq<DeleteFn>>)
    requires n < |before| && forall f :: f in facades ==> f in registered
  {
    && |after| == |before| && (forall i :: 0 <= i < |before| && i != n ==> after[i] == before[i])
    && after[n].userId == before[n].userId && before[n].data <= after[n].data
    && TellOf(after[n].data[|before[n].data|..], facades, registered)
  }

  lemma FirstTells(facade: string, rest: seq<string>, registered: map<string, seq<DeleteFn>>, more: seq<Entry>, j: nat)
    requires facade in registered && forall f :: f in rest ==> f in registered
    ensures TellsAt(EntriesOf(facade, registered[facade]) + more, [facade] + rest, registered, 0, j)
  {
  }

  lemma RestTells(
      facade: string, rest: seq<string>, registered: map<string, seq<DeleteFn>>, first: seq<Entry>, more: seq<Entry>, i: nat, j: nat)
    requires facade in registered && (forall f :: f in rest ==> f in registered) && |first| == |registered[facade]|
    requires TellsAt(more, rest, registered, i, j)
    ensures TellsAt(first + more, [facade] + rest, registered, i + 1, j)
  {
    hide Tells;
    if i < |rest| && j < |registered[rest[i]]| {
      assert ([facade] + rest)[..i + 1][1..] == rest[..i];
      var at := FunctionCount(rest[..i], registered) + j;
      assert FunctionCount(([facade] + rest)[..i + 1], registered) + j == |first| + at;
      assert (first + more)[|first| + at] == more[at];
    }
  }

  lemma {:induction false} EntriesTell(facades: seq<string>, registered: map<string, seq<DeleteFn>>)
    requires forall f :: f in facades ==> f in registered
    ensures TellOf(EntriesFor(facades, registered), facades, registered)
  {
    OneEntryPerFunction(facades, registered);
    if facades != [] {
      var facade, rest := facades[0], facades[1..];
      assert facades == [facade] + rest;
      var first, more := EntriesOf(facade, registered[facade]), EntriesFor(rest, registered);
      EntriesTell(rest, registered);
      hide FunctionCount, TellsAt;
      forall i: nat, j: nat ensures TellsAt(first + more, facades, registered, i, j) {
        if i == 0 {
          FirstTells(facade, rest, registered, more, j);
        } else {
          RestTells(facade, rest, registered, first, more, i - 1, j);
        }
      }
    }
  }

  lemma {:induction false} EntriesStop(facades: seq<string>, registered: map<string, seq<DeleteFn>>, k: nat)
    requires StopsAt(facades, registered, k)
    ensures EntriesFor(facades, registered) == EntriesFor(facades[..k], registered)
  {
    if k > 0 {
      EntriesStop(facades[1..], registered, k - 1);
      assert facades[1..][..k - 1] == facades[..k][1..];
    }
  }

  lemma {:induction false} RelatedDataAreRecorded(
      trashbins: seq<Trashbin>, userId: Id, n: nat, facades: seq<string>, registered: map<string, seq<DeleteFn>>, k: nat)
    requires IsNewest(trashbins, userId, n) && StopsAt(facades, registered, k)
    ensures Recorded(trashbins, Pushed(trashbins, userId, EntriesFor(facades, registered)), n, facades[..k], registered)
  {
    var called := facades[..k];
    EntriesStop(facades, registered, k);
    EntriesTell(called, registered);
    hide EntriesFor, TellOf;
    var after := Pushed(trashbins, userId, EntriesFor(facades, registered));
    assert Newest(trashbins, userId) == Some(n);
    assert after[n].data[|trashbins[n].data|..] == EntriesFor(called, registered);
  }

  // ---- the program ----

  class Deletion {
    var store: Store

    constructor (store: Store)
      ensures this.store == store
    {
      this.store := store;
    }

    method CreateUserTrashbin(userId: Id, data: seq<Entry>)
      modifies this
      ensures store == old(store).(trashbins := old(store).trashbins + [Trashbin(userId, data)])
    {
      store := store.(trashbins := store.trashbins + [Trashbin(userId, data)]);
    }

    method UpdateTrashbinByUserId(userId: Id, data: Entry)
      modifies this
      ensures store == old(store).(trashbins := Pushed(old(store).trashbins, userId, [data]))
    {
      store := store.(trashbins := Pushed(store.trashbins, userId, [data]));
    }

    /** Two writes: the second may fail when the first has been made. */
    method ReplaceUserWithTombstone(userId: Id, schoolId: Id, uid: string, fault: Fault) returns (ok: bool)
      modifies this
      ensures ok <==> fault != AtOverwriting && fault != AtAccount
      ensures store == old(store).(
                         users := if fault == AtOverwriting then old(store).users else old(store).users[userId := Tombstone(uid, schoolId)],
                         accounts := if ok then WithoutFirst(old(store).accounts, userId) else old(store).accounts)
    {
      if fault == AtOverwriting {
        return false;
      }
      store := store.(users := store.users[userId := Tombstone(uid, schoolId)]);
      if fault == AtAccount {
        return false;
      }
      store := store.(accounts := WithoutFirst(store.accounts, userId));
      return true;
    }

    /** A failure is logged and goes no further. */
    method DeleteRegistrationPins(user: User, failures: set<string>)
      modifies this
      ensures store == old(store).(pins := PinsLeft(old(store).pins, user, failures))
    {
      if user.email in failures {
        return;
      }
      ghost var before := store.pins;
      store := store.(pins := Filter(EmailTest([user.email]), store.pins));
      assert user.parentEmails[..0] == [];
      PinsLeftAlone(before, user.(parentEmails := []), failures);
      for i := 0 to |user.parentEmails|
        invariant store == old(store).(pins := PinsLeft(before, user.(parentEmails := user.parentEmails[..i]), failures))
      {
        PinsLeftStep(before, user, failures, i);
        if user.parentEmails[i] !in failures {
          store := store.(pins := Filter(EmailTest([user.parentEmails[i]]), store.pins));
        }
      }
      assert user.parentEmails[..|user.parentEmails|] == user.parentEmails;
    }

    method GetOrCreateTombstoneUserId(schoolId: Id, r: Request) returns (outcome: Outcome)
      modifies this
      ensures (store, outcome) == WithTombstone(old(store), schoolId, r)
    {
      if r.fault == AtSchool {
        return Failed(AtSchool);
      }
      if schoolId !in store.schools {
        return SchoolMissing;
      }
      if store.schools[schoolId].Some? {
        return Deleted(TombstoneId(store.schools[schoolId].value));
      }
      if store.tombstoneSchool.None? {
        return Deleted(NoTombstone);
      }
      if r.fault == AtMaking {
        return Failed(AtMaking);
      }
      var user := SchoolTombstoneUser(schoolId, store.tombstoneSchool.value);
      store := store.(users := store.users[r.newUserId := user], tombstones := store.tombstones + [schoolId]);
      if !Grants(r.caller, schoolId) {
        return Forbidden;
      }
      if r.fault == AtSetting {
        return Failed(AtSetting);
      }
      store := store.(schools := store.schools[schoolId := Some(r.newUserId)]);
      return Deleted(TombstoneUser(r.newUserId, user));
    }

    method DeleteUser(r: Request) returns (outcome: Outcome)
      modifies this
      ensures (store, outcome) == Delete(old(store), r)
    {
      if r.fault == AtReading {
        return Failed(AtReading);
      }
      if r.userId !in store.users {
        return NotFound;
      }
      var user := store.users[r.userId];
      if user.deleted {
        return AlreadyDeleted;
      }
      var account := Find(AccountTest(r.userId), store.accounts);
      if r.fault == AtTrashbin {
        return Failed(AtTrashbin);
      }
      CreateUserTrashbin(r.userId, [UserData(user), AccountData(account)]);
      var ok := ReplaceUserWithTombstone(r.userId, user.schoolId, r.uid, r.fault);
      if !ok {
        return Failed(r.fault);
      }
      DeleteRegistrationPins(user, r.pinFailures);
      outcome := GetOrCreateTombstoneUserId(user.schoolId, r);
    }

    method ProcessFacade(userId: Id, facade: string, fns: seq<DeleteFn>)
      modifies this
      ensures store == old(store).(trashbins := Pushed(old(store).trashbins, userId, EntriesOf(facade, fns)))
    {
      hide Pushed;
      PushedNothing(store.trashbins, userId);
      ghost var entries := EntriesOf(facade, fns);
      for j := 0 to |fns|
        invariant store == old(store).(trashbins := Pushed(old(store).trashbins, userId, entries[..j]))
      {
        var entry := match fns[j].result
          case Returned(scope, data) => Related(scope, data)
          case Threw(error) => Error(facade, fns[j].name, error);
        UpdateTrashbinByUserId(userId, entry);
        PushedTwice(old(store).trashbins, userId, entries[..j], [entry]);
        assert entries[..j] + [entry] == entries[..j + 1];
      }
      assert entries[..|fns|] == entries;
    }

    /** Every delete function leaves exactly one entry in the newest trashbin, whether it returns or throws. */
    method DeleteUserRelatedData(userId: Id, facades: seq<string>, registered: map<string, seq<DeleteFn>>) returns (completed: bool)
      modifies this
      ensures store == old(store).(trashbins := Pushed(old(store).trashbins, userId, EntriesFor(facades, registered)))
      ensures completed <==> forall f :: f in facades ==> f in registered
      ensures forall n: nat, k: nat :: IsNewest(old(store).trashbins, userId, n) && StopsAt(facades, registered, k) ==>
                             Recorded(old(store).trashbins, store.trashbins, n, facades[..k], registered)
    {
      hide Pushed, EntriesOf, TellOf;
      forall n: nat, k: nat | IsNewest(store.trashbins, userId, n) && StopsAt(facades, registered, k)
        ensures Recorded(store.trashbins, Pushed(store.trashbins, userId, EntriesFor(facades, registered)), n, facades[..k], registered)
      {
        RelatedDataAreRecorded(store.trashbins, userId, n, facades, registered, k);
      }
      PushedNothing(store.trashbins, userId);
      ghost var entries: seq<Entry> := [];
      for i := 0 to |facades|
        invariant forall k :: 0 <= k < i ==> facades[k] in registered
        invariant entries + EntriesFor(facades[i..], registered) == EntriesFor(facades, registered)
        invariant store == old(store).(trashbins := Pushed(old(store).trashbins, userId, entries))
      {
        if facades[i] !in registered {
          assert EntriesFor(facades[i..], registered) == [] && entries + [] == entries;
          return false;
        }
        ghost var own, rest := EntriesOf(facades[i], registered[facades[i]]), EntriesFor(facades[i + 1..], registered);
        ProcessFacade(userId, facades[i], registered[facades[i]]);
        PushedTwice(old(store).trashbins, userId, entries, own);
        assert facades[i..][0] == facades[i] && facades[i..][1..] == facades[i + 1..];
        assert entries + (own + rest) == (entries + own) + rest;
        entries := entries + own;
      }
      assert facades[|facades|..] == [] && entries + [] == entries;
      return true;
    }
  }

  lemma PushedNothing(trashbins: seq<Trashbin>, userId: Id)
    ensures Pushed(trashbins, userId, []) == trashbins
  {
    var i := Newest(trashbins, userId);
    if i.Some? {
      assert trashbins[i.value].data + [] == trashbins[i.value].data;
    }
  }

  lemma {:induction false} PinsLeftAlone(pins: seq<string>, user: User, failures: set<string>)
    requires user.email !in failures && user.parentEmails == []
    ensures PinsLeft(pins, user, failures) == Filter(EmailTest([user.email]), pins)
  {
    assert [user.email] + Filter(Working(failures), []) == [user.email];
  }

  lemma PinsLeftStep(pins: seq<string>, user: User, failures: set<string>, i: nat)
    requires i < |user.parentEmails| && user.email !in failures
    ensures var some, more := user.(parentEmails := user.parentEmails[..i]), user.(parentEmails := user.parentEmails[..i + 1]);
            PinsLeft(pins, more, failures) ==
              if user.parentEmails[i] in failures then PinsLeft(pins, some, failures)
              else Filter(EmailTest([user.parentEmails[i]]), PinsLeft(pins, some, failures))
  {
    var emails := user.parentEmails;
    var before, after := Filter(Working(failures), emails[..i]), Filter(Working(failures), emails[..i + 1]);
    assert emails[..i + 1] == emails[..i] + [emails[i]];
    FilterAppend(Working(failures), emails[..i], [emails[i]]);
    if emails[i] !in failures {
      assert after == before + [emails[i]];
      FilterFilter(EmailTest([user.email] + before), EmailTest([emails[i]]), EmailTest([user.email] + after), pins);
    } else {
      assert after == before + [] == before;
    }
  }

  // ---- conservation ----

  /** The deletion gets as far as writing. */
  predicate Starts(s: Store, r: Request) {
    r.fault != AtReading && r.userId in s.users && !s.users[r.userId].deleted
  }

  /** The part of a deletion that may make a tombstone user leaves everything else alone. */
  lemma TombstonePartLeavesTheRest(s: Store, schoolId: Id, r: Request)
    ensures var t := WithTombstone(s, schoolId, r).0;
            && t.trashbins == s.trashbins && t.accounts == s.accounts
            && (forall u :: u in s.users && u != r.newUserId ==> u in t.users && t.users[u] == s.users[u])
  {
  }

  /**
   Whichever step fails: before the trashbin nothing has changed; then the user is in the trashbin, and also live
   exactly if the overwriting failed; and so is the account exactly if that or its removal failed.
   */
  lemma DeletionConservesUserAndAccount(s: Store, r: Request)
    requires r.newUserId !in s.users
    ensures var t := Delete(s, r).0;
            && (forall u :: u in s.users && u != r.userId ==> u in t.users && t.users[u] == s.users[u])
            && (if !Starts(s, r) || r.fault == AtTrashbin then t == s
                else
                  var account := NewBin(s, r).data[1].account;
                  && t.trashbins == s.trashbins + [NewBin(s, r)]
                  && (if r.fault == AtOverwriting then t.users == s.users
                      else r.userId in t.users && t.users[r.userId] == Tombstone(r.uid, s.users[r.userId].schoolId))
                  && (if r.fault == AtOverwriting || r.fault == AtAccount then t.accounts == s.accounts
                      else
                        && t.accounts == WithoutFirst(s.accounts, r.userId)
                        && multiset(s.accounts) == multiset(t.accounts) + if account.Some? then multiset{account.value} else multiset{}))
  {
    var (s1, user, outcome) := Replaced(s, r);
    if user.Some? {
      TombstonePartLeavesTheRest(s1, user.value.schoolId, r);
      RemovedAccountIsTheFirst(s.accounts, r.userId);
    }
    hide WithTombstone, WithoutFirst, PinsLeft, Find;
  }

  lemma {:induction false} RemovedAccountIsTheFirst(accounts: seq<Account>, userId: Id)
    ensures var found := Find(AccountTest(userId), accounts);
            multiset(accounts) == multiset(WithoutFirst(accounts, userId)) + if found.Some? then multiset{found.value} else multiset{}
  {
    if accounts != [] {
      assert accounts == [accounts[0]] + accounts[1..];
      RemovedAccountIsTheFirst(accounts[1..], userId);
    }
  }

  // ---- every sequence of deletions ----

  function DeleteAll(s: Store, requests: seq<Request>): (r: (Store, seq<Outcome>))
    ensures |r.1| == |requests|
    decreases |requests|
  {
    if requests == [] then (s, [])
    else
      var (s1, first) := Delete(s, requests[0]);
      var (t, rest) := DeleteAll(s1, requests[1..]);
      (t, [first] + rest)
  }

  /** The database gives every new user a new id. */
  ghost predicate FreshIds(s: Store, requests: seq<Request>)
    decreases |requests|
  {
    requests != [] ==> requests[0].newUserId !in s.users && FreshIds(Delete(s, requests[0]).0, requests[1..])
  }

  function BinTest(userId: Id): Trashbin -> bool {
    (b: Trashbin) => b.userId == userId
  }

  function BinsOf(s: Store, userId: Id): nat {
    |Filter(BinTest(userId), s.trashbins)|
  }

  function AccountsOf(s: Store, userId: Id): seq<Account> {
    Filter(AccountTest(userId), s.accounts)
  }

  lemma {:induction false} OthersKeepTheirAccounts(accounts: seq<Account>, userId: Id, other: Id)
    requires other != userId
    ensures Filter(AccountTest(other), WithoutFirst(accounts, userId)) == Filter(AccountTest(other), accounts)
  {
    if accounts != [] && accounts[0].userId != userId {
      OthersKeepTheirAccounts(accounts[1..], userId, other);
      assert WithoutFirst(accounts, userId)[1..] == WithoutFirst(accounts[1..], userId);
    }
  }

  /** The user is live afterwards if it was before. */
  predicate KeepsUser(r: Request) {
    r.fault == AtReading || r.fault == AtTrashbin || r.fault == AtOverwriting
  }

  predicate MakesBin(r: Request) {
    r.fault != AtReading && r.fault != AtTrashbin
  }

  lemma StepCountsBins(s: Store, r: Request, userId: Id)
    requires r.newUserId !in s.users && userId in s.users
    ensures var t := Delete(s, r).0;
            var live := r.userId == userId && !s.users[userId].deleted;
            && userId in t.users
            && t.users[userId].deleted == (s.users[userId].deleted || (live && !KeepsUser(r)))
            && BinsOf(t, userId) == BinsOf(s, userId) + if live && MakesBin(r) then 1 else 0
  {
    DeletionConservesUserAndAccount(s, r);
    hide Delete;
    if Starts(s, r) {
      FilterAppend(BinTest(userId), s.trashbins, [NewBin(s, r)]);
    }
  }

  /** The trashbins that requests make for a live user: all that reach the trashbin, until one overwrites the user. */
  function BinsMade(requests: seq<Request>, userId: Id): nat {
    if requests == [] then 0
    else
      var own := requests[0].userId == userId;
      (if own && MakesBin(requests[0]) then 1 else 0) +
      (if own && !KeepsUser(requests[0]) then 0 else BinsMade(requests[1..], userId))
  }

  /** Some request overwrites the user. */
  predicate Overwrites(requests: seq<Request>, userId: Id) {
    exists i :: 0 <= i < |requests| && requests[i].userId == userId && !KeepsUser(requests[i])
  }

  /** Over any sequence of deletions, the trashbins of a user and whether it is deleted follow from the requests alone. */
  lemma {:induction false} TrashbinsAreCounted(s: Store, requests: seq<Request>, userId: Id)
    requires userId in s.users && FreshIds(s, requests)
    ensures var t := DeleteAll(s, requests).0;
            && userId in t.users
            && (t.users[userId].deleted <==> s.users[userId].deleted || Overwrites(requests, userId))
            && BinsOf(t, userId) == BinsOf(s, userId) + if s.users[userId].deleted then 0 else BinsMade(requests, userId)
    decreases |requests|
  {
    hide Delete, BinsOf;
    if requests != [] {
      StepCountsBins(s, requests[0], userId);
      TrashbinsAreCounted(Delete(s, requests[0]).0, requests[1..], userId);
      assert Overwrites(requests, userId) <==>
             (requests[0].userId == userId && !KeepsUser(requests[0])) || Overwrites(requests[1..], userId) by {
        OverwritesFirstOrLater(requests, userId);
      }
    }
  }

  lemma OverwritesFirstOrLater(requests: seq<Request>, userId: Id)
    requires requests != []
    ensures Overwrites(requests, userId) <==>
            (requests[0].userId == userId && !KeepsUser(requests[0])) || Overwrites(requests[1..], userId)
  {
  }

  /** A request for a user that is still live fails at overwriting it, and a later one reaches the trashbin again. */
  predicate IsRetried(requests: seq<Request>, userId: Id, i: nat, j: nat) {
    && i < j < |requests| && requests[i].userId == userId && requests[j].userId == userId
    && requests[i].fault == AtOverwriting && MakesBin(requests[j])
    && forall k :: 0 <= k < i && requests[k].userId == userId ==> KeepsUser(requests[k])
  }

  lemma {:induction false} FirstBinMade(requests: seq<Request>, userId: Id) returns (j: nat)
    requires BinsMade(requests, userId) > 0
    ensures j < |requests| && requests[j].userId == userId && MakesBin(requests[j])
  {
    if requests[0].userId == userId && MakesBin(requests[0]) {
      j := 0;
    } else {
      j := FirstBinMade(requests[1..], userId);
      j := j + 1;
    }
  }

  lemma {:induction false} BinIsMade(requests: seq<Request>, userId: Id, j: nat)
    requires j < |requests| && requests[j].userId == userId && MakesBin(requests[j])
    ensures BinsMade(requests, userId) > 0
  {
    if j > 0 && !(requests[0].userId == userId && MakesBin(requests[0])) {
      BinIsMade(requests[1..], userId, j - 1);
    }
  }

  lemma {:induction false} TwoBinsNeedARetry(requests: seq<Request>, userId: Id) returns (i: nat, j: nat)
    requires BinsMade(requests, userId) >= 2
    ensures IsRetried(requests, userId, i, j)
  {
    if requests[0].userId == userId && MakesBin(requests[0]) {
      i := 0;
      j := FirstBinMade(requests[1..], userId);
      j := j + 1;
    } else {
      i, j := TwoBinsNeedARetry(requests[1..], userId);
      assert forall k :: 0 < k < i + 1 ==> requests[k] == requests[1..][k - 1];
      i, j := i + 1, j + 1;
    }
  }

  lemma {:induction false} RetryMakesTwoBins(requests: seq<Request>, userId: Id, i: nat, j: nat)
    requires IsRetried(requests, userId, i, j)
    ensures BinsMade(requests, userId) >= 2
    decreases i
  {
    if i == 0 {
      BinIsMade(requests[1..], userId, j - 1);
    } else {
      assert forall k :: 0 <= k < i - 1 ==> requests[1..][k] == requests[k + 1];
      RetryMakesTwoBins(requests[1..], userId, i - 1, j - 1);
    }
  }

  /** A user who had none never gets a second trashbin, exactly when no deletion that failed at overwriting is retried. */
  lemma {:induction false} AtMostOneTrashbinIff(s: Store, requests: seq<Request>, userId: Id)
    requires userId in s.users && !s.users[userId].deleted && FreshIds(s, requests) && BinsOf(s, userId) == 0
    ensures BinsOf(DeleteAll(s, requests).0, userId) <= 1 <==> !exists i: nat, j: nat :: IsRetried(requests, userId, i, j)
  {
    TrashbinsAreCounted(s, requests, userId);
    hide DeleteAll, BinsOf, BinsMade, IsRetried;
    if BinsMade(requests, userId) >= 2 {
      var i, j := TwoBinsNeedARetry(requests, userId);
    }
    if i: nat, j: nat :| IsRetried(requests, userId, i, j) {
      RetryMakesTwoBins(requests, userId, i, j);
    }
  }

  /** An example: a deletion that fails at overwriting the user is asked for again. */
  lemma {:induction false} RetryMakesASecondTrashbin(userId: Id, a: Request, b: Request)
    requires a.userId == userId && b.userId == userId && a.fault == AtOverwriting && b.fault == NoFault
    ensures IsRetried([a, b], userId, 0, 1) && BinsMade([a, b], userId) == 2
  {
  }

  function Refusal(r: Request): Outcome {
    if r.fault == AtReading then Failed(AtReading) else AlreadyDeleted
  }

  lemma DeletedStep(s: Store, r: Request, userId: Id)
    requires userId in s.users && s.users[userId].deleted && r.newUserId !in s.users
    ensures var (t, outcome) := Delete(s, r);
            && userId in t.users && t.users[userId] == s.users[userId] && AccountsOf(t, userId) == AccountsOf(s, userId)
            && (r.userId == userId ==> outcome == Refusal(r))
  {
    DeletionConservesUserAndAccount(s, r);
    if r.userId != userId {
      OthersKeepTheirAccounts(s.accounts, r.userId, userId);
    }
    hide WithTombstone, WithoutFirst, PinsLeft, Filter;
  }

  /**
   Whoever is deleted stays deleted: further requests for the user end before anything is written, so the related
   data are not removed any more, and an account that is still there stays.
   */
  lemma {:induction false} DeletedForGood(s: Store, requests: seq<Request>, userId: Id)
    requires userId in s.users && s.users[userId].deleted && FreshIds(s, requests)
    ensures var (t, outcomes) := DeleteAll(s, requests);
            && userId in t.users && t.users[userId] == s.users[userId] && AccountsOf(t, userId) == AccountsOf(s, userId)
            && forall i :: 0 <= i < |requests| && requests[i].userId == userId ==> outcomes[i] == Refusal(requests[i])
    decreases |requests|
  {
    if requests != [] {
      hide Delete;
      var (s1, first) := Delete(s, requests[0]);
      DeletedStep(s, requests[0], userId);
      DeletedForGood(s1, requests[1..], userId);
      var rest := DeleteAll(s1, requests[1..]).1;
      forall i | 0 <= i < |requests| && requests[i].userId == userId ensures ([first] + rest)[i] == Refusal(requests[i]) {
        if i > 0 {
          assert requests[i] == requests[1..][i - 1] && ([first] + rest)[i] == rest[i - 1];
        }
      }
    }
  }

  /** A deletion that fails at removing the account is never finished: the account and the related data stay for ever. */
  lemma {:induction false} HalfDoneIsNeverFinished(s: Store, r: Request, requests: seq<Request>)
    requires Starts(s, r) && r.fault == AtAccount && r.newUserId !in s.users && FreshIds(Delete(s, r).0, requests)
    ensures var (t, outcomes) := DeleteAll(Delete(s, r).0, requests);
            && r.userId in t.users && t.users[r.userId].deleted && AccountsOf(t, r.userId) == AccountsOf(s, r.userId)
            && !Delete(s, r).1.Deleted?
            && forall i :: 0 <= i < |requests| && requests[i].userId == r.userId ==> !outcomes[i].Deleted?
  {
    DeletionConservesUserAndAccount(s, r);
    assert Delete(s, r).1 == Failed(AtAccount);
    hide Delete;
    DeletedForGood(Delete(s, r).0, requests, r.userId);
  }

  // ---- tombstone users ----

  function SchoolTest(schoolId: Id): Id -> bool {
    (x: Id) => x == schoolId
  }

  function TombstonesOf(s: Store, schoolId: Id): nat {
    |Filter(SchoolTest(schoolId), s.tombstones)|
  }

  /** The request makes a tombstone user for the school: it gets that far, and the school has none yet. */
  predicate Reaches(s: Store, r: Request, schoolId: Id) {
    && Starts(s, r) && s.users[r.userId].schoolId == schoolId
    && (r.fault == NoFault || r.fault == AtSetting)
    && schoolId in s.schools && s.schools[schoolId].None? && s.tombstoneSchool.Some?
  }

  predicate CanSet(r: Request, schoolId: Id) {
    r.fault != AtSetting && Grants(r.caller, schoolId)
  }

  /** Setting is forbidden exactly to a caller of another school who is no superhero. */
  lemma ForbiddenIff(s: Store, r: Request)
    ensures Delete(s, r).1 == Forbidden <==>
            Starts(s, r) && var schoolId := s.users[r.userId].schoolId; Reaches(s, r, schoolId) && !Grants(r.caller, schoolId)
  {
  }

  /**
   The whole user is handed on, instead of its id, exactly by a deletion that makes the tombstone user and sets it, so by
   the first that can; whichever later one finds it set hands on the id.
   */
  lemma HandsOnTheUserIff(s: Store, r: Request)
    ensures var (t, outcome) := Delete(s, r);
            && (outcome.Deleted? && outcome.tombstone.TombstoneUser? <==>
                Starts(s, r) && var schoolId := s.users[r.userId].schoolId; Reaches(s, r, schoolId) && CanSet(r, schoolId))
            && (outcome.Deleted? && outcome.tombstone.TombstoneUser? ==>
                var schoolId := s.users[r.userId].schoolId;
                schoolId in t.schools && t.schools[schoolId] == Some(outcome.tombstone.userId))
            && (outcome.Deleted? && outcome.tombstone.TombstoneId? ==>
                var schoolId := s.users[r.userId].schoolId;
                schoolId in s.schools && s.schools[schoolId] == Some(outcome.tombstone.id))
  {
    hide PinsLeft, WithoutFirst, SchoolTombstoneUser, Tombstone;
  }

  lemma TombstonePartMakes(s: Store, own: Id, r: Request, schoolId: Id)
    ensures var t := WithTombstone(s, own, r).0;
            var makes := own == schoolId && r.fault != AtSchool && r.fault != AtMaking &&
                         schoolId in s.schools && s.schools[schoolId].None? && s.tombstoneSchool.Some?;
            && TombstonesOf(t, schoolId) == TombstonesOf(s, schoolId) + (if makes then 1 else 0)
            && t.schools.Keys == s.schools.Keys && t.tombstoneSchool == s.tombstoneSchool
            && (schoolId in s.schools ==> (t.schools[schoolId].Some? <==> s.schools[schoolId].Some? || (makes && CanSet(r, schoolId))))
  {
    FilterAppend(SchoolTest(schoolId), s.tombstones, [own]);
    assert |Filter(SchoolTest(schoolId), [own])| == if own == schoolId then 1 else 0;
    hide Filter, SchoolTombstoneUser;
  }

  lemma StepCountsTombstones(s: Store, r: Request, schoolId: Id)
    ensures var t := Delete(s, r).0;
            && TombstonesOf(t, schoolId) == TombstonesOf(s, schoolId) + (if Reaches(s, r, schoolId) then 1 else 0)
            && t.schools.Keys == s.schools.Keys && t.tombstoneSchool == s.tombstoneSchool
            && (schoolId in s.schools ==>
                  (t.schools[schoolId].Some? <==> s.schools[schoolId].Some? || (Reaches(s, r, schoolId) && CanSet(r, schoolId))))
  {
    var (s1, user, outcome) := Replaced(s, r);
    assert s1.tombstones == s.tombstones && s1.schools == s.schools && s1.tombstoneSchool == s.tombstoneSchool;
    if user.Some? {
      assert user.value == s.users[r.userId];
      TombstonePartMakes(s1, user.value.schoolId, r, schoolId);
    }
    hide WithTombstone, PinsLeft, WithoutFirst;
  }

  /** The store a request of a sequence meets. */
  function Before(s: Store, requests: seq<Request>, i: nat): Store
    requires i <= |requests|
    decreases i
  {
    if i == 0 then s else Before(Delete(s, requests[0]).0, requests[1..], i - 1)
  }

  function Reached(s: Store, requests: seq<Request>, schoolId: Id): nat
    decreases |requests|
  {
    if requests == [] then 0
    else (if Reaches(s, requests[0], schoolId) then 1 else 0) + Reached(Delete(s, requests[0]).0, requests[1..], schoolId)
  }

  /** Over any sequence of deletions, a school gets one tombstone user for each request that reaches the making of one. */
  lemma {:induction false} TombstonesAreCounted(s: Store, requests: seq<Request>, schoolId: Id)
    ensures TombstonesOf(DeleteAll(s, requests).0, schoolId) == TombstonesOf(s, schoolId) + Reached(s, requests, schoolId)
    decreases |requests|
  {
    hide Delete, TombstonesOf, Reaches;
    if requests != [] {
      StepCountsTombstones(s, requests[0], schoolId);
      TombstonesAreCounted(Delete(s, requests[0]).0, requests[1..], schoolId);
    }
  }

  /** One request makes a tombstone user that is not set, and a later one makes another. */
  ghost predicate IsRepeated(s: Store, requests: seq<Request>, schoolId: Id, i: nat, j: nat) {
    && i < j < |requests| && Reaches(Before(s, requests, i), requests[i], schoolId) && !CanSet(requests[i], schoolId)
    && Reaches(Before(s, requests, j), requests[j], schoolId)
  }

  lemma {:induction false} FirstReached(s: Store, requests: seq<Request>, schoolId: Id) returns (j: nat)
    requires Reached(s, requests, schoolId) > 0
    ensures j < |requests| && Reaches(Before(s, requests, j), requests[j], schoolId)
    decreases |requests|
  {
    hide Reaches, Delete;
    if Reaches(s, requests[0], schoolId) {
      j := 0;
    } else {
      j := FirstReached(Delete(s, requests[0]).0, requests[1..], schoolId);
      j := j + 1;
    }
  }

  lemma {:induction false} ReachedCounts(s: Store, requests: seq<Request>, schoolId: Id, j: nat)
    requires j < |requests| && Reaches(Before(s, requests, j), requests[j], schoolId)
    ensures Reached(s, requests, schoolId) > 0
    decreases j
  {
    hide Reaches, Delete;
    if j > 0 {
      ReachedCounts(Delete(s, requests[0]).0, requests[1..], schoolId, j - 1);
    }
  }

  /** Once the tombstone user is set, none is made any more. */
  lemma {:induction false} NoneReachedOnceSet(s: Store, requests: seq<Request>, schoolId: Id)
    requires schoolId in s.schools && s.schools[schoolId].Some?
    ensures Reached(s, requests, schoolId) == 0
    decreases |requests|
  {
    if requests != [] {
      StepCountsTombstones(s, requests[0], schoolId);
      hide Delete, TombstonesOf;
      NoneReachedOnceSet(Delete(s, requests[0]).0, requests[1..], schoolId);
    }
  }

  lemma {:induction false} TwoReachedAreRepeated(s: Store, requests: seq<Request>, schoolId: Id) returns (i: nat, j: nat)
    requires Reached(s, requests, schoolId) >= 2
    ensures IsRepeated(s, requests, schoolId, i, j)
    decreases |requests|
  {
    var next := Delete(s, requests[0]).0;
    StepCountsTombstones(s, requests[0], schoolId);
    assert Reaches(s, requests[0], schoolId) ==> schoolId in s.schools;
    hide Delete, TombstonesOf, Reaches, CanSet;
    if Reaches(s, requests[0], schoolId) {
      if CanSet(requests[0], schoolId) {
        NoneReachedOnceSet(next, requests[1..], schoolId);
      }
      i := 0;
      j := FirstReached(next, requests[1..], schoolId);
      j := j + 1;
    } else {
      i, j := TwoReachedAreRepeated(next, requests[1..], schoolId);
      i, j := i + 1, j + 1;
    }
  }

  lemma {:induction false} RepeatedMakesTwo(s: Store, requests: seq<Request>, schoolId: Id, i: nat, j: nat)
    requires IsRepeated(s, requests, schoolId, i, j)
    ensures Reached(s, requests, schoolId) >= 2
    decreases i
  {
    hide Delete, Reaches, CanSet;
    var next := Delete(s, requests[0]).0;
    if i == 0 {
      ReachedCounts(next, requests[1..], schoolId, j - 1);
    } else {
      RepeatedMakesTwo(next, requests[1..], schoolId, i - 1, j - 1);
    }
  }

  /**
   A school that had none never gets a second tombstone user, exactly when no request that makes one without being
   able to set it is followed by another that makes one.
   */
  lemma {:induction false} AtMostOneTombstoneIff(s: Store, requests: seq<Request>, schoolId: Id)
    requires TombstonesOf(s, schoolId) == 0
    ensures TombstonesOf(DeleteAll(s, requests).0, schoolId) <= 1 <==>
              !exists i: nat, j: nat :: IsRepeated(s, requests, schoolId, i, j)
  {
    TombstonesAreCounted(s, requests, schoolId);
    hide DeleteAll, TombstonesOf, Reached, IsRepeated;
    if Reached(s, requests, schoolId) >= 2 {
      var i, j := TwoReachedAreRepeated(s, requests, schoolId);
    }
    if i: nat, j: nat :| IsRepeated(s, requests, schoolId, i, j) {
      RepeatedMakesTwo(s, requests, schoolId, i, j);
    }
  }

  /** So one is enough as long as the update of the school works, for callers the service lets through. */
  lemma {:induction false} OneTombstoneIfAllCanSet(s: Store, requests: seq<Request>, schoolId: Id)
    requires TombstonesOf(s, schoolId) == 0 && forall r :: r in requests ==> CanSet(r, schoolId)
    ensures TombstonesOf(DeleteAll(s, requests).0, schoolId) <= 1
  {
    AtMostOneTombstoneIff(s, requests, schoolId);
    hide DeleteAll, TombstonesOf, Reaches, CanSet, Before;
  }

  /** An example: the update of the school fails after the first deletion, and the second one makes another tombstone user. */
  lemma FailedUpdateMakesASecondTombstone(s: Store, a: Request, b: Request)
    requires a.userId in s.users && b.userId in s.users && a.userId != b.userId
    requires !s.users[a.userId].deleted && !s.users[b.userId].deleted
    requires s.users[a.userId].schoolId == s.users[b.userId].schoolId
    requires s.users[a.userId].schoolId in s.schools && s.schools[s.users[a.userId].schoolId].None? && s.tombstoneSchool.Some?
    requires a.fault == AtSetting && b.fault == NoFault && a.newUserId !in s.users
    ensures Reaches(s, a, s.users[a.userId].schoolId) && IsRepeated(s, [a, b], s.users[a.userId].schoolId, 0, 1)
  {
    var schoolId, s1 := s.users[a.userId].schoolId, Delete(s, a).0;
    StepCountsTombstones(s, a, schoolId);
    DeletionConservesUserAndAccount(s, a);
    hide Delete, TombstonesOf;
    assert s1.schools[schoolId].None?;
    assert [a, b][1..] == [b];
    assert Before(s, [a, b], 1) == Before(s1, [b], 0) == s1;
  }
}
