/** Registering a user through a link with an import hash, with a rollback when a later step fails. */
module Registration {
  import opened Wrappers
  import opened Sequences

  type Id = string

  datatype Role = Role(id: Id, name: string)

  datatype Parent = Parent(firstName: string, lastName: string, email: string)

  /** `age` follows from the birthday, where there is one. */
  datatype User = User(
    firstName: string, lastName: string, email: string, schoolId: Id, roles: seq<Id>, age: Option<int>,
    importHash: Option<string>, parents: seq<Parent>)

  datatype Account = Account(username: string, password: string, userId: Id, activated: bool)

  datatype Consent = Consent(userId: Id, ofParent: bool, privacy: bool, termsOfUse: bool)

  datatype Pin = Pin(email: string, pin: string, verified: bool)

  datatype Store = Store(
    users: map<Id, User>, accounts: map<Id, Account>, consents: map<Id, Consent>,
    roles: seq<Role>, pins: seq<Pin>, classes: map<Id, Id>, schools: set<Id>)

  /** The submitted form; a parent is given by its email.  The last two passwords are fields that only a misspelt comparison knows. */
  datatype Data = Data(
    classOrSchoolId: Id, importHash: string, userId: Option<Id>,
    firstName: string, lastName: string, email: string, age: Option<int>,
    parent: Option<Parent>, studentEmail: Option<string>, pin: string,
    privacy: bool, termsOfUse: bool, parentPrivacy: bool, parentTermsOfUse: bool,
    password1: string, password2: string, passwort1: Option<string>, passwort2: Option<string>)

  /** The ids the database assigns, the configuration, and which of the writes and of their reversals fail. */
  datatype Request = Request(
    data: Data, accountId: Id, consentId: Id, studentsNeedNoConsent: bool,
    updateFails: bool, accountFails: bool, consentFails: bool, undoUserFails: bool, undoAccountFails: bool)

  datatype Outcome =
    | InvalidLink | NoUser | NotAllowed | WrongAge | SameEmail | WrongPin
    | UpdateFailed | AccountFailed | ConsentFailed
    | Registered(userId: Id, accountId: Id, consentId: Id)

  const MIN_AGE := 16

  const ALLOWED := ["student", "expert", "administrator", "teacher"]

  // ---- what the steps compute ----

  predicate ValidLink(s: Store, d: Data) {
    (d.classOrSchoolId in s.classes || d.classOrSchoolId in s.schools) && d.importHash != ""
  }

  function Candidates(s: Store, d: Data): set<Id> {
    set id | id in s.users && s.users[id].importHash == Some(d.importHash) && (d.userId.None? || d.userId.value == id)
  }

  ghost function TheOnly(ids: set<Id>): (id: Id)
    requires |ids| == 1
    ensures ids == {id}
  {
    var id :| id in ids;
    assert |ids - {id}| == 0;
    id
  }

  function IdTest(id: Id): Role -> bool {
    (r: Role) => r.id == id
  }

  function RoleExists(s: Store): Id -> bool {
    (id: Id) => Find(IdTest(id), s.roles).Some?
  }

  /** Populating the roles drops those that do not exist; casting back keeps the others. */
  function Repopulated(s: Store, u: User): User {
    u.(roles := Filter(RoleExists(s), u.roles))
  }

  function NameOf(s: Store): Id -> string {
    (id: Id) => var r := Find(IdTest(id), s.roles); if r.Some? then r.value.name else ""
  }

  function RoleNames(s: Store, u: User): seq<string> {
    Map(NameOf(s), Repopulated(s, u).roles)
  }

  function NamedIn(names: seq<string>): Role -> bool {
    (r: Role) => r.name in names
  }

  function RoleId(r: Role): Id {
    r.id
  }

  /** The new record: the stored values win, except for the names and the parents; the hash is dropped. */
  function Merged(s: Store, d: Data, prior: User): User {
    User(d.firstName, d.lastName, prior.email, prior.schoolId,
         Map(RoleId, Filter(NamedIn(RoleNames(s, prior)), s.roles)),
         if prior.age.Some? then prior.age else d.age, None, if d.parent.Some? then [d.parent.value] else [])
  }

  function LowerChar(c: char): char {
    if 'A' <= c <= 'Z' then (c as int + 32) as char else c
  }

  function Lower(text: string): string {
    Map(LowerChar, text)
  }

  /** What the check of the form ends with; passwords that differ are returned as an error, not rejected. */
  datatype Checked = Passed | Differing | Objected(outcome: Outcome)

  predicate PasswordsDiffer(d: Data) {
    d.password1 != "" && d.passwort1 != d.passwort2
  }

  predicate MayRegister(names: seq<string>) {
    exists i :: 0 <= i < |names| && names[i] in ALLOWED
  }

  function FormChecked(s: Store, r: Request, prior: User): Checked {
    var d, names := r.data, RoleNames(s, prior);
    var age := if prior.age.Some? then prior.age else d.age;
    if !MayRegister(names) then Objected(NotAllowed)
    else if "student" in names && age.Some? && d.parent.Some? && age.value >= MIN_AGE then Objected(WrongAge)
    else if "student" in names && age.Some? && d.parent.None? && age.value < MIN_AGE && !r.studentsNeedNoConsent then Objected(WrongAge)
    else if d.parent.Some? && Lower(d.parent.value.email) == Lower(d.email) then Objected(SameEmail)
    else if PasswordsDiffer(d) then Differing
    else Passed
  }

  /** The first reason to reject the registration, if any; the next step takes no notice of what the check returned. */
  function Objection(s: Store, r: Request, prior: User): Option<Outcome> {
    match FormChecked(s, r, prior)
    case Objected(outcome) => Some(outcome)
    case _ => if !PinIsVerified(s, r.data) then Some(WrongPin) else None
  }

  function PinEmail(d: Data): string {
    if d.parent.Some? then d.parent.value.email
    else if d.studentEmail.Some? && d.studentEmail.value != "" then d.studentEmail.value
    else d.email
  }

  function PinTest(d: Data): Pin -> bool {
    (p: Pin) => p.pin == d.pin && p.email == PinEmail(d)
  }

  predicate PinIsVerified(s: Store, d: Data) {
    var found := Filter(PinTest(d), s.pins);
    |found| == 1 && found[0].verified
  }

  function NewAccount(d: Data, user: User, userId: Id): Account {
    Account(user.email, d.password1, userId, true)
  }

  function NewConsent(d: Data, userId: Id): Consent {
    if d.parent.Some? then Consent(userId, true, d.parentPrivacy, d.parentTermsOfUse)
    else Consent(userId, false, d.privacy, d.termsOfUse)
  }

  function Without<V>(m: map<Id, V>, id: Option<Id>): map<Id, V> {
    if id.Some? then m - {id.value} else m
  }

  /** The rollback: the old user is written back, and side by side with it what has been created is removed. */
  function RolledBack(s: Store, r: Request, userId: Id, prior: User, account: Option<Id>): Store {
    s.(users := if r.undoUserFails then s.users else s.users[userId := Repopulated(s, prior)],
       accounts := if r.undoAccountFails then s.accounts else Without(s.accounts, account))
  }

  ghost function Register(s: Store, r: Request): (Store, Outcome) {
    var d := r.data;
    if !ValidLink(s, d) then (s, InvalidLink)
    else if |Candidates(s, d)| != 1 then (s, NoUser)
    else
      var id := TheOnly(Candidates(s, d));
      var prior := s.users[id];
      var user := Merged(s, d, prior);
      var objection := Objection(s, r, prior);
      if objection.Some? then (RolledBack(s, r, id, prior, None), objection.value)
      else if r.updateFails then (RolledBack(s, r, id, prior, None), UpdateFailed)
      else
        var s1 := s.(users := s.users[id := user]);
        if r.accountFails then (RolledBack(s1, r, id, prior, None), AccountFailed)
        else
          var s2 := s1.(accounts := s1.accounts[r.accountId := NewAccount(d, user, id)]);
          if r.consentFails then (RolledBack(s2, r, id, prior, Some(r.accountId)), ConsentFailed)
          else (s2.(consents := s2.consents[r.consentId := NewConsent(d, id)]), Registered(id, r.accountId, r.consentId))
  }

  // ---- the program ----

  class RegistrationService {
    var store: Store

    constructor (store: Store)
      ensures this.store == store
    {
      this.store := store;
    }

    method PopulateUser(d: Data) returns (found: Option<(Id, User, User)>)
      ensures found.Some? <==> |Candidates(store, d)| == 1
      ensures found.Some? ==>
                var (id, user, prior) := found.value;
                id == TheOnly(Candidates(store, d)) && prior == store.users[id] && user == Merged(store, d, prior)
    {
      var ids := Candidates(store, d);
      if |ids| != 1 {
        return None;
      }
      var id :| id in ids;
      return Some((id, Merged(store, d, store.users[id]), store.users[id]));
    }

    method Rollback(r: Request, id: Id, prior: User, account: Option<Id>)
      modifies this
      ensures store == RolledBack(old(store), r, id, prior, account)
    {
      if !r.undoUserFails {
        store := store.(users := store.users[id := Repopulated(store, prior)]);
      }
      if account.Some? && !r.undoAccountFails {
        store := store.(accounts := store.accounts - {account.value});
      }
    }

    method RegisterUser(r: Request) returns (outcome: Outcome)
      modifies this
      ensures (store, outcome) == Register(old(store), r)
    {
      var d := r.data;
      if !ValidLink(store, d) {
        return InvalidLink;
      }
      var found := PopulateUser(d);
      if found.None? {
        return NoUser;
      }
      var (id, user, prior) := found.value;
      var account: Option<Id> := None;
      var objection := Objection(store, r, prior);
      if objection.Some? {
        outcome := objection.value;
      } else if r.updateFails {
        outcome := UpdateFailed;
      } else {
        store := store.(users := store.users[id := user]);
        if r.accountFails {
          outcome := AccountFailed;
        } else {
          store := store.(accounts := store.accounts[r.accountId := NewAccount(d, user, id)]);
          account := Some(r.accountId);
          if r.consentFails {
            outcome := ConsentFailed;
          } else {
            store := store.(consents := store.consents[r.consentId := NewConsent(d, id)]);
            return Registered(id, r.accountId, r.consentId);
          }
        }
      }
      Rollback(r, id, prior, account);
    }
  }

  // ---- passwords ----

  /** The form with other passwords, but for the one the account gets. */
  function WithPasswords(r: Request, password2: string, passwort1: Option<string>, passwort2: Option<string>): Request {
    r.(data := r.data.(password2 := password2, passwort1 := passwort1, passwort2 := passwort2))
  }

  /** The error is returned exactly if the misspelt fields differ, so not for the passwords a user has typed. */
  lemma DifferingIff(s: Store, r: Request, prior: User)
    ensures FormChecked(s, r, prior) == Differing <==>
              !FormChecked(s, r, prior).Objected? && r.data.password1 != "" && r.data.passwort1 != r.data.passwort2
    ensures r.data.passwort1 == r.data.passwort2 ==> FormChecked(s, r, prior) != Differing
  {
  }

  lemma PasswordsDoNotVerify(s: Store, r: Request, password2: string, passwort1: Option<string>, passwort2: Option<string>)
    ensures PinIsVerified(s, WithPasswords(r, password2, passwort1, passwort2).data) == PinIsVerified(s, r.data)
  {
    FilterSame(PinTest(WithPasswords(r, password2, passwort1, passwort2).data), PinTest(r.data), s.pins);
    hide Filter;
  }

  lemma PasswordsDoNotObject(
      s: Store, r: Request, password2: string, passwort1: Option<string>, passwort2: Option<string>, prior: User)
    ensures Objection(s, WithPasswords(r, password2, passwort1, passwort2), prior) == Objection(s, r, prior)
  {
    PasswordsDoNotVerify(s, r, password2, passwort1, passwort2);
    hide RoleNames, Lower, MayRegister, PinIsVerified;
  }

  lemma PasswordsDoNotIdentify(s: Store, r: Request, password2: string, passwort1: Option<string>, passwort2: Option<string>)
    ensures var r2 := WithPasswords(r, password2, passwort1, passwort2);
            && Candidates(s, r2.data) == Candidates(s, r.data) && (ValidLink(s, r2.data) <==> ValidLink(s, r.data))
            && (forall prior :: Merged(s, r2.data, prior) == Merged(s, r.data, prior))
            && (forall prior, id :: NewAccount(r2.data, prior, id) == NewAccount(r.data, prior, id))
            && (forall id :: NewConsent(r2.data, id) == NewConsent(r.data, id))
            && r2 == r.(data := r2.data)
            && (forall t: Store, id, prior, account :: RolledBack(t, r2, id, prior, account) == RolledBack(t, r, id, prior, account))
  {
  }

  /** Whether passwords differ has no effect: a registration depends on the one that the account gets, and on no other. */
  lemma {:induction false} PasswordsAreNotCompared(
      s: Store, r: Request, password2: string, passwort1: Option<string>, passwort2: Option<string>)
    ensures Register(s, WithPasswords(r, password2, passwort1, passwort2)) == Register(s, r)
  {
    PasswordsDoNotIdentify(s, r, password2, passwort1, passwort2);
    assert Candidates(s, r.data) <= s.users.Keys;
    hide Objection, Candidates, Repopulated, ValidLink, WithPasswords;
    if ValidLink(s, r.data) && |Candidates(s, r.data)| == 1 {
      PasswordsDoNotObject(s, r, password2, passwort1, passwort2, s.users[TheOnly(Candidates(s, r.data))]);
    }
    hide Merged;
  }

  // ---- all or nothing ----

  ghost predicate FreshIds(s: Store, r: Request) {
    r.accountId !in s.accounts && r.consentId !in s.consents
  }

  predicate RolesExist(s: Store, u: User) {
    forall i :: 0 <= i < |u.roles| ==> RoleExists(s)(u.roles[i])
  }

  lemma {:induction false} FilterKeepsAllIff<T>(p: T -> bool, s: seq<T>)
    ensures Filter(p, s) == s <==> forall i :: 0 <= i < |s| ==> p(s[i])
  {
    if s != [] {
      var rest := s[1..];
      FilterKeepsAllIff(p, rest);
      assert s == [s[0]] + rest;
      assert forall j :: 0 <= j < |rest| ==> rest[j] == s[j + 1];
      if !p(s[0]) {
        assert |Filter(p, s)| < |s|;
      } else if Filter(p, rest) == rest {
        forall i | 0 <= i < |s| ensures p(s[i]) {
          assert i > 0 ==> rest[i - 1] == s[i];
        }
      } else {
        assert Filter(p, s)[1..] == Filter(p, rest);
      }
    }
  }

  lemma ObjectionIsAFailure(s: Store, r: Request, prior: User)
    ensures Objection(s, r, prior).Some? ==> Objection(s, r, prior).value in {NotAllowed, WrongAge, SameEmail, WrongPin}
  {
  }

  /** The link is valid and exactly one user has the hash. */
  ghost predicate Admits(s: Store, r: Request) {
    ValidLink(s, r.data) && |Candidates(s, r.data)| == 1
  }

  /** The registration gets as far as writing the user. */
  ghost predicate WritesUser(s: Store, r: Request) {
    Admits(s, r) && Objection(s, r, s.users[TheOnly(Candidates(s, r.data))]).None? && !r.updateFails
  }

  ghost predicate Succeeds(s: Store, r: Request) {
    WritesUser(s, r) && !r.accountFails && !r.consentFails
  }

  ghost function UsersLeft(s: Store, r: Request): map<Id, User> {
    if !Admits(s, r) then s.users
    else
      var id := TheOnly(Candidates(s, r.data));
      if !r.undoUserFails then s.users[id := Repopulated(s, s.users[id])]
      else if WritesUser(s, r) then s.users[id := Merged(s, r.data, s.users[id])]
      else s.users
  }

  /** The account has been made, and cannot be removed again. */
  ghost predicate LeavesAccount(s: Store, r: Request) {
    WritesUser(s, r) && !r.accountFails && r.undoAccountFails
  }

  lemma RepopulatedByRoles(s: Store, t: Store, u: User)
    requires s.roles == t.roles
    ensures Repopulated(s, u) == Repopulated(t, u)
  {
  }

  lemma FailureBeforeWriting(s: Store, r: Request)
    requires Admits(s, r) && !WritesUser(s, r)
    ensures Register(s, r).0 == RolledBack(s, r, TheOnly(Candidates(s, r.data)), s.users[TheOnly(Candidates(s, r.data))], None)
    ensures !Register(s, r).1.Registered?
  {
    ObjectionIsAFailure(s, r, s.users[TheOnly(Candidates(s, r.data))]);
    hide Merged, Repopulated, Objection, ValidLink, RolledBack;
  }

  /** The store once the user, and the account unless making it fails, have been written. */
  ghost function WrittenStore(s: Store, r: Request): Store
    requires Admits(s, r)
  {
    var id := TheOnly(Candidates(s, r.data));
    var user := Merged(s, r.data, s.users[id]);
    s.(users := s.users[id := user],
       accounts := if r.accountFails then s.accounts else s.accounts[r.accountId := NewAccount(r.data, user, id)])
  }

  lemma FailureAfterWriting(s: Store, r: Request)
    requires WritesUser(s, r) && !Succeeds(s, r)
    ensures var id := TheOnly(Candidates(s, r.data));
            Register(s, r).0 == RolledBack(WrittenStore(s, r), r, id, s.users[id], if r.accountFails then None else Some(r.accountId))
    ensures !Register(s, r).1.Registered?
  {
  }

  lemma WrittenTwice<V>(m: map<Id, V>, id: Id, v: V, w: V)
    ensures m[id := v][id := w] == m[id := w]
  {
  }

  lemma AddedAndRemoved<V>(m: map<Id, V>, id: Id, v: V)
    requires id !in m
    ensures m[id := v] - {id} == m
  {
  }

  lemma RollbackAfterWriting(s: Store, r: Request)
    requires FreshIds(s, r) && Admits(s, r)
    ensures var id := TheOnly(Candidates(s, r.data));
            var t := RolledBack(WrittenStore(s, r), r, id, s.users[id], if r.accountFails then None else Some(r.accountId));
            && t == s.(users := t.users, accounts := t.accounts)
            && t.users == (if r.undoUserFails then s.users[id := Merged(s, r.data, s.users[id])]
                           else s.users[id := Repopulated(s, s.users[id])])
            && (if !r.accountFails && r.undoAccountFails then r.accountId in t.accounts else t.accounts == s.accounts)
  {
    var id := TheOnly(Candidates(s, r.data));
    assert id in Candidates(s, r.data);
    RepopulatedByRoles(s, WrittenStore(s, r), s.users[id]);
    hide Merged, Repopulated, ValidLink, Candidates, NewAccount;
    var user := Merged(s, r.data, s.users[id]);
    WrittenTwice(s.users, id, user, Repopulated(s, s.users[id]));
    AddedAndRemoved(s.accounts, r.accountId, NewAccount(r.data, user, id));
  }

  /** The store a registration leaves that does not succeed. */
  lemma FailureLeaves(s: Store, r: Request)
    requires FreshIds(s, r) && !Succeeds(s, r)
    ensures var t := Register(s, r).0;
            && !Register(s, r).1.Registered?
            && t.users == UsersLeft(s, r)
            && t == s.(users := t.users, accounts := t.accounts)
            && (if LeavesAccount(s, r) then r.accountId in t.accounts else t.accounts == s.accounts)
  {
    if WritesUser(s, r) {
      FailureAfterWriting(s, r);
      RollbackAfterWriting(s, r);
      hide Register, RolledBack, WrittenStore, Merged, Repopulated, Objection, ValidLink, Candidates;
    } else if Admits(s, r) {
      FailureBeforeWriting(s, r);
      hide Register, Merged, Repopulated, Objection, ValidLink, Candidates;
    } else {
      hide Merged, Repopulated, Objection, ValidLink, Candidates;
    }
  }

  /**
   Whichever step fails, the store is exactly what it was before if and only if no account is left behind, and the user
   was either never written, should it be impossible to write it back, or refers to existing roles only.
   */
  lemma FailureChangesNothingIff(s: Store, r: Request)
    requires FreshIds(s, r) && !Succeeds(s, r)
    ensures Register(s, r).0 == s <==>
              && !LeavesAccount(s, r)
              && (Admits(s, r) ==>
                    if r.undoUserFails then !WritesUser(s, r) else RolesExist(s, s.users[TheOnly(Candidates(s, r.data))]))
  {
    FailureLeaves(s, r);
    if Admits(s, r) {
      var id := TheOnly(Candidates(s, r.data));
      RepopulatedIsSameIff(s, id);
      assert id in Candidates(s, r.data);
      assert Merged(s, r.data, s.users[id]).importHash == None;
      assert s.users[id := Merged(s, r.data, s.users[id])][id] != s.users[id];
    }
    hide Register, Merged, Repopulated, Objection, ValidLink, Candidates, RolesExist;
  }

  /** With a rollback that works, nothing is left but the roles that did not exist. */
  lemma WorkingRollbackRestores(s: Store, r: Request)
    requires FreshIds(s, r) && !Succeeds(s, r) && !r.undoUserFails && !r.undoAccountFails
    ensures var t := Register(s, r).0;
            && t.accounts == s.accounts && t.consents == s.consents
            && (if !Admits(s, r) then t == s
                else
                  var id := TheOnly(Candidates(s, r.data));
                  t == s.(users := s.users[id := Repopulated(s, s.users[id])]) && (t == s <==> RolesExist(s, s.users[id])))
  {
    FailureLeaves(s, r);
    FailureChangesNothingIff(s, r);
    hide Register, Merged, Repopulated, Objection, ValidLink, Candidates, RolesExist;
  }

  /** An example: the only role of the user does not exist, so the user may not register, and loses it. */
  lemma MissingRoleIsDropped()
    ensures var user := User("", "", "", "s", ["gone"], None, Some("h"), []);
            var s := Store(map["u" := user], map[], map[], [], [], map[], {"s"});
            var d := Data("s", "h", None, "", "", "", None, None, None, "", false, false, false, false, "", "", None, None);
            var r := Request(d, "a", "c", false, false, false, false, false, false);
            FreshIds(s, r) && Register(s, r) == (s.(users := map["u" := user.(roles := [])]), NotAllowed)
  {
    var user := User("", "", "", "s", ["gone"], None, Some("h"), []);
    var s := Store(map["u" := user], map[], map[], [], [], map[], {"s"});
    var d := Data("s", "h", None, "", "", "", None, None, None, "", false, false, false, false, "", "", None, None);
    var r := Request(d, "a", "c", false, false, false, false, false, false);
    assert Candidates(s, d) == {"u"};
    assert TheOnly({"u"}) == "u" by {
      assert TheOnly({"u"}) in {"u"};
    }
    assert !RoleExists(s)("gone");
    assert Repopulated(s, user) == user.(roles := []);
    assert RoleNames(s, user) == [];
    assert Objection(s, r, user) == Some(NotAllowed);
    hide Objection, Merged;
    assert s.users["u" := user.(roles := [])] == map["u" := user.(roles := [])];
  }

  lemma RepopulatedIsSameIff(s: Store, id: Id)
    requires id in s.users
    ensures s.(users := s.users[id := Repopulated(s, s.users[id])]) == s <==> RolesExist(s, s.users[id])
  {
    FilterKeepsAllIff(RoleExists(s), s.users[id].roles);
    assert Repopulated(s, s.users[id]) == s.users[id] <==> RolesExist(s, s.users[id]);
    if RolesExist(s, s.users[id]) {
      assert s.users[id := s.users[id]] == s.users;
    } else {
      assert s.users[id := Repopulated(s, s.users[id])][id] != s.users[id];
    }
  }

  /** The store after a registration in which every step succeeded. */
  function Succeeded(s: Store, r: Request, id: Id): Store
    requires id in s.users
  {
    var user := Merged(s, r.data, s.users[id]);
    s.(users := s.users[id := user], accounts := s.accounts[r.accountId := NewAccount(r.data, user, id)],
       consents := s.consents[r.consentId := NewConsent(r.data, id)])
  }

  lemma SuccessIsUnobstructed(s: Store, r: Request)
    requires Succeeds(s, r)
    ensures var (t, outcome) := Register(s, r);
            && outcome == Registered(outcome.userId, r.accountId, r.consentId)
            && Candidates(s, r.data) == {outcome.userId} && outcome.userId in s.users
            && t == Succeeded(s, r, outcome.userId)
            && Objection(s, r, s.users[outcome.userId]).None?
  {
  }

  /**
   On success exactly one user has changed - the only one the hash belonged to, who no longer has it - and
   exactly one activated account, for that user and under the stored address, and one consent have been added.
   */
  lemma SuccessChangesOneUser(s: Store, r: Request)
    requires FreshIds(s, r) && Succeeds(s, r)
    ensures var (t, outcome) := Register(s, r);
            && outcome.Registered?
            && var id := outcome.userId;
            && id in s.users && s.users[id].importHash == Some(r.data.importHash) && Candidates(s, r.data) == {id}
            && id in t.users && outcome.consentId in t.consents
            && t == s.(users := s.users[id := t.users[id]],
                       accounts := s.accounts[outcome.accountId := Account(s.users[id].email, r.data.password1, id, true)],
                       consents := s.consents[outcome.consentId := t.consents[outcome.consentId]])
            && t.users[id].importHash == None && t.users[id].email == s.users[id].email && t.users[id].schoolId == s.users[id].schoolId
            && t.users[id].firstName == r.data.firstName && t.users[id].lastName == r.data.lastName
            && t.consents[outcome.consentId].userId == id
            && outcome.accountId !in s.accounts && outcome.consentId !in s.consents
            && PinIsVerified(s, r.data)
  {
    SuccessIsUnobstructed(s, r);
    var id := Register(s, r).1.userId;
    assert id in Candidates(s, r.data);
    assert PinIsVerified(s, r.data);
    hide Register, Objection, ValidLink, PinIsVerified;
  }

  // ---- every sequence of registrations ----

  ghost function RegisterAll(s: Store, requests: seq<Request>): Store
    decreases |requests|
  {
    if requests == [] then s else RegisterAll(Register(s, requests[0]).0, requests[1..])
  }

  ghost predicate AllFresh(s: Store, requests: seq<Request>)
    decreases |requests|
  {
    requests != [] ==> FreshIds(s, requests[0]) && AllFresh(Register(s, requests[0]).0, requests[1..])
  }

  /** The users who have a hash. */
  function Holders(users: map<Id, User>, hash: string): set<Id> {
    set id | id in users && users[id].importHash == Some(hash)
  }

  lemma HoldersAfterUpdate(users: map<Id, User>, id: Id, user: User, hash: string)
    requires id in users
    ensures Holders(users[id := user], hash) ==
              if user.importHash == Some(hash) then Holders(users, hash) + {id} else Holders(users, hash) - {id}
  {
  }

  /** The user who had the hash loses it: on success, or because it cannot be written back. */
  ghost predicate UsesUp(s: Store, r: Request, hash: string) {
    r.data.importHash == hash && WritesUser(s, r) && (Succeeds(s, r) || r.undoUserFails)
  }

  ghost function Successes(s: Store, requests: seq<Request>, hash: string): nat
    decreases |requests|
  {
    if requests == [] then 0
    else (if Succeeds(s, requests[0]) && requests[0].data.importHash == hash then 1 else 0) +
         Successes(Register(s, requests[0]).0, requests[1..], hash)
  }

  ghost function UsedUp(s: Store, requests: seq<Request>, hash: string): nat
    decreases |requests|
  {
    if requests == [] then 0
    else (if UsesUp(s, requests[0], hash) then 1 else 0) + UsedUp(Register(s, requests[0]).0, requests[1..], hash)
  }

  lemma HashIsLost(s: Store, r: Request, hash: string)
    requires Admits(s, r)
    ensures var id := TheOnly(Candidates(s, r.data));
            var after := Holders(s.users[id := Merged(s, r.data, s.users[id])], hash);
            |after| + (if r.data.importHash == hash then 1 else 0) == |Holders(s.users, hash)|
  {
    var id := TheOnly(Candidates(s, r.data));
    assert id in Candidates(s, r.data);
    HoldersAfterUpdate(s.users, id, Merged(s, r.data, s.users[id]), hash);
    assert Merged(s, r.data, s.users[id]).importHash == None;
    assert id in Holders(s.users, r.data.importHash);
    assert id in Holders(s.users, hash) ==> hash == r.data.importHash;
    hide Merged, Holders, Candidates;
    if hash == r.data.importHash {
      assert |Holders(s.users, hash) - {id}| == |Holders(s.users, hash)| - 1;
    } else {
      assert Holders(s.users, hash) - {id} == Holders(s.users, hash);
    }
  }

  lemma RollbackKeepsHash(s: Store, r: Request, hash: string)
    requires Admits(s, r)
    ensures var id := TheOnly(Candidates(s, r.data));
            Holders(s.users[id := Repopulated(s, s.users[id])], hash) == Holders(s.users, hash)
  {
  }

  lemma StepUsesUpHash(s: Store, r: Request, hash: string)
    requires FreshIds(s, r)
    ensures |Holders(Register(s, r).0.users, hash)| + (if UsesUp(s, r, hash) then 1 else 0) == |Holders(s.users, hash)|
  {
    if Admits(s, r) {
      HashIsLost(s, r, hash);
      RollbackKeepsHash(s, r, hash);
    }
    if Succeeds(s, r) {
      SuccessIsUnobstructed(s, r);
      assert Register(s, r).1.userId == TheOnly(Candidates(s, r.data));
    } else {
      FailureLeaves(s, r);
    }
    hide Register, Merged, Repopulated, Holders, Objection, ValidLink, Candidates;
  }

  /**
   Over any sequence of registrations, every success with a hash uses up one user who had it.  So with unique hashes
   each succeeds at most once, and exactly as often as it is lost if every old user can be written back.
   */
  lemma {:induction false} EachHashSucceedsOnce(s: Store, requests: seq<Request>, hash: string)
    requires AllFresh(s, requests)
    ensures UsedUp(s, requests, hash) + |Holders(RegisterAll(s, requests).users, hash)| == |Holders(s.users, hash)|
    ensures Successes(s, requests, hash) <= UsedUp(s, requests, hash)
    ensures (forall r :: r in requests ==> !r.undoUserFails) ==> Successes(s, requests, hash) == UsedUp(s, requests, hash)
    decreases |requests|
  {
    if requests != [] {
      hide Register, Holders, WritesUser;
      StepUsesUpHash(s, requests[0], hash);
      EachHashSucceedsOnce(Register(s, requests[0]).0, requests[1..], hash);
    }
  }
}
