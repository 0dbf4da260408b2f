/**
 What a registration ends with and what it leaves, said of the form and of the collections alone.
 */
module RegistrationOutcome {
  import opened Wrappers
  import opened Sequences
  import opened Registration

  ghost predicate DistinctRoles(s: Store) {
    && NoDuplicates(s.roles)
    && (forall a, b :: a in s.roles && b in s.roles && a.id == b.id ==> a == b)
    && (forall a, b :: a in s.roles && b in s.roles && a.name == b.name ==> a == b)
  }

  // ---- roles ----

  /** The user has the role of this name. */
  ghost predicate HasRole(s: Store, u: User, name: string) {
    exists r :: r in s.roles && r.id in u.roles && r.name == name
  }

  lemma ExistingIff(s: Store, id: Id)
    ensures RoleExists(s)(id) <==> exists r :: r in s.roles && r.id == id
  {
    hide Filter;
  }

  /** Populating and casting back keeps exactly the roles that exist, and nothing else changes. */
  lemma RepopulatedKeepsExisting(s: Store, u: User)
    ensures Repopulated(s, u) == u.(roles := Repopulated(s, u).roles)
    ensures forall id :: id in Repopulated(s, u).roles <==> id in u.roles && exists r :: r in s.roles && r.id == id
  {
    FilterMembers(RoleExists(s), u.roles);
    forall id ensures RoleExists(s)(id) <==> exists r :: r in s.roles && r.id == id {
      ExistingIff(s, id);
    }
  }

  lemma NameOfRole(s: Store, r: Role)
    requires DistinctRoles(s) && r in s.roles
    ensures NameOf(s)(r.id) == r.name
  {
    assert Find(IdTest(r.id), s.roles) == Some(r);
  }

  lemma NamesAreHeld(s: Store, u: User, name: string)
    requires DistinctRoles(s)
    ensures name in RoleNames(s, u) <==> HasRole(s, u, name)
  {
    RepopulatedKeepsExisting(s, u);
    var ids := Repopulated(s, u).roles;
    ImageMembers(NameOf(s), ids, RoleNames(s, u));
    forall r | r in s.roles ensures NameOf(s)(r.id) == r.name {
      NameOfRole(s, r);
    }
    hide Repopulated, RoleNames, DistinctRoles;
  }

  // ---- the record of a registered user ----

  lemma RolesAreDistinct(s: Store, d: Data, prior: User)
    requires DistinctRoles(s)
    ensures NoDuplicates(Merged(s, d, prior).roles)
  {
    hide RoleNames, Filter;
    var named := NamedIn(RoleNames(s, prior));
    var kept, roles := Filter(named, s.roles), Merged(s, d, prior).roles;
    FilterMembers(named, s.roles);
    FilterKeepsDistinct(named, s.roles);
    assert forall i :: 0 <= i < |kept| ==> roles[i] == kept[i].id && kept[i] in kept;
  }

  /** The roles written back are the roles of before that exist. */
  lemma RolesAreKept(s: Store, d: Data, prior: User)
    requires DistinctRoles(s)
    ensures forall id :: id in Merged(s, d, prior).roles <==> id in prior.roles && exists r :: r in s.roles && r.id == id
  {
    hide RoleNames, Filter;
    var named := NamedIn(RoleNames(s, prior));
    FilterMembers(named, s.roles);
    ImageMembers(RoleId, Filter(named, s.roles), Merged(s, d, prior).roles);
    forall r | r in s.roles ensures named(r) <==> r.id in prior.roles {
      NamesAreHeld(s, prior, r.name);
    }
  }

  /**
   The record of a registered user: the names and the parent of the form, the age of the form where
   none was stored, and everything else as before, but for the hash and the roles that do not exist.
   */
  lemma RegisteredRecord(s: Store, r: Request)
    requires Succeeds(s, r)
    ensures var (t, outcome) := Register(s, r);
            && outcome.Registered? && outcome.userId in s.users && outcome.userId in t.users
            && var before, after := s.users[outcome.userId], t.users[outcome.userId];
            && after.firstName == r.data.firstName && after.lastName == r.data.lastName
            && after.email == before.email && after.schoolId == before.schoolId
            && after.age == (if before.age.Some? then before.age else r.data.age)
            && after.importHash == None
            && after.parents == (if r.data.parent.Some? then [r.data.parent.value] else [])
            && (DistinctRoles(s) ==>
                  && NoDuplicates(after.roles)
                  && forall id :: id in after.roles <==> id in before.roles && exists role :: role in s.roles && role.id == id)
  {
    SuccessIsUnobstructed(s, r);
    var id := Register(s, r).1.userId;
    hide Register;
    if DistinctRoles(s) {
      RolesAreKept(s, r.data, s.users[id]);
      RolesAreDistinct(s, r.data, s.users[id]);
    }
  }

  /** The account and the consent of a registered user: the address and the password, and who has agreed to what. */
  lemma RegisteredAccountAndConsent(s: Store, r: Request)
    requires Succeeds(s, r)
    ensures var (t, outcome) := Register(s, r);
            && outcome.Registered? && outcome.userId in s.users
            && t.accounts == s.accounts[r.accountId := Account(s.users[outcome.userId].email, r.data.password1, outcome.userId, true)]
            && t.consents == s.consents[r.consentId := if r.data.parent.Some?
                                                       then Consent(outcome.userId, true, r.data.parentPrivacy, r.data.parentTermsOfUse)
                                                       else Consent(outcome.userId, false, r.data.privacy, r.data.termsOfUse)]
            && t.users.Keys == s.users.Keys && t.roles == s.roles && t.pins == s.pins
  {
    SuccessIsUnobstructed(s, r);
    hide Register;
  }

  // ---- what a registration ends with ----

  /** The link names a class or school and a hash. */
  ghost predicate LinkHolds(s: Store, d: Data) {
    d.importHash != "" && (d.classOrSchoolId in s.classes || d.classOrSchoolId in s.schools)
  }

  /** The user the hash belongs to, and whom the form names if it names one. */
  predicate IsMeant(s: Store, d: Data, id: Id) {
    id in s.users && s.users[id].importHash == Some(d.importHash) && (d.userId == None || d.userId == Some(id))
  }

  ghost predicate OnlyOneIsMeant(s: Store, d: Data, id: Id) {
    IsMeant(s, d, id) && forall other :: IsMeant(s, d, other) ==> other == id
  }

  predicate IsAllowed(name: string) {
    name == "student" || name == "expert" || name == "administrator" || name == "teacher"
  }

  ghost predicate RoleMayRegister(s: Store, u: User) {
    exists name :: HasRole(s, u, name) && IsAllowed(name)
  }

  /** A student of known age, who is too old to be registered by a parent, or too young to do it alone. */
  ghost predicate AgeForbids(s: Store, r: Request, u: User) {
    var age := if u.age.Some? then u.age else r.data.age;
    HasRole(s, u, "student") && age.Some? &&
    if r.data.parent.Some? then 16 <= age.value else age.value < 16 && !r.studentsNeedNoConsent
  }

  /** Two letters are the same, or the capital and the small form of one. */
  predicate SameLetter(a: char, b: char) {
    a == b || ('A' <= a <= 'Z' && b as int == a as int + 32) || ('A' <= b <= 'Z' && a as int == b as int + 32)
  }

  predicate SameAddress(a: string, b: string) {
    |a| == |b| && forall i :: 0 <= i < |a| ==> SameLetter(a[i], b[i])
  }

  /** The address the pin was sent to: the parent's, or else the student's, or else that of the form. */
  predicate IsPinAddress(d: Data, email: string) {
    || (d.parent.Some? && email == d.parent.value.email)
    || (d.parent == None && d.studentEmail == Some(email) && email != "")
    || (d.parent == None && (d.studentEmail == None || d.studentEmail == Some("")) && email == d.email)
  }

  predicate IsPinOf(d: Data, p: Pin) {
    p.pin == d.pin && IsPinAddress(d, p.email)
  }

  /** Exactly one such pin is stored, and it is verified. */
  ghost predicate PinHolds(s: Store, d: Data) {
    exists i :: 0 <= i < |s.pins| && IsPinOf(d, s.pins[i]) && s.pins[i].verified &&
                forall j :: 0 <= j < |s.pins| && IsPinOf(d, s.pins[j]) ==> j == i
  }

  lemma SameAddressIff(a: string, b: string)
    ensures Lower(a) == Lower(b) <==> SameAddress(a, b)
  {
    if Lower(a) == Lower(b) {
      forall i | 0 <= i < |a| ensures SameLetter(a[i], b[i]) {
        assert LowerChar(a[i]) == Lower(a)[i] == Lower(b)[i] == LowerChar(b[i]);
      }
    }
  }

  lemma CandidatesAreMeant(s: Store, d: Data)
    ensures forall id :: id in Candidates(s, d) <==> IsMeant(s, d, id)
    ensures |Candidates(s, d)| == 1 <==> exists id :: OnlyOneIsMeant(s, d, id)
    ensures |Candidates(s, d)| == 1 ==> OnlyOneIsMeant(s, d, TheOnly(Candidates(s, d)))
  {
    assert forall id :: id in Candidates(s, d) <==> IsMeant(s, d, id);
    hide Candidates, IsMeant;
    if id :| OnlyOneIsMeant(s, d, id) {
      assert forall other :: other in Candidates(s, d) <==> other == id;
      assert Candidates(s, d) == {id};
    }
    if |Candidates(s, d)| == 1 {
      var id := TheOnly(Candidates(s, d));
      assert OnlyOneIsMeant(s, d, id);
    }
  }

  lemma PinTestIff(d: Data, p: Pin)
    ensures PinTest(d)(p) <==> IsPinOf(d, p)
  {
  }

  lemma PinIff(s: Store, d: Data)
    ensures PinIsVerified(s, d) <==> PinHolds(s, d)
  {
    forall p ensures PinTest(d)(p) <==> IsPinOf(d, p) {
      PinTestIff(d, p);
    }
    var found := Filter(PinTest(d), s.pins);
    FilterMembers(PinTest(d), s.pins);
    hide PinTest, IsPinOf, Filter;
    if PinHolds(s, d) {
      var i :| 0 <= i < |s.pins| && IsPinOf(d, s.pins[i]) && s.pins[i].verified &&
               forall j :: 0 <= j < |s.pins| && IsPinOf(d, s.pins[j]) ==> j == i;
      OnlyOneIsKept(PinTest(d), s.pins, i);
    } else if PinIsVerified(s, d) {
      assert found[0] in found;
      var i :| 0 <= i < |s.pins| && s.pins[i] == found[0];
      var j :| 0 <= j < |s.pins| && IsPinOf(d, s.pins[j]) && j != i;
      TwoAreKept(PinTest(d), s.pins, if i < j then i else j, if i < j then j else i);
    }
  }

  /** Why a registration of the user `u` is rejected, in the order in which it is checked. */
  ghost predicate Objects(s: Store, r: Request, u: User, outcome: Outcome) {
    if !RoleMayRegister(s, u) then outcome == NotAllowed
    else if AgeForbids(s, r, u) then outcome == WrongAge
    else if r.data.parent.Some? && SameAddress(r.data.parent.value.email, r.data.email) then outcome == SameEmail
    else !PinHolds(s, r.data) && outcome == WrongPin
  }

  lemma AllowedIff(name: string)
    ensures name in ALLOWED <==> IsAllowed(name)
  {
  }

  lemma MayRegisterIff(s: Store, u: User)
    requires DistinctRoles(s)
    ensures MayRegister(RoleNames(s, u)) <==> RoleMayRegister(s, u)
  {
    var names := RoleNames(s, u);
    forall name ensures name in names <==> HasRole(s, u, name) {
      NamesAreHeld(s, u, name);
    }
    hide RoleNames, HasRole, DistinctRoles;
    forall name ensures name in ALLOWED <==> IsAllowed(name) {
      AllowedIff(name);
    }
    hide IsAllowed;
    if RoleMayRegister(s, u) {
      var name :| name in names && name in ALLOWED;
      var i :| 0 <= i < |names| && names[i] == name;
      assert names[i] in ALLOWED;
    }
  }

  lemma AgeForbidsIff(s: Store, r: Request, u: User)
    requires DistinctRoles(s) && MayRegister(RoleNames(s, u))
    ensures AgeForbids(s, r, u) <==> FormChecked(s, r, u) == Objected(WrongAge)
  {
    NamesAreHeld(s, u, "student");
    hide RoleNames, HasRole, DistinctRoles, MayRegister, Lower, PasswordsDiffer;
  }

  lemma ObjectionIff(s: Store, r: Request, u: User)
    requires DistinctRoles(s)
    ensures forall outcome :: Objection(s, r, u) == Some(outcome) <==> Objects(s, r, u, outcome)
  {
    hide MayRegister, RoleMayRegister, AgeForbids, RoleNames, Lower, SameAddress, PinHolds, PinIsVerified, PasswordsDiffer, DistinctRoles;
    MayRegisterIff(s, u);
    if MayRegister(RoleNames(s, u)) {
      AgeForbidsIff(s, r, u);
    }
    PinIff(s, r.data);
    if r.data.parent.Some? {
      SameAddressIff(r.data.parent.value.email, r.data.email);
    }
  }

  /** What a registration ends with, for every form and every store. */
  lemma OutcomeIs(s: Store, r: Request)
    requires DistinctRoles(s)
    ensures var outcome := Register(s, r).1;
            && (outcome == InvalidLink <==> !LinkHolds(s, r.data))
            && (outcome == NoUser <==> LinkHolds(s, r.data) && !exists id :: OnlyOneIsMeant(s, r.data, id))
            && forall id :: LinkHolds(s, r.data) && OnlyOneIsMeant(s, r.data, id) ==>
                 if exists reason :: Objects(s, r, s.users[id], reason) then Objects(s, r, s.users[id], outcome)
                 else if r.updateFails then outcome == UpdateFailed
                 else if r.accountFails then outcome == AccountFailed
                 else if r.consentFails then outcome == ConsentFailed
                 else outcome == Registered(id, r.accountId, r.consentId)
  {
    CandidatesAreMeant(s, r.data);
    if |Candidates(s, r.data)| == 1 {
      var u := s.users[TheOnly(Candidates(s, r.data))];
      ObjectionIff(s, r, u);
      ObjectionIsAFailure(s, r, u);
      hide Objects, Objection;
    }
    hide Candidates, Merged, RolledBack, IsMeant, DistinctRoles;
  }
}
