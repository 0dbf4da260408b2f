/** Running the parent migration down after up: what becomes of a parent and of its children. */
module ParentRoundTrip {
  import opened Wrappers
  import opened Sequences
  import opened ParentsToStudents
  import opened ParentsFromStudents

  /** The users before up, between up and down, and after down, with what the two runs recorded. */
  datatype Run = Run(
    users: seq<User>, role: Id, order: seq<Person>, middle: seq<User>,
    newRole: Id, done: seq<User>, made: seq<User>, final: seq<User>)
  {
    /** Up starts from users that list the ids of their parents; down makes a new role. */
    ghost predicate Valid() {
      && UniqueIds(users)
      && (forall u :: u in users ==> u.parents.Refs? && newRole !in u.roles)
      && Moves(users, role, order, middle)
      && Links(middle, newRole, done, made, final)
    }

    predicate IsParent(p: User) {
      p in users && role in p.roles
    }

    /** `u` is a user that is kept, and `p` the parent whose data it is given. */
    ghost predicate ChildOf(u: User, p: User) {
      u in users && role !in u.roles && ProcessedFirst(users, role, order, u, p)
    }

    ghost predicate DistinctEmails() {
      forall p, q :: IsParent(p) && IsParent(q) && p.contact.email == q.contact.email ==> p == q
    }

    /** The parent users there are for an email in the end. */
    predicate IsRestored(email: string, c: User) {
      c in final && newRole in c.roles && c.contact.email == email
    }
  }

  lemma MiddleUser(r: Run, v: User) returns (u: User)
    requires Moves(r.users, r.role, r.order, r.middle) && v in r.middle
    ensures u in r.users && r.role !in u.roles && v == Migrated(r.order, u)
  {
    var kept := Filter(WithoutRole(r.role), r.users);
    FilterMembers(WithoutRole(r.role), r.users);
    var i :| 0 <= i < |r.middle| && r.middle[i] == v;
    u := kept[i];
  }

  lemma CarrierIsChild(r: Run, v: User) returns (u: User, p: User)
    requires r.Valid() && v in r.middle && CarriesData(v)
    ensures r.ChildOf(u, p) && r.IsParent(p) && v == Carrying(u, p.contact)
  {
    u := MiddleUser(r, v);
    FirstParentIsProcessedFirst(r.users, r.role, r.order, u);
    p :| ProcessedFirst(r.users, r.role, r.order, u, p) && PersonOf(p) == FirstParent(r.order, u).value;
  }

  /** A child carries the data of its parent between the migrations, and is processed by the second. */
  lemma ChildIsCarrier(r: Run, u: User, p: User)
    requires r.Valid() && r.ChildOf(u, p)
    ensures r.IsParent(p) && Carrying(u, p.contact) in r.middle && Carrying(u, p.contact) in r.done
  {
    StudentsCarryTheirFirstParent(r.users, r.role, r.order, r.middle, u);
    assert r.IsParent(p);
    hide Moves, ProcessedFirst, Linking, UniqueIds;
    assert CarriesData(Carrying(u, p.contact));
  }

  /** The records made are exactly the users with the new role. */
  lemma RestoredIsMade(r: Run, email: string, c: User)
    requires r.Valid()
    ensures r.IsRestored(email, c) <==> c in r.made && c.contact.email == email
  {
    MadeHaveRole(r.newRole, r.done, r.made);
    hide Records;
    if c in r.final && c !in r.made {
      var i :| 0 <= i < |r.final| && r.final[i] == c;
      var u := MiddleUser(r, r.middle[i]);
    }
  }

  /** The students carrying the email of a parent are its children. */
  lemma StudentsAreChildren(r: Run, p: User, x: User)
    requires r.Valid() && r.DistinctEmails() && r.IsParent(p)
    ensures x in StudentsOf(r.done, p.contact.email) <==> exists u :: r.ChildOf(u, p) && x == Carrying(u, p.contact)
  {
    FilterMembers(CarriesEmail(p.contact.email), r.done);
    assert forall s :: s in r.done ==> s in r.middle;
    hide r.ChildOf, r.Valid, Filter;
    if x in StudentsOf(r.done, p.contact.email) {
      var u, q := CarrierIsChild(r, x);
      assert q == p;
    }
    if u :| r.ChildOf(u, p) && x == Carrying(u, p.contact) {
      ChildIsCarrier(r, u, p);
    }
  }

  lemma ChildrenAreDistinct(middle: seq<User>, students: seq<User>)
    requires UniqueIds(middle) && NoDuplicates(students) && forall s :: s in students ==> s in middle
    ensures NoDuplicates(Map(IdOf, students))
  {
    forall i, j | 0 <= i < j < |students| ensures students[i].id != students[j].id {
      if students[i].id == students[j].id {
        SameIdSameUser(middle, students[i], students[j]);
      }
    }
  }

  lemma ChildIds(r: Run, p: User, students: seq<User>)
    requires forall x :: x in students <==> exists u :: r.ChildOf(u, p) && x == Carrying(u, p.contact)
    ensures forall id :: id in Map(IdOf, students) <==> exists u :: r.ChildOf(u, p) && u.id == id
  {
    hide r.ChildOf;
    forall id ensures id in Map(IdOf, students) <==> exists u :: r.ChildOf(u, p) && u.id == id {
      if id in Map(IdOf, students) {
        var i :| 0 <= i < |students| && Map(IdOf, students)[i] == id;
        assert students[i] in students;
      }
      if u :| r.ChildOf(u, p) && u.id == id {
        assert Carrying(u, p.contact) in students;
        var i :| 0 <= i < |students| && students[i] == Carrying(u, p.contact);
        assert Map(IdOf, students)[i] == id;
      }
    }
  }

  lemma StudentsAreDistinct(r: Run, email: string)
    requires r.Valid()
    ensures NoDuplicates(Map(IdOf, StudentsOf(r.done, email)))
  {
    ParentUsersAreGone(r.users, r.role, r.order, r.middle);
    FilterMembers(CarriesEmail(email), r.done);
    FilterKeepsDistinct(CarriesEmail(email), r.done);
    ChildrenAreDistinct(r.middle, StudentsOf(r.done, email));
  }

  lemma RestoredIsRecord(r: Run, email: string, c: User)
    requires r.Valid() && r.IsRestored(email, c)
    ensures IsRecord(r.newRole, r.done, c)
  {
    RestoredIsMade(r, email, c);
  }

  /** A record carries the name of the parent with its email, and lists exactly the children of that parent. */
  lemma RecordOfParent(r: Run, p: User, c: User)
    requires r.Valid() && r.DistinctEmails() && r.IsParent(p) && r.IsRestored(p.contact.email, c)
    ensures c.contact == p.contact && c.roles == [r.newRole] && NoDuplicates(c.children)
    ensures forall id :: id in c.children <==> exists u :: r.ChildOf(u, p) && u.id == id
  {
    hide r.Valid, r.ChildOf, r.DistinctEmails, Filter;
    var students := StudentsOf(r.done, p.contact.email);
    RestoredIsRecord(r, p.contact.email, c);
    assert c.children == Map(IdOf, students);
    forall x ensures x in students <==> exists u :: r.ChildOf(u, p) && x == Carrying(u, p.contact) {
      StudentsAreChildren(r, p, x);
    }
    assert students[|students| - 1] in students;
    StudentsAreDistinct(r, p.contact.email);
    ChildIds(r, p, students);
  }

  lemma ConsentsAreRelinked(consents: Option<seq<ParentConsent>>, id: Id)
    ensures WithParentId(WithParentId(consents, None), Some(id)) == WithParentId(consents, Some(id))
  {
    if consents.Some? {
      assert WithParentId(WithParentId(consents, None), Some(id)).value == WithParentId(consents, Some(id)).value;
    }
  }

  lemma LinkedInFinal(r: Run, v: User, c: User)
    requires r.Valid() && v in r.middle && v in r.done && CarriesData(v) && c in r.made && c.contact.email == DataOf(v).email
    ensures Linked(v, c.id) in r.final
  {
    hide Moves, IsRecord;
    var i :| 0 <= i < |r.middle| && r.middle[i] == v;
    var k :| 0 <= k < |r.made| && r.made[k] == c;
    IdForAt(r.made, k);
    assert r.final[i] == Linked(v, c.id);
  }

  /** A child points to the restored record, as its consents do, and is otherwise what it was. */
  lemma ChildIsRelinked(r: Run, p: User, u: User, c: User)
    requires r.Valid() && r.ChildOf(u, p) && r.IsRestored(p.contact.email, c)
    ensures Linked(u, c.id) in r.final
  {
    hide r.Valid, r.ChildOf;
    RestoredIsMade(r, p.contact.email, c);
    ChildIsCarrier(r, u, p);
    LinkedInFinal(r, Carrying(u, p.contact), c);
    ConsentsAreRelinked(u.parentConsents, c.id);
    assert Linked(Carrying(u, p.contact), c.id) == Linked(u, c.id);
  }

  lemma RecordIffStudent(role: Id, done: seq<User>, made: seq<User>, email: string)
    requires Records(role, done, made)
    ensures (exists c :: c in made && c.contact.email == email) <==> StudentsOf(done, email) != []
    ensures forall c, d :: c in made && d in made && c.contact.email == email && d.contact.email == email ==> c == d
  {
    FilterMembers(CarriesEmail(email), done);
    if StudentsOf(done, email) != [] {
      assert StudentsOf(done, email)[0] in StudentsOf(done, email);
    }
  }

  lemma RestoredIffChild(r: Run, p: User)
    requires r.Valid() && r.DistinctEmails() && r.IsParent(p)
    ensures (exists c :: r.IsRestored(p.contact.email, c)) <==> (exists u :: r.ChildOf(u, p))
    ensures forall c, d :: r.IsRestored(p.contact.email, c) && r.IsRestored(p.contact.email, d) ==> c == d
  {
    var email := p.contact.email;
    RecordIffStudent(r.newRole, r.done, r.made, email);
    hide r.Valid, r.ChildOf, r.DistinctEmails, r.IsRestored, Filter;
    forall c ensures r.IsRestored(email, c) <==> c in r.made && c.contact.email == email {
      RestoredIsMade(r, email, c);
    }
    forall x ensures x in StudentsOf(r.done, email) <==> exists u :: r.ChildOf(u, p) && x == Carrying(u, p.contact) {
      StudentsAreChildren(r, p, x);
    }
    if u :| r.ChildOf(u, p) {
      assert Carrying(u, p.contact) in StudentsOf(r.done, email);
    }
    if StudentsOf(r.done, email) != [] {
      assert StudentsOf(r.done, email)[0] in StudentsOf(r.done, email);
    }
  }

  /**
   A parent is restored exactly when it has a child, once, under its own name, with exactly its children, and each
   of them points to it.
   */
  lemma DownAfterUpRestoresParents(r: Run, p: User)
    requires r.Valid() && r.DistinctEmails() && r.IsParent(p)
    ensures (exists c :: r.IsRestored(p.contact.email, c)) <==> (exists u :: r.ChildOf(u, p))
    ensures forall c, d :: r.IsRestored(p.contact.email, c) && r.IsRestored(p.contact.email, d) ==> c == d
    ensures forall c :: r.IsRestored(p.contact.email, c) ==>
              && c.contact == p.contact && c.roles == [r.newRole] && NoDuplicates(c.children)
              && (forall id :: id in c.children <==> exists u :: r.ChildOf(u, p) && u.id == id)
              && (forall u :: r.ChildOf(u, p) ==> Linked(u, c.id) in r.final)
  {
    hide r.Valid, r.ChildOf, r.DistinctEmails, r.IsRestored, NoDuplicates;
    RestoredIffChild(r, p);
    forall c | r.IsRestored(p.contact.email, c)
      ensures c.contact == p.contact && c.roles == [r.newRole] && NoDuplicates(c.children)
      ensures forall id :: id in c.children <==> exists u :: r.ChildOf(u, p) && u.id == id
      ensures forall u :: r.ChildOf(u, p) ==> Linked(u, c.id) in r.final
    {
      RecordOfParent(r, p, c);
      forall u | r.ChildOf(u, p) ensures Linked(u, c.id) in r.final {
        ChildIsRelinked(r, p, u, c);
      }
    }
  }

  /** The users that are no children come through unchanged. */
  lemma OthersComeThrough(r: Run, u: User)
    requires r.Valid() && u in r.users && r.role !in u.roles && forall p :: r.IsParent(p) ==> !RefersTo(u, p.id)
    ensures u in r.final
  {
    assert forall p :: p in r.users && r.role in p.roles ==> r.IsParent(p);
    StudentsCarryTheirFirstParent(r.users, r.role, r.order, r.middle, u);
    hide Moves, Records, UniqueIds;
    var i :| 0 <= i < |r.middle| && r.middle[i] == u;
    assert r.final[i] == u;
  }

  lemma DoneWereThere(r: Run)
    requires r.Valid()
    ensures forall s :: s in r.done ==> s in r.middle
  {
  }

  /** No parent is made up. */
  lemma EveryRestoredWasAParent(r: Run, email: string, c: User)
    requires r.Valid() && r.IsRestored(email, c)
    ensures exists p :: r.IsParent(p) && p.contact == c.contact
  {
    hide r.Valid, Filter;
    RestoredIsRecord(r, email, c);
    FilterMembers(CarriesEmail(email), r.done);
    DoneWereThere(r);
    var students := StudentsOf(r.done, email);
    assert students[|students| - 1] in students;
    var u, p := CarrierIsChild(r, students[|students| - 1]);
  }

  /** With a single parent, the order in which the parents are processed does not matter. */
  lemma OnlyParentIsProcessedFirst(r: Run, u: User, p: User)
    requires Lists(r.order, r.users, r.role) && u in r.users && r.role !in u.roles
    requires r.IsParent(p) && u.parents == Refs([p.id])
    ensures r.ChildOf(u, p)
  {
  }
}
