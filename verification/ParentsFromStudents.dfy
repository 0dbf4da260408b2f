/** Restoring parent users from the data in their children, and what remains of the old parents after both migrations. */
module ParentsFromStudents {
  import opened Wrappers
  import opened Sequences
  import opened ParentsToStudents

  predicate CarriesData(u: User) {
    u.parents.People? && u.parents.contacts != []
  }

  function DataOf(u: User): Contact
    requires CarriesData(u)
  {
    u.parents.contacts[0]
  }

  function CarriesEmail(email: string): User -> bool {
    (u: User) => CarriesData(u) && DataOf(u).email == email
  }

  function HasEmail(email: string): User -> bool {
    (u: User) => u.contact.email == email
  }

  function IdOf(u: User): Id {
    u.id
  }

  // ---- what the migration is to do ----

  /** The students processed so far that carry an email. */
  function StudentsOf(done: seq<User>, email: string): seq<User> {
    Filter(CarriesEmail(email), done)
  }

  /** The record made for an email: named as its last student says, with all its students as children. */
  predicate IsRecord(role: Id, done: seq<User>, c: User) {
    var students := StudentsOf(done, c.contact.email);
    && students != []
    && var last := students[|students| - 1];
       CarriesData(last)
       && c == User(c.id, [role], DataOf(last), last.schoolId, Refs([]), Map(IdOf, students), None)
  }

  function Linked(u: User, parent: Id): User {
    u.(parents := Refs([parent]), parentConsents := WithParentId(u.parentConsents, Some(parent)))
  }

  function IdFor(made: seq<User>, email: string): Option<Id> {
    var c := Find(HasEmail(email), made);
    if c.Some? then Some(c.value.id) else None
  }

  function LinkedIn(done: seq<User>, made: seq<User>, u: User): User {
    if u in done && CarriesData(u) && IdFor(made, DataOf(u).email).Some?
    then Linked(u, IdFor(made, DataOf(u).email).value)
    else u
  }

  function LinkedUsers(users: seq<User>, done: seq<User>, made: seq<User>): (r: seq<User>)
    ensures |r| == |users|
    ensures forall i :: 0 <= i < |users| ==> r[i] == LinkedIn(done, made, users[i])
  {
    seq(|users|, i requires 0 <= i < |users| => LinkedIn(done, made, users[i]))
  }

  ghost predicate UniqueEmails(made: seq<User>) {
    forall i, j :: 0 <= i < j < |made| ==> made[i].contact.email != made[j].contact.email
  }

  /** There is one record for every email that was met, and none other. */
  ghost predicate Records(role: Id, done: seq<User>, made: seq<User>) {
    && UniqueEmails(made)
    && (forall c :: c in made ==> IsRecord(role, done, c))
    && (forall s :: s in done ==> CarriesData(s) && exists c :: c in made && c.contact.email == DataOf(s).email)
  }

  /** `done` lists, in the order they were processed, students that carried data and now point to a made record. */
  ghost predicate Linking(before: seq<User>, role: Id, done: seq<User>, made: seq<User>, users: seq<User>) {
    && NoDuplicates(done)
    && (forall s :: s in done ==> s in before && CarriesData(s))
    && Records(role, done, made)
    && users == LinkedUsers(before, done, made) + made
  }

  ghost predicate Links(before: seq<User>, role: Id, done: seq<User>, made: seq<User>, after: seq<User>) {
    && Linking(before, role, done, made, after)
    && (forall u :: u in before && CarriesData(u) ==> u in done)
  }

  ghost function Pending(before: seq<User>, done: seq<User>): set<User> {
    set u | u in before && CarriesData(u) && u !in done
  }

  // ---- one step ----

  /** What the upsert makes of a record that is there, or of none. */
  function Upserted(role: Id, c: User, s: User): User
    requires CarriesData(s)
  {
    c.(contact := DataOf(s), schoolId := s.schoolId, roles := [role], children := c.children + [s.id])
  }

  function Inserted(role: Id, id: Id, s: User): User
    requires CarriesData(s)
  {
    User(id, [role], DataOf(s), s.schoolId, Refs([]), [s.id], None)
  }

  lemma StudentsOfAppend(done: seq<User>, s: User, email: string)
    ensures StudentsOf(done + [s], email) == StudentsOf(done, email) + if CarriesEmail(email)(s) then [s] else []
  {
    FilterAppend(CarriesEmail(email), done, [s]);
  }

  lemma RecordStaysOrGrows(role: Id, done: seq<User>, c: User, s: User)
    requires CarriesData(s) && IsRecord(role, done, c)
    ensures IsRecord(role, done + [s], if c.contact.email == DataOf(s).email then Upserted(role, c, s) else c)
  {
    var email := c.contact.email;
    StudentsOfAppend(done, s, email);
    assert Map(IdOf, StudentsOf(done, email) + [s]) == Map(IdOf, StudentsOf(done, email)) + [s.id];
  }

  lemma NewRecord(role: Id, done: seq<User>, made: seq<User>, id: Id, s: User)
    requires CarriesData(s) && Records(role, done, made)
    requires forall c :: c in made ==> c.contact.email != DataOf(s).email
    ensures IsRecord(role, done + [s], Inserted(role, id, s))
  {
    var email := DataOf(s).email;
    StudentsOfAppend(done, s, email);
    forall x | x in done ensures !CarriesEmail(email)(x) {
    }
    FilterNone(CarriesEmail(email), done);
    assert StudentsOf(done + [s], email) == [s];
    assert Map(IdOf, [s]) == [s.id];
  }

  /** The records after one more student. */
  ghost predicate OneMore(role: Id, made: seq<User>, s: User, id: Id, next: seq<User>)
    requires CarriesData(s)
  {
    if exists k :: 0 <= k < |made| && made[k].contact.email == DataOf(s).email
    then exists k :: 0 <= k < |made| && made[k].contact.email == DataOf(s).email && made[k].id == id
                     && next == made[k := Upserted(role, made[k], s)]
    else next == made + [Inserted(role, id, s)]
  }

  lemma RecordsGrow(role: Id, done: seq<User>, made: seq<User>, s: User, id: Id, next: seq<User>)
    requires CarriesData(s) && Records(role, done, made) && OneMore(role, made, s, id, next)
    ensures Records(role, done + [s], next)
  {
    hide IsRecord;
    forall i | 0 <= i < |next| ensures IsRecord(role, done + [s], next[i]) {
      if i < |made| {
        assert made[i] in made;
        RecordStaysOrGrows(role, done, made[i], s);
      } else {
        assert forall c :: c in made ==> c.contact.email != DataOf(s).email;
        NewRecord(role, done, made, id, s);
      }
    }
    forall x | x in done + [s] ensures exists c :: c in next && c.contact.email == DataOf(x).email {
      EmailStays(role, done, made, s, id, next, x);
    }
  }

  lemma EmailStays(role: Id, done: seq<User>, made: seq<User>, s: User, id: Id, next: seq<User>, x: User)
    requires CarriesData(s) && Records(role, done, made) && OneMore(role, made, s, id, next)
    requires x in done + [s]
    ensures CarriesData(x) && exists c :: c in next && c.contact.email == DataOf(x).email
  {
    hide IsRecord;
    if x in done {
      var c :| c in made && c.contact.email == DataOf(x).email;
      var i :| 0 <= i < |made| && made[i] == c;
      assert next[i].contact.email == c.contact.email && next[i] in next;
    } else if k :| 0 <= k < |made| && made[k].contact.email == DataOf(s).email {
      var j :| 0 <= j < |made| && made[j].contact.email == DataOf(s).email && next == made[j := Upserted(role, made[j], s)];
      assert next[j] in next;
    } else {
      assert next[|made|] in next;
    }
  }

  lemma {:induction false} IdForAt(made: seq<User>, k: nat)
    requires k < |made| && UniqueEmails(made)
    ensures IdFor(made, made[k].contact.email) == Some(made[k].id)
  {
    if k > 0 {
      assert made[0].contact.email != made[k].contact.email;
      IdForAt(made[1..], k - 1);
    }
  }

  lemma IdForNone(made: seq<User>, email: string)
    requires forall c :: c in made ==> c.contact.email != email
    ensures IdFor(made, email) == None
  {
  }

  lemma IdsStay(role: Id, made: seq<User>, s: User, id: Id, next: seq<User>, email: string)
    requires CarriesData(s) && UniqueEmails(made) && UniqueEmails(next) && OneMore(role, made, s, id, next)
    ensures IdFor(made, email).Some? ==> IdFor(next, email) == IdFor(made, email)
    ensures IdFor(next, DataOf(s).email) == Some(id)
  {
    if c :| c in made && c.contact.email == email {
      var k :| 0 <= k < |made| && made[k] == c;
      IdForAt(made, k);
      assert next[k].contact.email == email && next[k].id == made[k].id;
      IdForAt(next, k);
    } else {
      IdForNone(made, email);
    }
    if k :| 0 <= k < |made| && made[k].contact.email == DataOf(s).email {
      var j :| 0 <= j < |made| && made[j].contact.email == DataOf(s).email && made[j].id == id
               && next == made[j := Upserted(role, made[j], s)];
      IdForAt(next, j);
    } else {
      IdForAt(next, |made|);
    }
  }

  lemma LinkStep(before: seq<User>, role: Id, done: seq<User>, made: seq<User>, s: User, id: Id, next: seq<User>, u: User)
    requires CarriesData(s) && s !in done && Records(role, done, made) && Records(role, done + [s], next)
    requires OneMore(role, made, s, id, next)
    ensures LinkedIn(done + [s], next, u) == if u == s then Linked(s, id) else LinkedIn(done, made, u)
  {
    hide IsRecord, OneMore, IdFor;
    if u in done {
      var c :| c in made && c.contact.email == DataOf(u).email;
      var k :| 0 <= k < |made| && made[k] == c;
      IdForAt(made, k);
      IdsStay(role, made, s, id, next, DataOf(u).email);
    } else {
      IdsStay(role, made, s, id, next, DataOf(s).email);
    }
  }

  // ---- the program ----

  class Database {
    var users: seq<User>
    var nextId: Id

    ghost predicate Valid()
      reads this
    {
      UniqueIds(users) && forall u :: u in users ==> u.id < nextId
    }

    constructor (users: seq<User>, nextId: Id)
      requires UniqueIds(users) && forall u :: u in users ==> u.id < nextId
      ensures Valid() && this.users == users
    {
      this.users, this.nextId := users, nextId;
    }

    method FindBulkStudentsWithParentData(limit: nat) returns (students: seq<User>)
      requires Valid() && limit > 0
      ensures |students| <= limit && NoDuplicates(students)
      ensures forall s :: s in students ==> s in users && CarriesData(s)
      ensures students == [] ==> forall u :: u in users ==> !CarriesData(u)
    {
      students := [];
      for i := 0 to |users|
        invariant |students| <= limit && NoDuplicates(students)
        invariant forall s :: s in students ==> s in users[..i] && CarriesData(s)
        invariant students == [] ==> forall u :: u in users[..i] ==> !CarriesData(u)
      {
        assert forall u :: u in users[..i] ==> u.id != users[i].id;
        if |students| < limit && CarriesData(users[i]) {
          students := students + [users[i]];
        }
      }
    }

    /** `findOneAndUpdate` with `upsert`: the user with the email and the role, or a new one. */
    method UpsertParent(role: Id, s: User, ghost base: seq<User>, ghost made: seq<User>) returns (id: Id, ghost next: seq<User>)
      requires Valid() && CarriesData(s) && users == base + made && UniqueEmails(made)
      requires forall u :: u in base ==> role !in u.roles
      requires forall c :: c in made ==> role in c.roles
      modifies this
      ensures Valid() && users == base + next && OneMore(role, made, s, id, next) && UniqueEmails(next)
    {
      var email := DataOf(s).email;
      for i := 0 to |users|
        invariant users == base + made && Valid()
        invariant forall k :: 0 <= k < i ==> !(users[k].contact.email == email && role in users[k].roles)
      {
        if users[i].contact.email == email && role in users[i].roles {
          assert users[i] in base || users[i] in made;
          ghost var j := i - |base|;
          assert users[i] == made[j];
          next := made[j := Upserted(role, made[j], s)];
          id := users[i].id;
          users := users[i := Upserted(role, users[i], s)];
          assert users == base + next;
          return;
        }
      }
      assert forall k :: 0 <= k < |made| ==> made[k] == users[|base| + k] && made[k] in made;
      id := nextId;
      next := made + [Inserted(role, id, s)];
      users := users + [Inserted(role, id, s)];
      nextId := nextId + 1;
      assert users == base + next;
    }

    /** The two updates of one student: its parents, then the parent ids of its consents. */
    method LinkStudent(studentId: Id, parent: Id)
      requires Valid()
      modifies this`users
      ensures Valid() && |users| == |old(users)|
      ensures forall i :: 0 <= i < |users| ==>
                users[i] == if old(users)[i].id == studentId then Linked(old(users)[i], parent) else old(users)[i]
    {
      for i := 0 to |users|
        invariant Valid() && users == old(users)
        invariant forall k :: 0 <= k < i ==> users[k].id != studentId
      {
        if users[i].id == studentId {
          users := users[i := users[i].(parents := Refs([parent]))];
          if users[i].parentConsents.Some? {
            users := users[i := users[i].(parentConsents := WithParentId(users[i].parentConsents, Some(parent)))];
          }
          return;
        }
      }
    }

    method ProcessStudent(ghost before: seq<User>, role: Id, ghost done: seq<User>, ghost made: seq<User>, s: User)
      returns (ghost next: seq<User>)
      requires Valid() && UniqueIds(before) && Linking(before, role, done, made, users)
      requires forall u :: u in before ==> role !in u.roles
      requires s in before && CarriesData(s) && s !in done
      modifies this
      ensures Valid() && Linking(before, role, done + [s], next, users)
    {
      ghost var linked := LinkedUsers(before, done, made);
      MadeHaveRole(role, done, made);
      var id;
      hide IsRecord, OneMore;
      id, next := UpsertParent(role, s, linked, made);
      ghost var during := users;
      LinkStudent(s.id, id);
      LinkedOneMore(before, role, done, made, s, id, next, during, users);
    }

    method ProcessBatch(ghost before: seq<User>, role: Id, ghost done: seq<User>, ghost made: seq<User>, students: seq<User>)
      returns (ghost next: seq<User>)
      requires Valid() && UniqueIds(before) && Linking(before, role, done, made, users)
      requires forall u :: u in before ==> role !in u.roles
      requires NoDuplicates(students) && forall s :: s in students ==> s in before && CarriesData(s) && s !in done
      modifies this
      ensures Valid() && Linking(before, role, done + students, next, users)
    {
      next := made;
      ghost var processed := done;
      hide Linking, UniqueIds, CarriesData;
      for k := 0 to |students|
        invariant Valid() && processed == done + students[..k] && Linking(before, role, processed, next, users)
      {
        NotYet(done, students, k);
        next := ProcessStudent(before, role, processed, next, students[k]);
        processed := processed + [students[k]];
      }
      assert students[..|students|] == students;
    }

    method BulkMigrateParentsFromStudents(role: Id) returns (ghost done: seq<User>, ghost made: seq<User>)
      requires Valid() && forall u :: u in users ==> role !in u.roles
      modifies this
      ensures Valid() && Links(old(users), role, done, made, users)
    {
      var limit, continueBulkProcess := 500, true;
      ghost var before := users;
      done, made := [], [];
      NothingLinked(before, role);
      assert UniqueIds(before);
      hide Linking, UniqueIds;
      while continueBulkProcess
        invariant Valid() && Linking(before, role, done, made, users)
        invariant !continueBulkProcess ==> forall u :: u in users ==> !CarriesData(u)
        decreases continueBulkProcess, Pending(before, done)
      {
        var students := FindBulkStudentsWithParentData(limit);
        if |students| == 0 {
          continueBulkProcess := false;
        } else {
          forall s | s in students ensures s in before && s !in done {
            CarriersAreOld(before, role, done, made, users, s);
          }
          made := ProcessBatch(before, role, done, made, students);
          FewerPending(before, done, students);
          done := done + students;
        }
      }
      AllProcessed(before, role, done, made, users);
    }
  }

  lemma NotYet(done: seq<User>, students: seq<User>, k: nat)
    requires k < |students| && NoDuplicates(students) && forall s :: s in students ==> s !in done
    ensures students[k] !in done + students[..k]
    ensures done + students[..k + 1] == done + students[..k] + [students[k]]
  {
  }

  lemma NothingLinked(before: seq<User>, role: Id)
    ensures Linking(before, role, [], [], before)
  {
  }

  lemma FewerPending(before: seq<User>, done: seq<User>, students: seq<User>)
    requires students != [] && forall s :: s in students ==> s in before && CarriesData(s) && s !in done
    ensures Pending(before, done + students) < Pending(before, done)
  {
    assert students[0] in Pending(before, done) && students[0] !in Pending(before, done + students);
  }

  lemma AllProcessed(before: seq<User>, role: Id, done: seq<User>, made: seq<User>, users: seq<User>)
    requires Linking(before, role, done, made, users) && forall u :: u in users ==> !CarriesData(u)
    ensures Links(before, role, done, made, users)
  {
  }

  lemma MadeHaveRole(role: Id, done: seq<User>, made: seq<User>)
    requires Records(role, done, made)
    ensures forall c :: c in made ==> c.roles == [role] && c.parents == Refs([])
  {
  }

  /** Among the users, only the processed student has its id. */
  lemma StudentAmong(before: seq<User>, linked: seq<User>, made: seq<User>, s: User, users: seq<User>)
    requires UniqueIds(before) && s in before && |linked| == |before|
    requires forall i :: 0 <= i < |before| ==> linked[i].id == before[i].id
    requires users == linked + made && UniqueIds(users)
    ensures forall i :: 0 <= i < |before| ==> (users[i].id == s.id <==> before[i] == s)
    ensures forall i :: |before| <= i < |users| ==> users[i].id != s.id
  {
  }

  lemma LinkedOneMore(before: seq<User>, role: Id, done: seq<User>, made: seq<User>, s: User, id: Id, next: seq<User>,
                      during: seq<User>, after: seq<User>)
    requires UniqueIds(before) && UniqueIds(during) && Linking(before, role, done, made, LinkedUsers(before, done, made) + made)
    requires s in before && CarriesData(s) && s !in done && OneMore(role, made, s, id, next)
    requires during == LinkedUsers(before, done, made) + next && |after| == |during|
    requires forall i :: 0 <= i < |after| ==> after[i] == if during[i].id == s.id then Linked(during[i], id) else during[i]
    ensures Linking(before, role, done + [s], next, after)
  {
    hide IsRecord, OneMore;
    RecordsGrow(role, done, made, s, id, next);
    StudentAmong(before, LinkedUsers(before, done, made), next, s, during);
    forall i | 0 <= i < |before| ensures after[i] == LinkedIn(done + [s], next, before[i]) {
      LinkStep(before, role, done, made, s, id, next, before[i]);
    }
    hide Records, LinkedIn, UniqueIds;
    assert after == LinkedUsers(before, done + [s], next) + next;
  }

  lemma LinkedCarriesNothing(role: Id, done: seq<User>, made: seq<User>, u: User)
    requires Records(role, done, made) && u in done
    ensures !CarriesData(LinkedIn(done, made, u))
  {
  }

  lemma CarriersAreOld(before: seq<User>, role: Id, done: seq<User>, made: seq<User>, users: seq<User>, s: User)
    requires Linking(before, role, done, made, users) && s in users && CarriesData(s)
    ensures s in before && s !in done
  {
    MadeHaveRole(role, done, made);
    assert s !in made;
    hide IsRecord;
    var i :| 0 <= i < |users| && users[i] == s;
    assert i < |before|;
    if before[i] in done {
      LinkedCarriesNothing(role, done, made, before[i]);
    }
  }
}
