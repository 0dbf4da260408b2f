/**
 What the two parent migrations make of each user, field by field.
 */
module ParentsOutcome {
  import opened Wrappers
  import opened Sequences
  import opened ParentsToStudents
  import opened ParentsFromStudents

  /** `v` is `u` but for its parents and the consents of its parents. */
  predicate IsSameUser(u: User, v: User) {
    v.id == u.id && v.roles == u.roles && v.contact == u.contact && v.schoolId == u.schoolId && v.children == u.children
  }

  /** The same consents, all of which name this parent, or none. */
  predicate ConsentsName(before: Option<seq<ParentConsent>>, after: Option<seq<ParentConsent>>, parent: Option<Id>) {
    if before.None? then after.None?
    else
      && after.Some? && |after.value| == |before.value|
      && forall i :: 0 <= i < |after.value| ==> after.value[i] == ParentConsent(parent, before.value[i].form)
  }

  predicate HasParent(u: User, parent: Id) {
    u.parents.Refs? && parent in u.parents.ids
  }

  /** The parent at place `k` is the first of the list that `u` refers to. */
  predicate IsFirstParent(order: seq<Person>, u: User, k: nat) {
    k < |order| && HasParent(u, order[k].id) && forall j :: 0 <= j < k ==> !HasParent(u, order[j].id)
  }

  // ---- up ----

  lemma MigratedIs(order: seq<Person>, u: User, k: nat)
    requires IsFirstParent(order, u, k)
    ensures var v := Migrated(order, u);
            IsSameUser(u, v) && v.parents == People([order[k].contact]) && ConsentsName(u.parentConsents, v.parentConsents, None)
  {
    FirstParentAt(order, u, k);
  }

  lemma {:induction false} UnreferredStays(order: seq<Person>, u: User)
    requires forall x :: x in order ==> !HasParent(u, x.id)
    ensures Migrated(order, u) == u
  {
  }

  /** A child carries the contact of the parent that was processed first, and its consents name no parent any more. */
  lemma ChildrenCarryTheContact(before: seq<User>, role: Id, order: seq<Person>, after: seq<User>, u: User, k: nat)
    requires Moves(before, role, order, after) && u in before && role !in u.roles && IsFirstParent(order, u, k)
    ensures exists v :: v in after && IsSameUser(u, v) && v.parents == People([order[k].contact]) &&
                        ConsentsName(u.parentConsents, v.parentConsents, None)
    ensures exists p :: p in before && role in p.roles && p.id == order[k].id && p.contact == order[k].contact
  {
    var kept := Filter(WithoutRole(role), before);
    FilterMembers(WithoutRole(role), before);
    var i :| 0 <= i < |kept| && kept[i] == u;
    MigratedIs(order, u, k);
    assert after[i] == Migrated(order, u) && after[i] in after;
    assert order[k] in order;
    hide Migrated;
  }

  /** Users without a parent user come out as they were. */
  lemma OthersComeOutUnchanged(before: seq<User>, role: Id, order: seq<Person>, after: seq<User>, u: User)
    requires Moves(before, role, order, after) && u in before && role !in u.roles
    requires forall p :: p in before && role in p.roles ==> !HasParent(u, p.id)
    ensures u in after
  {
    hide Filter, Migrated;
    var kept := Filter(WithoutRole(role), before);
    FilterMembers(WithoutRole(role), before);
    var i :| 0 <= i < |kept| && kept[i] == u;
    UnreferredStays(order, u);
    assert after[i] == u;
  }

  // ---- up, when the connection breaks ----

  /** What a run that stopped has left of a user that it had not deleted. */
  predicate IsLeft(stop: Stop, u: User, v: User) {
    var processed := stop.deleted + stop.processed;
    && IsSameUser(u, v)
    && (forall k: nat :: k < |processed| && IsFirstParent(processed, u, k) ==>
          v.parents == People([processed[k].contact]) && ConsentsName(u.parentConsents, v.parentConsents, None))
    && ((forall x :: x in processed ==> !HasParent(u, x.id)) ==>
          if stop.begun.Some? && HasParent(u, stop.begun.value.id)
          then v.parents == People([stop.begun.value.contact]) && v.parentConsents == u.parentConsents
          else v == u)
  }

  lemma HalfwayIsLeft(stop: Stop, u: User)
    ensures IsLeft(stop, u, Halfway(stop.begun, Migrated(stop.deleted + stop.processed, u)))
  {
    var processed := stop.deleted + stop.processed;
    forall k: nat | k < |processed| && IsFirstParent(processed, u, k)
      ensures var v := Migrated(processed, u);
              IsSameUser(u, v) && v.parents == People([processed[k].contact]) && ConsentsName(u.parentConsents, v.parentConsents, None)
    {
      MigratedIs(processed, u, k);
    }
    if forall x :: x in processed ==> !HasParent(u, x.id) {
      UnreferredStays(processed, u);
    }
  }

  /** Wherever a run stops: the parents it has deleted are gone, and every other user is left as said. */
  lemma StoppedRunLeaves(before: seq<User>, role: Id, stop: Stop, users: seq<User>, u: User)
    requires UniqueIds(before) && Stopped(before, role, stop, users) && u in before
    ensures (exists x :: x in stop.deleted && x.id == u.id) ==> forall v :: v in users ==> v.id != u.id
    ensures (forall x :: x in stop.deleted ==> x.id != u.id) ==> exists v :: v in users && IsLeft(stop, u, v)
  {
    var gone := IdsOf(stop.deleted);
    var kept, processed := Filter(NotIn(gone), before), stop.deleted + stop.processed;
    FilterMembers(NotIn(gone), before);
    assert forall i :: 0 <= i < |users| ==> users[i] == Halfway(stop.begun, Migrated(processed, kept[i]));
    hide Filter, Migrated, Halfway, IsLeft, UniqueIds;
    if x :| x in stop.deleted && x.id == u.id {
      var k :| 0 <= k < |stop.deleted| && stop.deleted[k] == x;
      assert gone[k] == u.id;
      forall v | v in users ensures v.id != u.id {
        var i :| 0 <= i < |users| && users[i] == v;
        LeftKeepsId(stop, kept[i]);
        assert kept[i] in kept;
      }
    } else {
      assert u in kept;
      var i :| 0 <= i < |kept| && kept[i] == u;
      HalfwayIsLeft(stop, u);
      assert users[i] in users;
    }
  }

  lemma LeftKeepsId(stop: Stop, u: User)
    ensures Halfway(stop.begun, Migrated(stop.deleted + stop.processed, u)).id == u.id
  {
  }

  // ---- down ----

  /** The user carries the contact of a parent with this email. */
  predicate Names(u: User, email: string) {
    u.parents.People? && u.parents.contacts != [] && u.parents.contacts[0].email == email
  }

  /** The last of the list that names the email. */
  predicate IsLastNaming(done: seq<User>, email: string, k: nat) {
    k < |done| && Names(done[k], email) && forall j :: k < j < |done| ==> !Names(done[j], email)
  }

  /** The record of an email: a user with the new role alone, named by the last student, with all students as children. */
  ghost predicate IsRecordOf(role: Id, done: seq<User>, email: string, c: User) {
    && c.roles == [role] && c.contact.email == email && c.parents == Refs([]) && c.parentConsents.None?
    && (exists k: nat :: IsLastNaming(done, email, k) && c.contact == done[k].parents.contacts[0] && c.schoolId == done[k].schoolId)
    && forall id :: id in c.children <==> exists s :: s in done && Names(s, email) && s.id == id
  }

  lemma {:induction false} LastOfFilter(keep: User -> bool, s: seq<User>) returns (k: nat)
    requires Filter(keep, s) != []
    ensures var kept := Filter(keep, s);
            k < |s| && keep(s[k]) && kept[|kept| - 1] == s[k] && forall j :: k < j < |s| ==> !keep(s[j])
    decreases |s|
  {
    var n := |s| - 1;
    assert s == s[..n] + [s[n]];
    FilterAppend(keep, s[..n], [s[n]]);
    if keep(s[n]) {
      k := n;
    } else {
      assert Filter(keep, s) == Filter(keep, s[..n]) + [];
      k := LastOfFilter(keep, s[..n]);
    }
  }

  lemma RecordIs(role: Id, done: seq<User>, c: User)
    requires IsRecord(role, done, c)
    ensures IsRecordOf(role, done, c.contact.email, c)
  {
    hide Filter;
    var email := c.contact.email;
    var students := StudentsOf(done, email);
    FilterMembers(CarriesEmail(email), done);
    ImageMembers(IdOf, students, c.children);
    var k := LastOfFilter(CarriesEmail(email), done);
    assert forall s :: CarriesEmail(email)(s) <==> Names(s, email);
    assert IsLastNaming(done, email, k) && c.contact == done[k].parents.contacts[0] && c.schoolId == done[k].schoolId;
  }

  lemma LinkedIs(u: User, parent: Id)
    ensures var v := Linked(u, parent);
            IsSameUser(u, v) && v.parents == Refs([parent]) && ConsentsName(u.parentConsents, v.parentConsents, Some(parent))
  {
  }

  /** `v` points to the record `c`, and so do the consents it has kept. */
  ghost predicate PointsTo(role: Id, done: seq<User>, email: string, u: User, v: User, c: User) {
    && IsSameUser(u, v) && v.parents == Refs([c.id]) && ConsentsName(u.parentConsents, v.parentConsents, Some(c.id))
    && IsRecordOf(role, done, email, c) && u.id in c.children
  }

  /** Everybody who carried the contact of a parent points to the record of its email. */
  lemma CarriersPointToTheirRecord(before: seq<User>, role: Id, done: seq<User>, made: seq<User>, after: seq<User>, u: User, email: string)
    requires Links(before, role, done, made, after) && u in before && Names(u, email)
    ensures exists v, c :: v in after && c in after && PointsTo(role, done, email, u, v, c)
  {
    hide IsRecord, Linked, Find;
    var i :| 0 <= i < |before| && before[i] == u;
    assert u in done;
    var c :| c in made && c.contact.email == email;
    var k :| 0 <= k < |made| && made[k] == c;
    IdForAt(made, k);
    RecordIs(role, done, c);
    assert after[i] == Linked(u, c.id) && after[i] in after;
    assert after[|before| + k] == c && c in after;
    hide Links, IsRecordOf;
    LinkedIs(u, c.id);
    assert u.id in c.children by {
      IsChildOfRecord(role, done, email, c, u);
    }
    assert PointsTo(role, done, email, u, after[i], c);
  }

  lemma IsChildOfRecord(role: Id, done: seq<User>, email: string, c: User, u: User)
    requires IsRecordOf(role, done, email, c) && u in done && Names(u, email)
    ensures u.id in c.children
  {
  }

  /** Everybody else is there unchanged, in the old order, and behind them are nothing but records, one for each email. */
  lemma NothingElseComesBack(before: seq<User>, role: Id, done: seq<User>, made: seq<User>, after: seq<User>)
    requires Links(before, role, done, made, after)
    ensures |after| == |before| + |made| && after[|before|..] == made
    ensures forall i :: 0 <= i < |before| && (forall email :: !Names(before[i], email)) ==> after[i] == before[i]
    ensures forall c :: c in made ==> IsRecordOf(role, done, c.contact.email, c)
    ensures forall i, j :: 0 <= i < j < |made| ==> made[i].contact.email != made[j].contact.email
    ensures forall u :: u in done <==> u in before && exists email :: Names(u, email)
  {
    forall c | c in made ensures IsRecordOf(role, done, c.contact.email, c) {
      RecordIs(role, done, c);
    }
    forall u ensures u in done <==> u in before && exists email :: Names(u, email) {
      if CarriesData(u) {
        assert Names(u, DataOf(u).email);
      }
    }
    hide IsRecord, IsRecordOf;
  }
}
