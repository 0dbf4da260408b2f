/** Moving the data of parent users into their children and deleting the parent users. */
module ParentsToStudents {
  import opened Wrappers
  import opened Sequences

  type Id = nat

  datatype Contact = Contact(firstName: string, lastName: string, email: string)

  /** Before the migration a user lists the ids of its parents, afterwards their contact data. */
  datatype Parents = Refs(ids: seq<Id>) | People(contacts: seq<Contact>)

  datatype ParentConsent = ParentConsent(parentId: Option<Id>, form: string)

  datatype User = User(
    id: Id, roles: seq<Id>, contact: Contact, schoolId: Id, parents: Parents, children: seq<Id>,
    parentConsents: Option<seq<ParentConsent>>)

  /** What the migration takes from a parent user. */
  datatype Person = Person(id: Id, contact: Contact)

  function PersonOf(u: User): Person {
    Person(u.id, u.contact)
  }

  predicate RefersTo(u: User, parent: Id) {
    u.parents.Refs? && parent in u.parents.ids
  }

  ghost predicate UniqueIds(users: seq<User>) {
    forall i, j :: 0 <= i < j < |users| ==> users[i].id != users[j].id
  }

  function WithParentId(consents: Option<seq<ParentConsent>>, id: Option<Id>): Option<seq<ParentConsent>> {
    if consents.None? then None
    else Some(Map((c: ParentConsent) => c.(parentId := id), consents.value))
  }

  // ---- what the migration is to do ----

  /** The first of the processed parents a user refers to. */
  function FirstParent(order: seq<Person>, u: User): (p: Option<Person>)
    ensures p.Some? ==> p.value in order && RefersTo(u, p.value.id)
    ensures p.None? ==> forall x :: x in order ==> !RefersTo(u, x.id)
  {
    if order == [] then None
    else if RefersTo(u, order[0].id) then Some(order[0])
    else FirstParent(order[1..], u)
  }

  function Carrying(u: User, contact: Contact): User {
    u.(parents := People([contact]), parentConsents := WithParentId(u.parentConsents, None))
  }

  function Migrated(order: seq<Person>, u: User): User {
    var p := FirstParent(order, u);
    if p.None? then u else Carrying(u, p.value.contact)
  }

  function MigratedUsers(order: seq<Person>, users: seq<User>): (r: seq<User>)
    ensures |r| == |users|
    ensures forall i :: 0 <= i < |users| ==> r[i] == Migrated(order, users[i])
  {
    seq(|users|, i requires 0 <= i < |users| => Migrated(order, users[i]))
  }

  function NotIn(ids: seq<Id>): User -> bool {
    (u: User) => u.id !in ids
  }

  function WithoutRole(role: Id): User -> bool {
    (u: User) => role !in u.roles
  }

  function IdsOf(order: seq<Person>): (ids: seq<Id>)
    ensures |ids| == |order|
    ensures forall i :: 0 <= i < |order| ==> ids[i] == order[i].id
  {
    seq(|order|, i requires 0 <= i < |order| => order[i].id)
  }

  /** `order` lists every parent user once. */
  ghost predicate Lists(order: seq<Person>, users: seq<User>, role: Id) {
    && NoDuplicates(IdsOf(order))
    && (forall u :: u in users && role in u.roles ==> PersonOf(u) in order)
    && (forall x :: x in order ==> exists u :: u in users && role in u.roles && PersonOf(u) == x)
  }

  /** The parent users are gone, and the others carry the data of the first of their parents in `order`. */
  ghost predicate Moves(before: seq<User>, role: Id, order: seq<Person>, after: seq<User>) {
    && Lists(order, before, role)
    && after == MigratedUsers(order, Filter(WithoutRole(role), before))
  }

  /** Between its two updates the children of a parent carry its data, and their consents still name the parent. */
  function Halfway(p: Option<Person>, u: User): User {
    if p.Some? && RefersTo(u, p.value.id) then u.(parents := People([p.value.contact])) else u
  }

  function HalfwayUsers(p: Option<Person>, users: seq<User>): (r: seq<User>)
    ensures |r| == |users|
    ensures forall i :: 0 <= i < |users| ==> r[i] == Halfway(p, users[i])
  {
    seq(|users|, i requires 0 <= i < |users| => Halfway(p, users[i]))
  }

  /** Where a run stopped: the parents it had deleted, those it had processed since, and one it had begun with. */
  datatype Stop = Stop(deleted: seq<Person>, processed: seq<Person>, begun: Option<Person>)

  function Begun(stop: Stop): seq<Person> {
    stop.deleted + stop.processed + if stop.begun.Some? then [stop.begun.value] else []
  }

  ghost predicate Stopped(before: seq<User>, role: Id, stop: Stop, users: seq<User>) {
    && NoDuplicates(IdsOf(Begun(stop)))
    && (forall x :: x in Begun(stop) ==> exists u :: u in before && role in u.roles && PersonOf(u) == x)
    && users == HalfwayUsers(stop.begun, MigratedUsers(stop.deleted + stop.processed, Filter(NotIn(IdsOf(stop.deleted)), before)))
  }

  // ---- one step ----

  lemma {:induction false} FirstParentAppend(order: seq<Person>, p: Person, u: User)
    ensures FirstParent(order + [p], u) ==
              if FirstParent(order, u).Some? then FirstParent(order, u)
              else if RefersTo(u, p.id) then Some(p) else None
  {
    if order == [] {
      assert order + [p] == [p];
    } else {
      assert (order + [p])[1..] == order[1..] + [p];
      FirstParentAppend(order[1..], p, u);
    }
  }

  lemma MigratedStep(order: seq<Person>, p: Person, u: User)
    ensures Migrated(order + [p], u) ==
              if RefersTo(Migrated(order, u), p.id) then Carrying(Migrated(order, u), p.contact) else Migrated(order, u)
  {
    FirstParentAppend(order, p, u);
  }

  lemma {:induction false} FilterMigrated(order: seq<Person>, ids: seq<Id>, users: seq<User>)
    ensures Filter(NotIn(ids), MigratedUsers(order, users)) == MigratedUsers(order, Filter(NotIn(ids), users))
  {
    if users != [] {
      var head := Migrated(order, users[0]);
      assert NotIn(ids)(head) == NotIn(ids)(users[0]);
      hide Migrated, MigratedUsers;
      var rest := Filter(NotIn(ids), users[1..]);
      FilterMigrated(order, ids, users[1..]);
      assert MigratedUsers(order, users)[1..] == MigratedUsers(order, users[1..]);
      if NotIn(ids)(head) {
        assert Filter(NotIn(ids), users) == [users[0]] + rest;
        assert MigratedUsers(order, [users[0]] + rest) == [head] + MigratedUsers(order, rest);
      } else {
        assert Filter(NotIn(ids), users) == rest;
      }
    }
  }

  lemma {:induction false} FilterTwice(a: seq<Id>, b: seq<Id>, users: seq<User>)
    ensures Filter(NotIn(a + b), users) == Filter(NotIn(b), Filter(NotIn(a), users))
  {
    if users != [] {
      FilterTwice(a, b, users[1..]);
      var rest := Filter(NotIn(a), users[1..]);
      assert NotIn(a + b)(users[0]) == (NotIn(a)(users[0]) && NotIn(b)(users[0]));
      if users[0].id !in a {
        assert Filter(NotIn(a), users) == [users[0]] + rest;
        assert ([users[0]] + rest)[1..] == rest;
      } else {
        assert Filter(NotIn(a), users) == rest;
      }
    }
  }

  lemma {:induction false} FilterKeepsUniqueIds(keep: User -> bool, users: seq<User>)
    requires UniqueIds(users)
    ensures UniqueIds(Filter(keep, users))
  {
    if users != [] {
      FilterKeepsUniqueIds(keep, users[1..]);
      FilterMembers(keep, users[1..]);
      assert forall u :: u in users[1..] ==> u.id != users[0].id;
    }
  }

  lemma SameIdSameUser(users: seq<User>, u: User, v: User)
    requires UniqueIds(users) && u in users && v in users && u.id == v.id
    ensures u == v
  {
  }

  // ---- the program ----

  class Database {
    var users: seq<User>
    var parentRole: Option<Id>
    /** How many more calls are answered before the connection breaks; `None` when it never does. */
    var answers: Option<nat>

    constructor (users: seq<User>, parentRole: Option<Id>, answers: Option<nat>)
      ensures this.users == users && this.parentRole == parentRole && this.answers == answers
    {
      this.users, this.parentRole, this.answers := users, parentRole, answers;
    }

    method Answer() returns (ok: bool)
      modifies this`answers
      ensures ok <==> old(answers) != Some(0)
      ensures old(answers).None? ==> answers.None?
    {
      ok := answers != Some(0);
      if answers.Some? && answers.value > 0 {
        answers := Some(answers.value - 1);
      }
    }

    /** Some of the parent users, in natural order here; the callers rely on no order. */
    method FindBulkParents(role: Id, limit: nat) returns (parents: seq<User>)
      requires UniqueIds(users) && limit > 0
      ensures |parents| <= limit && UniqueIds(parents)
      ensures forall p :: p in parents ==> p in users && role in p.roles
      ensures parents == [] ==> forall u :: u in users ==> role !in u.roles
    {
      parents := [];
      for i := 0 to |users|
        invariant |parents| <= limit && UniqueIds(parents)
        invariant forall p :: p in parents ==> p in users[..i] && role in p.roles
        invariant parents == [] ==> forall u :: u in users[..i] ==> role !in u.roles
      {
        assert forall u :: u in users[..i] ==> u.id != users[i].id;
        if |parents| < limit && role in users[i].roles {
          parents := parents + [users[i]];
        }
      }
    }

    method GetStudentsForParent(parent: Id) returns (ids: seq<Id>)
      requires UniqueIds(users)
      ensures forall u :: u in users ==> (u.id in ids <==> RefersTo(u, parent))
    {
      ids := [];
      for i := 0 to |users|
        invariant forall id :: id in ids ==> exists u :: u in users[..i] && u.id == id
        invariant forall u :: u in users[..i] ==> (u.id in ids <==> RefersTo(u, parent))
      {
        assert forall u :: u in users[..i] ==> u.id != users[i].id;
        if RefersTo(users[i], parent) {
          ids := ids + [users[i].id];
        }
      }
    }

    method SetParents(ids: seq<Id>, contact: Contact)
      modifies this`users
      ensures |users| == |old(users)|
      ensures forall i :: 0 <= i < |users| ==>
                users[i] == if old(users)[i].id in ids then old(users)[i].(parents := People([contact])) else old(users)[i]
    {
      ghost var before := users;
      for i := 0 to |users|
        invariant |users| == |before|
        invariant forall k :: 0 <= k < |users| ==>
                    users[k] == if k < i && before[k].id in ids then before[k].(parents := People([contact])) else before[k]
      {
        if users[i].id in ids {
          users := users[i := users[i].(parents := People([contact]))];
        }
      }
    }

    method ClearConsents(ids: seq<Id>)
      modifies this`users
      ensures |users| == |old(users)|
      ensures forall i :: 0 <= i < |users| ==>
                users[i] == if old(users)[i].id in ids
                            then old(users)[i].(parentConsents := WithParentId(old(users)[i].parentConsents, None))
                            else old(users)[i]
    {
      ghost var before := users;
      for i := 0 to |users|
        invariant |users| == |before|
        invariant forall k :: 0 <= k < |users| ==>
                    users[k] == if k < i && before[k].id in ids
                                then before[k].(parentConsents := WithParentId(before[k].parentConsents, None)) else before[k]
      {
        if users[i].id in ids && users[i].parentConsents.Some? {
          users := users[i := users[i].(parentConsents := WithParentId(users[i].parentConsents, None))];
        }
      }
    }

    /** Two updates of the same users: their parents, then the parent ids of their consents. */
    method UpdateStudentsParentData(ids: seq<Id>, contact: Contact) returns (ok: bool, ghost half: bool)
      modifies this`users, this`answers
      ensures |users| == |old(users)|
      ensures ok ==> forall i :: 0 <= i < |users| ==>
                users[i] == if old(users)[i].id in ids then Carrying(old(users)[i], contact) else old(users)[i]
      ensures !ok ==> forall i :: 0 <= i < |users| ==>
                users[i] == if half && old(users)[i].id in ids then old(users)[i].(parents := People([contact])) else old(users)[i]
      ensures old(answers).None? ==> ok && answers.None?
    {
      half := false;
      ok := Answer();
      if !ok {
        return;
      }
      SetParents(ids, contact);
      half := true;
      ok := Answer();
      if ok {
        ClearConsents(ids);
      }
    }

    method DeleteParentUsersByIds(ids: seq<Id>)
      modifies this`users
      ensures users == Filter(NotIn(ids), old(users))
    {
      var kept := [];
      for i := 0 to |users|
        invariant users == old(users)
        invariant kept == Filter(NotIn(ids), users[..i])
      {
        assert users[..i + 1] == users[..i] + [users[i]];
        FilterAppend(NotIn(ids), users[..i], [users[i]]);
        if users[i].id !in ids {
          kept := kept + [users[i]];
        }
      }
      assert users[..|users|] == users;
      users := kept;
    }

    /** `base` is what a batch started from, `order` the parents processed so far. */
    method ProcessParent(ghost base: seq<User>, ghost order: seq<Person>, parent: User) returns (ok: bool, ghost half: bool)
      requires UniqueIds(base) && users == MigratedUsers(order, base)
      modifies this`users, this`answers
      ensures ok ==> users == MigratedUsers(order + [PersonOf(parent)], base)
      ensures !ok ==> users == HalfwayUsers(if half then Some(PersonOf(parent)) else None, MigratedUsers(order, base))
      ensures old(answers).None? ==> ok && answers.None?
    {
      ghost var before := users;
      half := false;
      assert UniqueIds(users);
      ok := Answer();
      if !ok {
        assert HalfwayUsers(None, users) == users;
        return;
      }
      var studentIds := GetStudentsForParent(parent.id);
      ok, half := UpdateStudentsParentData(studentIds, parent.contact);
      forall i | 0 <= i < |base|
        ensures if ok then users[i] == Migrated(order + [PersonOf(parent)], base[i])
                else users[i] == Halfway(if half then Some(PersonOf(parent)) else None, before[i])
      {
        MigratedStep(order, PersonOf(parent), base[i]);
        assert before[i] in before;
      }
    }

    /** A batch stops after some of its parents, in the middle of one, or before they are deleted. */
    method ProcessBatch(ghost base: seq<User>, ghost order: seq<Person>, parents: seq<User>)
      returns (ok: bool, ghost done: nat, ghost begun: Option<Person>)
      requires UniqueIds(base) && users == MigratedUsers(order, base)
      modifies this`users, this`answers
      ensures ok ==> users == MigratedUsers(order + Map(PersonOf, parents), Filter(NotIn(IdsOf(Map(PersonOf, parents))), base))
      ensures done <= |parents| && (begun.Some? ==> done < |parents| && begun == Some(PersonOf(parents[done])))
      ensures !ok ==> users == HalfwayUsers(begun, MigratedUsers(order + Map(PersonOf, parents[..done]), base))
      ensures old(answers).None? ==> ok && answers.None?
    {
      var parentIdsToDelete := [];
      begun := None;
      assert order + Map(PersonOf, parents[..0]) == order;
      for k := 0 to |parents|
        invariant users == MigratedUsers(order + Map(PersonOf, parents[..k]), base)
        invariant parentIdsToDelete == IdsOf(Map(PersonOf, parents[..k]))
        invariant begun == None
        invariant old(answers).None? ==> answers.None?
      {
        ghost var half;
        ok, half := ProcessParent(base, order + Map(PersonOf, parents[..k]), parents[k]);
        if !ok {
          return false, k, if half then Some(PersonOf(parents[k])) else None;
        }
        parentIdsToDelete := parentIdsToDelete + [parents[k].id];
        assert order + Map(PersonOf, parents[..k]) + [PersonOf(parents[k])] == order + Map(PersonOf, parents[..k + 1]);
      }
      assert parents[..|parents|] == parents;
      done := |parents|;
      ok := Answer();
      if !ok {
        assert HalfwayUsers(None, users) == users;
        return;
      }
      DeleteParentUsersByIds(parentIdsToDelete);
      FilterMigrated(order + Map(PersonOf, parents), parentIdsToDelete, base);
    }

    /**
     `stop.deleted` records the parents as they were processed.  Without a broken connection the run succeeds exactly
     when there is a role to begin with.
     */
    method BulkMigrateParentsToStudents() returns (ok: bool, ghost stop: Stop)
      requires UniqueIds(users)
      modifies this
      ensures old(parentRole).None? ==> !ok && users == old(users)
      ensures old(parentRole).Some? && old(answers).None? ==> ok
      ensures ok ==> parentRole == None && Moves(old(users), old(parentRole).value, stop.deleted, users)
      ensures !ok ==> parentRole == old(parentRole)
      ensures !ok && parentRole.Some? ==> Stopped(old(users), parentRole.value, stop, users)
    {
      stop := Stop([], [], None);
      ghost var before, order := users, [];
      FilterAll(NotIn([]), before);
      ok := Answer();
      if !ok || parentRole.None? {
        return false, stop;
      }
      var role, limit := parentRole.value, 500;
      var continueBulkProcess := true;
      while continueBulkProcess
        invariant parentRole == old(parentRole)
        invariant Progress(before, role, order, users)
        invariant !continueBulkProcess ==> forall u :: u in users ==> role !in u.roles
        invariant old(answers).None? ==> answers.None?
        decreases continueBulkProcess, |users|
      {
        ProgressKeepsUniqueIds(before, role, order, users);
        ok := Answer();
        if !ok {
          StoppedBetweenBatches(before, role, order, users);
          return false, Stop(order, [], None);
        }
        var parents := FindBulkParents(role, limit);
        if |parents| == 0 {
          continueBulkProcess := false;
        } else {
          ghost var start, done, begun := users, 0, None;
          ghost var base := Filter(NotIn(IdsOf(order)), before);
          FilterKeepsUniqueIds(NotIn(IdsOf(order)), before);
          ok, done, begun := ProcessBatch(base, order, parents);
          if !ok {
            StoppedInBatch(before, role, order, start, parents, done, begun, users);
            return false, Stop(order, Map(PersonOf, parents[..done]), begun);
          }
          BatchMakesProgress(before, role, order, start, parents, users);
          order := order + Map(PersonOf, parents);
        }
      }
      StoppedBetweenBatches(before, role, order, users);
      stop := Stop(order, [], None);
      ok := Answer();
      if !ok {
        return;
      }
      parentRole := None;
      ProgressEnds(before, role, order, users);
    }
  }

  // ---- between two batches ----

  /** Exactly the processed parents are gone. */
  ghost predicate Progress(before: seq<User>, role: Id, order: seq<Person>, users: seq<User>) {
    && UniqueIds(before)
    && NoDuplicates(IdsOf(order))
    && (forall x :: x in order ==> exists u :: u in before && role in u.roles && PersonOf(u) == x)
    && users == MigratedUsers(order, Filter(NotIn(IdsOf(order)), before))
  }

  lemma ProgressKeepsUniqueIds(before: seq<User>, role: Id, order: seq<Person>, users: seq<User>)
    requires Progress(before, role, order, users)
    ensures UniqueIds(users)
  {
    FilterKeepsUniqueIds(NotIn(IdsOf(order)), before);
  }

  /** A user that is still there is one of the old users, up to its parents. */
  lemma RemainingUser(before: seq<User>, role: Id, order: seq<Person>, users: seq<User>, u: User) returns (v: User)
    requires Progress(before, role, order, users) && u in users
    ensures v in before && v.id !in IdsOf(order) && v.roles == u.roles && PersonOf(v) == PersonOf(u)
  {
    var base := Filter(NotIn(IdsOf(order)), before);
    var i :| 0 <= i < |users| && users[i] == u;
    v := base[i];
    FilterMembers(NotIn(IdsOf(order)), before);
  }

  lemma AppendKeepsDistinct(order: seq<Person>, parents: seq<User>)
    requires NoDuplicates(IdsOf(order)) && UniqueIds(parents)
    requires forall p :: p in parents ==> p.id !in IdsOf(order)
    ensures IdsOf(order + Map(PersonOf, parents)) == IdsOf(order) + IdsOf(Map(PersonOf, parents))
    ensures NoDuplicates(IdsOf(order + Map(PersonOf, parents)))
  {
  }

  lemma BatchIsNew(before: seq<User>, role: Id, order: seq<Person>, users: seq<User>, parents: seq<User>)
    requires Progress(before, role, order, users)
    requires forall p :: p in parents ==> p in users && role in p.roles
    ensures forall p :: p in parents ==> p.id !in IdsOf(order)
    ensures forall x :: x in order + Map(PersonOf, parents) ==> exists u :: u in before && role in u.roles && PersonOf(u) == x
  {
    hide Migrated, UniqueIds;
    forall p | p in parents
      ensures p.id !in IdsOf(order)
      ensures exists u :: u in before && role in u.roles && PersonOf(u) == PersonOf(p)
    {
      var v := RemainingUser(before, role, order, users, p);
    }
  }

  lemma StoppedBetweenBatches(before: seq<User>, role: Id, order: seq<Person>, users: seq<User>)
    requires Progress(before, role, order, users)
    ensures Stopped(before, role, Stop(order, [], None), users)
  {
    assert order + [] == order;
    assert HalfwayUsers(None, users) == users;
  }

  lemma {:induction false} StoppedInBatch(
      before: seq<User>, role: Id, order: seq<Person>, start: seq<User>, parents: seq<User>, done: nat, begun: Option<Person>, users: seq<User>)
    requires Progress(before, role, order, start)
    requires UniqueIds(parents) && forall p :: p in parents ==> p in start && role in p.roles
    requires done <= |parents| && (begun.Some? ==> done < |parents| && begun == Some(PersonOf(parents[done])))
    requires users == HalfwayUsers(begun, MigratedUsers(order + Map(PersonOf, parents[..done]), Filter(NotIn(IdsOf(order)), before)))
    ensures Stopped(before, role, Stop(order, Map(PersonOf, parents[..done]), begun), users)
  {
    var some := parents[..if begun.Some? then done + 1 else done];
    BatchIsNew(before, role, order, start, some);
    AppendKeepsDistinct(order, some);
    assert Begun(Stop(order, Map(PersonOf, parents[..done]), begun)) == order + Map(PersonOf, some);
  }

  lemma {:induction false} BatchMakesProgress(before: seq<User>, role: Id, order: seq<Person>, users: seq<User>, parents: seq<User>, next: seq<User>)
    requires Progress(before, role, order, users)
    requires parents != [] && UniqueIds(parents) && forall p :: p in parents ==> p in users && role in p.roles
    requires next == MigratedUsers(order + Map(PersonOf, parents),
                                   Filter(NotIn(IdsOf(Map(PersonOf, parents))), Filter(NotIn(IdsOf(order)), before)))
    ensures Progress(before, role, order + Map(PersonOf, parents), next)
    ensures |next| < |users|
  {
    BatchIsNew(before, role, order, users, parents);
    AppendKeepsDistinct(order, parents);
    FilterTwice(IdsOf(order), IdsOf(Map(PersonOf, parents)), before);
    SomebodyIsDropped(order, Filter(NotIn(IdsOf(order)), before), users, parents);
    hide UniqueIds, NoDuplicates, Filter, IdsOf, MigratedUsers;
  }

  lemma {:induction false} SomebodyIsDropped(order: seq<Person>, base: seq<User>, users: seq<User>, parents: seq<User>)
    requires users == MigratedUsers(order, base) && parents != [] && parents[0] in users
    ensures |Filter(NotIn(IdsOf(Map(PersonOf, parents))), base)| < |base|
  {
    var people := Map(PersonOf, parents);
    var gone :| 0 <= gone < |users| && users[gone] == parents[0];
    assert base[gone].id == IdsOf(people)[0];
    FilterDrops(NotIn(IdsOf(people)), base, gone);
  }

  lemma {:induction false} FilterDrops<T>(keep: T -> bool, s: seq<T>, k: nat)
    requires k < |s| && !keep(s[k])
    ensures |Filter(keep, s)| < |s|
  {
    if k > 0 {
      FilterDrops(keep, s[1..], k - 1);
    }
  }

  lemma ProgressEnds(before: seq<User>, role: Id, order: seq<Person>, users: seq<User>)
    requires Progress(before, role, order, users)
    requires forall u :: u in users ==> role !in u.roles
    ensures Moves(before, role, order, users)
  {
    var base := Filter(NotIn(IdsOf(order)), before);
    FilterMembers(NotIn(IdsOf(order)), before);
    forall u | u in before
      ensures u.id in IdsOf(order) ==> role in u.roles && PersonOf(u) in order
      ensures role in u.roles ==> u.id in IdsOf(order)
    {
      if u.id in IdsOf(order) {
        var k :| 0 <= k < |order| && order[k].id == u.id;
        assert order[k] in order;
        var v :| v in before && role in v.roles && PersonOf(v) == order[k];
        SameIdSameUser(before, u, v);
      } else {
        var i :| 0 <= i < |base| && base[i] == u;
        assert users[i].roles == u.roles && users[i] in users;
      }
    }
    FilterSame(NotIn(IdsOf(order)), WithoutRole(role), before);
  }

  // ---- what the migration achieves ----

  /** `p` is the parent of `u` that is processed first. */
  ghost predicate ProcessedFirst(users: seq<User>, role: Id, order: seq<Person>, u: User, p: User) {
    && p in users && role in p.roles && RefersTo(u, p.id)
    && exists k :: 0 <= k < |order| && order[k] == PersonOf(p) && forall j :: 0 <= j < k ==> !RefersTo(u, order[j].id)
  }

  lemma {:induction false} FirstParentIsProcessedFirst(users: seq<User>, role: Id, order: seq<Person>, u: User)
    requires UniqueIds(users) && Lists(order, users, role) && FirstParent(order, u).Some?
    ensures exists p :: ProcessedFirst(users, role, order, u, p) && PersonOf(p) == FirstParent(order, u).value
  {
    var k := FirstParentPosition(order, u);
    assert order[k] in order;
    var p :| p in users && role in p.roles && PersonOf(p) == order[k];
    assert ProcessedFirst(users, role, order, u, p);
  }

  lemma MigratedKeepsIdentity(order: seq<Person>, users: seq<User>)
    ensures forall i :: 0 <= i < |users| ==>
              MigratedUsers(order, users)[i].id == users[i].id && MigratedUsers(order, users)[i].roles == users[i].roles
  {
  }

  /** Nobody is lost but the parent users. */
  lemma ParentUsersAreGone(before: seq<User>, role: Id, order: seq<Person>, after: seq<User>)
    requires UniqueIds(before) && Moves(before, role, order, after)
    ensures UniqueIds(after) && forall v :: v in after ==> role !in v.roles
    ensures forall u :: u in before ==> (role in u.roles <==> forall v :: v in after ==> v.id != u.id)
  {
    var kept := Filter(WithoutRole(role), before);
    FilterMembers(WithoutRole(role), before);
    FilterKeepsUniqueIds(WithoutRole(role), before);
    assert after == MigratedUsers(order, kept);
    hide Migrated, Filter, Lists, MigratedUsers, Moves;
    MigratedKeepsIdentity(order, kept);
    assert UniqueIds(after);
    hide UniqueIds;
    forall v | v in after ensures role !in v.roles {
      var i :| 0 <= i < |after| && after[i] == v;
      assert kept[i] in kept;
    }
    forall u | u in before ensures role in u.roles <==> forall v :: v in after ==> v.id != u.id {
      if role !in u.roles {
        var i :| 0 <= i < |kept| && kept[i] == u;
        assert after[i] in after && after[i].id == u.id;
      } else if v :| v in after && v.id == u.id {
        var i :| 0 <= i < |after| && after[i] == v;
        SameIdSameUser(before, kept[i], u);
      }
    }
  }

  /**
   A user with a parent user carries exactly the data of the parent processed first, with its consents cleared;
   the others are untouched.
   */
  lemma StudentsCarryTheirFirstParent(before: seq<User>, role: Id, order: seq<Person>, after: seq<User>, u: User)
    requires UniqueIds(before) && Moves(before, role, order, after)
    requires u in before && role !in u.roles
    ensures (exists p :: p in before && role in p.roles && RefersTo(u, p.id)) <==>
            (exists p :: ProcessedFirst(before, role, order, u, p))
    ensures forall p :: ProcessedFirst(before, role, order, u, p) ==> Carrying(u, p.contact) in after
    ensures (forall p :: p in before && role in p.roles ==> !RefersTo(u, p.id)) ==> u in after
  {
    var kept := Filter(WithoutRole(role), before);
    FilterMembers(WithoutRole(role), before);
    var i :| 0 <= i < |kept| && kept[i] == u;
    assert after[i] == Migrated(order, u) && after[i] in after;
    forall p | p in before && role in p.roles && RefersTo(u, p.id)
      ensures exists q :: ProcessedFirst(before, role, order, u, q)
    {
      assert PersonOf(p) in order;
      FirstParentIsProcessedFirst(before, role, order, u);
    }
    forall p | ProcessedFirst(before, role, order, u, p) ensures Carrying(u, p.contact) == after[i] {
      ProcessedFirstIsFirstParent(before, role, order, u, p);
    }
    if FirstParent(order, u).Some? {
      FirstParentIsProcessedFirst(before, role, order, u);
    }
  }

  lemma {:induction false} ProcessedFirstIsFirstParent(users: seq<User>, role: Id, order: seq<Person>, u: User, p: User)
    requires ProcessedFirst(users, role, order, u, p)
    ensures FirstParent(order, u) == Some(PersonOf(p))
  {
    var k :| 0 <= k < |order| && order[k] == PersonOf(p) && forall j :: 0 <= j < k ==> !RefersTo(u, order[j].id);
    FirstParentAt(order, u, k);
  }

  lemma {:induction false} FirstParentAt(order: seq<Person>, u: User, k: nat)
    requires k < |order| && RefersTo(u, order[k].id) && forall j :: 0 <= j < k ==> !RefersTo(u, order[j].id)
    ensures FirstParent(order, u) == Some(order[k])
  {
    if k > 0 {
      assert !RefersTo(u, order[0].id);
      FirstParentAt(order[1..], u, k - 1);
    }
  }

  lemma {:induction false} FirstParentPosition(order: seq<Person>, u: User) returns (k: nat)
    requires FirstParent(order, u).Some?
    ensures k < |order| && FirstParent(order, u) == Some(order[k]) && RefersTo(u, order[k].id)
    ensures forall j :: 0 <= j < k ==> !RefersTo(u, order[j].id)
  {
    if RefersTo(u, order[0].id) {
      k := 0;
    } else {
      k := FirstParentPosition(order[1..], u);
      k := k + 1;
    }
  }
}
